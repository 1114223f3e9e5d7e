/**
 Delivery is at most once and not exactly once: an honest grant egresses when its answer
 arrives, and a lost answer leaves the token consumed for good.
 */
module Delivery {
  import opened ByteStrings
  import opened Wire
  import opened Token
  import opened Headers
  import opened Middleware
  import opened Concurrent
  import opened Protocol
  import opened Schedules
  import opened Guarantees
  import V = Verifier

  // ---- A token minted for a request is honoured -------------------------------------------

  /**
   The verifier will judge this token: it is the middleware's own unique one or, if the middleware
   uses another header, the first value of the verifier's header, which is forwarded.
   */
  predicate Presents(written: Config, req: EgressRequest, token: Bytes) {
    && |Matches(req.headers, written.tokenHeader)| == 1
    && |req.body| <= written.maxBodyBytes
    && (if Lower(written.tokenHeader) == DEFAULT_TOKEN_HEADER then Matches(req.headers, written.tokenHeader) == [token]
        else BringsDefault(written, req) && Matches(req.headers, DEFAULT_TOKEN_HEADER)[0] == token)
  }

  /** Exactly when the verifier is asked and judges this token. */
  lemma PresentsExactly(
    sha: Bytes -> Digest, written: Config, ctx: RequestContext, req: EgressRequest, receivedAt: int, token: Bytes)
    ensures Presents(written, req, token) <==>
            match Begin(sha, written.Normalized(), ctx, req, receivedAt)
            case Refused(_) => false
            case Asking(wire) =>
              DEFAULT_TOKEN_HEADER in wire.credentials && wire.credentials[DEFAULT_TOKEN_HEADER] == token
  {
    MatchesFold(req.headers, written.tokenHeader);
    if Begin(sha, written.Normalized(), ctx, req, receivedAt).Asking? {
      CredentialsAgree(sha, written, ctx, req, receivedAt);
    }
  }

  /** The wire request of a grant that authorizes it passes every check that reads no shared state. */
  lemma HonestGrantPasses(
    env: Env, claims: Claims, written: Config, ctx: RequestContext, req: EgressRequest, receivedAt: int, now: Millis)
    returns (wire: AuthorizeRequest)
    requires env.suite.CodecLaw()
    requires Presents(written, req, Mint(env.suite, claims, env.key))
    requires Authorizes(env, claims, ctx, req) && now <= claims.expUnixMs
    ensures Begin(env.suite.sha, written.Normalized(), ctx, req, receivedAt) == Asking(wire)
    ensures Passes(env, wire, now) && V.Prefix(env, wire, now).claims == claims
    ensures DEFAULT_TOKEN_HEADER in wire.credentials
    ensures Verify(env.suite, wire.credentials[DEFAULT_TOKEN_HEADER], env.key) == Ok(claims)
  {
    var cfg := written.Normalized();
    PresentsExactly(env.suite.sha, written, ctx, req, receivedAt, Mint(env.suite, claims, env.key));
    wire := Begin(env.suite.sha, cfg, ctx, req, receivedAt).wire;
    var token := LookupOf(Matches(req.headers, cfg.tokenHeader)).value;
    VerifyMint(env.suite, claims, env.key);
    DescriptorIsConsistent(env.suite.sha, cfg, ctx, req, token, receivedAt);
    WireScopeIsEgressScope(env, Session(cfg, ctx, req, Some(wire), None), token, receivedAt, claims);
  }

  // ---- Runs of one session -------------------------------------------------------------------

  lemma Then(env: Env, events: seq<Event>, s: Sys, e: Event) returns (more: seq<Event>)
    requires Play(env, events) == Some(s) && CanHappen(s, e)
    ensures more == events + [e] && Play(env, more) == Some(Happen(env, s, e))
  {
    more := events + [e];
    assert more[..|events|] == events;
  }

  /** The verifier goes from one configuration to another while nothing else happens. */
  lemma Works(env: Env, events: seq<Event>, s: Sys, step: Step) returns (more: seq<Event>, next: Sys)
    requires Play(env, events) == Some(s) && Enabled(s.ver, step)
    ensures Play(env, more) == Some(next)
    ensures next.sessions == s.sessions && next.owner == s.owner
    ensures next.ver.shared == NextShared(s.ver, step)
    ensures next.ver.calls == s.ver.calls[step.id := NextCall(env, s.ver, step)]
  {
    more := Then(env, events, s, Work(step));
    next := Happen(env, s, Work(step));
  }

  /** The request is delivered and gets through the prefix and the revocation check. */
  lemma DeliveredAndChecked(env: Env, events: seq<Event>, s: Sys, sid: nat, cid: nat, now: Millis)
    returns (more: seq<Event>, next: Sys)
    requires Play(env, events) == Some(s) && IsWaiting(s, sid) && cid !in s.ver.calls
    requires Passes(env, s.sessions[sid].wire.value, now)
    requires V.Prefix(env, s.sessions[sid].wire.value, now).claims.agentId !in s.ver.shared.revoked
    ensures Play(env, more) == Some(next)
    ensures next.sessions == s.sessions && next.owner == s.owner[cid := sid]
    ensures next.ver.shared == s.ver.shared && next.ver.calls.Keys == s.ver.calls.Keys + {cid}
    ensures next.ver.calls[cid].op == AuthorizeOp(s.sessions[sid].wire.value)
    ensures next.ver.calls[cid].pc == AtMiddle(V.Prefix(env, s.sessions[sid].wire.value, now).claims)
  {
    more := Then(env, events, s, Deliver(sid, cid));
    next := Happen(env, s, Deliver(sid, cid));
    more, next := Works(env, more, next, RunPrefix(cid, now));
    more, next := Works(env, more, next, RunCheck(cid));
  }

  /** The request is served without interruption and its fresh token is consumed. */
  lemma Served(env: Env, events: seq<Event>, s: Sys, sid: nat, cid: nat, now: Millis)
    returns (more: seq<Event>, next: Sys)
    requires Play(env, events) == Some(s) && IsWaiting(s, sid) && cid !in s.ver.calls
    requires Passes(env, s.sessions[sid].wire.value, now)
    requires var claims := V.Prefix(env, s.sessions[sid].wire.value, now).claims;
             claims.agentId !in s.ver.shared.revoked && claims.jti !in s.ver.shared.seen
    ensures Play(env, more) == Some(next)
    ensures next.sessions == s.sessions && next.owner == s.owner[cid := sid]
    ensures cid in next.ver.calls && HasResponse(next.ver.calls[cid])
    ensures var claims := V.Prefix(env, s.sessions[sid].wire.value, now).claims;
            && next.ver.calls[cid].pc.answer.response == V.Allowed(claims)
            && claims.jti in next.ver.shared.seen
  {
    more, next := DeliveredAndChecked(env, events, s, sid, cid, now);
    more, next := Works(env, more, next, RunMiddle(cid));
    more, next := Works(env, more, next, RunInsert(cid));
  }

  lemma Arrived(
    env: Env, written: Config, ctx: RequestContext, req: EgressRequest, receivedAt: int, wire: AuthorizeRequest)
    returns (events: seq<Event>, s: Sys)
    requires Begin(env.suite.sha, written.Normalized(), ctx, req, receivedAt) == Asking(wire)
    ensures Play(env, events) == Some(s)
    ensures s == Sys(INITIAL, map[0 := Session(written.Normalized(), ctx, req, Some(wire), None)], map[])
  {
    var arrive := Arrive(0, written, ctx, req, receivedAt);
    events := Then(env, [], START, arrive);
    s := Happen(env, START, arrive);
  }

  /** A session that starts with a passing request is served in some run from the start. */
  lemma ArrivedAndServed(
    env: Env, written: Config, ctx: RequestContext, req: EgressRequest, receivedAt: int,
    wire: AuthorizeRequest, now: Millis) returns (events: seq<Event>, s: Sys)
    requires Begin(env.suite.sha, written.Normalized(), ctx, req, receivedAt) == Asking(wire)
    requires Passes(env, wire, now)
    ensures Play(env, events) == Some(s)
    ensures s.sessions == map[0 := Session(written.Normalized(), ctx, req, Some(wire), None)]
    ensures s.owner == map[0 := 0] && 0 in s.ver.calls && HasResponse(s.ver.calls[0])
    ensures s.ver.calls[0].pc.answer.response == V.Allowed(V.Prefix(env, wire, now).claims)
    ensures V.Prefix(env, wire, now).claims.jti in s.ver.shared.seen
  {
    events, s := Arrived(env, written, ctx, req, receivedAt, wire);
    events, s := Served(env, events, s, 0, 0, now);
  }

  /** If the answer arrives, the request egresses. */
  lemma AnsweredGrantEgresses(
    env: Env, claims: Claims, written: Config, ctx: RequestContext, req: EgressRequest, receivedAt: int, now: Millis)
    returns (events: seq<Event>, s: Sys)
    requires env.suite.CodecLaw() && written.mode.Enforce? && written.fail.Closed?
    requires Presents(written, req, Mint(env.suite, claims, env.key))
    requires Authorizes(env, claims, ctx, req) && now <= claims.expUnixMs
    ensures Play(env, events) == Some(s)
    ensures Egressed(s, 0) && s.sessions[0].ctx == ctx && s.sessions[0].req == req
    ensures PresentedClaims(env, s, 0) == Some(claims)
    ensures s.sessions[0].result.value.0 == ContinueDecision(written.Normalized())
  {
    var wire := HonestGrantPasses(env, claims, written, ctx, req, receivedAt, now);
    events, s := ArrivedAndServed(env, written, ctx, req, receivedAt, wire, now);
    events := Then(env, events, s, Reply(0, 0));
    s := Happen(env, s, Reply(0, 0));
  }

  // ---- A lost answer -----------------------------------------------------------------------------

  /** This call consumed the token for a session that ended blocked. */
  ghost predicate VainCall(env: Env, s: Sys, cid: nat, jti: Bytes) {
    && cid in s.owner && cid in s.ver.calls && s.owner[cid] in s.sessions
    && AllowsJti(env, s.ver.calls[cid], jti)
    && var x := s.sessions[s.owner[cid]];
       x.result.Some? && x.result.value.0.Block?
  }

  ghost predicate ConsumedInVain(env: Env, s: Sys, jti: Bytes) {
    exists cid :: VainCall(env, s, cid, jti)
  }

  lemma FailureBlocks(x: Session, loss: VerifierOutcome)
    requires x.wire.Some? && x.cfg.mode.Enforce? && x.cfg.fail.Closed? && !loss.Verdict?
    ensures Concluded(x, loss).result.Some? && Concluded(x, loss).result.value.0.Block?
    ensures Concluded(x, loss).result.value.0.verdict.httpStatus == 503
  {
  }

  /** After its request was allowed, the session gives up waiting. */
  lemma GivenUp(env: Env, events: seq<Event>, s: Sys, claims: Claims, loss: VerifierOutcome)
    returns (more: seq<Event>, next: Sys)
    requires Play(env, events) == Some(s) && IsWaiting(s, 0) && !loss.Verdict?
    requires s.sessions[0].cfg.mode.Enforce? && s.sessions[0].cfg.fail.Closed?
    requires s.owner == map[0 := 0] && 0 in s.ver.calls && HasResponse(s.ver.calls[0])
    requires s.ver.calls[0].pc.answer.response == V.Allowed(claims)
    ensures Play(env, more) == Some(next)
    ensures next.ver == s.ver
    ensures 0 in next.sessions && next.sessions[0] == s.sessions[0].(result := next.sessions[0].result)
    ensures next.sessions[0].result.Some? && next.sessions[0].result.value.0.Block?
    ensures next.sessions[0].result.value.0.verdict.httpStatus == 503
    ensures ConsumedInVain(env, next, claims.jti)
  {
    PlayInv(env, events);
    AllowedNames(env, s.ver, 0, claims);
    more := Then(env, events, s, GiveUp(0, loss));
    next := Happen(env, s, GiveUp(0, loss));
    FailureBlocks(s.sessions[0], loss);
    assert VainCall(env, next, 0, claims.jti);
  }

  /** The answer is lost after the verifier committed: blocked with 503, and the token is gone. */
  lemma LostAnswerConsumesToken(
    env: Env, claims: Claims, written: Config, ctx: RequestContext, req: EgressRequest, receivedAt: int, now: Millis,
    loss: VerifierOutcome) returns (events: seq<Event>, s: Sys)
    requires env.suite.CodecLaw() && written.mode.Enforce? && written.fail.Closed?
    requires Presents(written, req, Mint(env.suite, claims, env.key))
    requires Authorizes(env, claims, ctx, req) && now <= claims.expUnixMs
    requires !loss.Verdict?
    ensures Play(env, events) == Some(s)
    ensures ConsumedInVain(env, s, claims.jti) && claims.jti in s.ver.shared.seen
    ensures 0 in s.sessions && s.sessions[0].ctx == ctx && s.sessions[0].req == req
    ensures s.sessions[0].result.Some? && s.sessions[0].result.value.0.Block?
    ensures s.sessions[0].result.value.0.verdict.httpStatus == 503
  {
    var wire := HonestGrantPasses(env, claims, written, ctx, req, receivedAt, now);
    events, s := ArrivedAndServed(env, written, ctx, req, receivedAt, wire, now);
    events, s := GivenUp(env, events, s, claims, loss);
  }

  /** The answer of an allowed call names its `jti` in the receipt. */
  lemma AllowedNames(env: Env, c: Conf, cid: nat, claims: Claims)
    requires Inv(env, c) && cid in c.calls && HasResponse(c.calls[cid])
    requires c.calls[cid].pc.answer.response == V.Allowed(claims)
    ensures AllowsJti(env, c.calls[cid], claims.jti)
  {
    var stood := AllowedCall(env, c, cid);
    assert CallInv(env, c.calls, c.time, c.calls[cid]);
    var receipt := c.calls[cid].pc.answer.response.receiptId.value;
    assert receipt[|V.RECEIPT_PREFIX|..] == claims.jti;
    assert (V.RECEIPT_PREFIX + stood.jti)[|V.RECEIPT_PREFIX|..] == stood.jti;
  }

  lemma VainStaysVain(env: Env, events: seq<Event>, more: seq<Event>, jti: Bytes)
    requires Play(env, events + more).Some?
    requires Play(env, events).Some? && ConsumedInVain(env, Play(env, events).value, jti)
    ensures ConsumedInVain(env, Play(env, events + more).value, jti)
  {
    var s, t := Play(env, events).value, Play(env, events + more).value;
    assert (events + more)[..|events|] == events;
    PlayGrows(env, events + more, |events|);
    var cid :| VainCall(env, s, cid, jti);
    assert t.ver.calls[cid] == s.ver.calls[cid];
    assert t.sessions[t.owner[cid]] == s.sessions[s.owner[cid]];
    assert VainCall(env, t, cid, jti);
  }

  /** Whatever happens later, no request egresses on a token that was consumed in vain. */
  lemma NeverAgain(env: Env, events: seq<Event>, more: seq<Event>, jti: Bytes, sid: nat)
    requires Play(env, events + more).Some?
    requires Play(env, events).Some? && ConsumedInVain(env, Play(env, events).value, jti)
    requires Egressed(Play(env, events + more).value, sid)
    ensures var claims := PresentedClaims(env, Play(env, events + more).value, sid);
            claims.Some? && claims.value.jti != jti
  {
    var t := Play(env, events + more).value;
    VainStaysVain(env, events, more, jti);
    PlayInv(env, events + more);
    var cid := EgressHasAllow(env, t, sid);
    AllowOfSession(env, t, sid, cid);
    var vain :| VainCall(env, t, vain, jti);
    assert cid != vain;
  }
}
