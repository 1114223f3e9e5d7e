/** End-to-end guarantees of middlewares and verifier over the lossy network. */
module Guarantees {
  import opened ByteStrings
  import opened Wire
  import opened Token
  import opened Middleware
  import opened Concurrent
  import opened Protocol
  import opened Headers
  import V = Verifier
  import Framing
  import Hex
  import Authority
  import PathScope
  import Runs

  /** A session of an enforcing, fail-closed middleware that let its request egress. */
  predicate Egressed(s: Sys, sid: nat) {
    && sid in s.sessions
    && s.sessions[sid].cfg.mode.Enforce? && s.sessions[sid].cfg.fail.Closed?
    && s.sessions[sid].result.Some? && s.sessions[sid].result.value.0.Continue?
  }

  /** The claims of the token that the session presents to the verifier. */
  function PresentedClaims(env: Env, s: Sys, sid: nat): Option<Claims>
    requires sid in s.sessions
  {
    match s.sessions[sid].wire
    case None => None
    case Some(wire) =>
      if DEFAULT_TOKEN_HEADER !in wire.credentials then None
      else
        match Verify(env.suite, wire.credentials[DEFAULT_TOKEN_HEADER], env.key)
        case Ok(claims) => Some(claims)
        case Err(_) => None
  }

  // ---- At most once --------------------------------------------------------------------

  lemma ContinueNeedsAllow(x: Session, outcome: VerifierOutcome)
    requires x.wire.Some? && x == Concluded(x, outcome)
    requires x.cfg.mode.Enforce? && x.cfg.fail.Closed? && x.result.value.0.Continue?
    ensures outcome.Verdict? && outcome.response.decision == Allow
  {
  }

  /** A session that did not refuse at once was concluded by some explained outcome. */
  lemma HowConcluded(env: Env, s: Sys, sid: nat) returns (outcome: VerifierOutcome)
    requires sid in s.sessions && SessionInv(env, s, sid)
    requires Egressed(s, sid)
    ensures s.sessions[sid].wire.Some? && s.sessions[sid] == Concluded(s.sessions[sid], outcome)
    ensures outcome.Verdict? ==> AnsweredBy(s, sid, outcome.response)
  {
    var x := s.sessions[sid];
    outcome :| x == Concluded(x, outcome) && (outcome.Verdict? ==> AnsweredBy(s, sid, outcome.response));
  }

  /** Behind an egressed request stands an allowed call that served it. */
  lemma EgressHasAllow(env: Env, s: Sys, sid: nat) returns (cid: nat)
    requires SysInv(env, s) && Egressed(s, sid)
    ensures cid in s.owner && s.owner[cid] == sid
    ensures cid in s.ver.calls && IsAllow(s.ver.calls[cid])
  {
    var outcome := HowConcluded(env, s, sid);
    ContinueNeedsAllow(s.sessions[sid], outcome);
    cid :| cid in s.owner && cid in s.ver.calls && s.owner[cid] == sid && HasResponse(s.ver.calls[cid])
           && s.ver.calls[cid].pc.answer.response == outcome.response;
  }

  /** What an allowed call of the verifier went through. */
  lemma AllowedCall(env: Env, c: Conf, cid: nat) returns (claims: Claims)
    requires Inv(env, c) && cid in c.calls && IsAllow(c.calls[cid])
    ensures StageOf(env, c.calls[cid]) == V.Proceed(claims)
    ensures V.Middle(c.calls[cid].op.req, claims) == None
    ensures claims.jti in c.shared.seen
  {
    assert CallInv(env, c.calls, c.time, c.calls[cid]);
    claims := StageOf(env, c.calls[cid]).claims;
    assert AllowsJti(env, c.calls[cid], claims.jti);
  }

  /** What the prefix checked before letting a request through. */
  lemma PrefixChecked(env: Env, wire: AuthorizeRequest, now: Millis)
    requires V.Prefix(env, wire, now).Proceed?
    ensures var claims := V.Prefix(env, wire, now).claims;
            && DEFAULT_TOKEN_HEADER in wire.credentials
            && Verify(env.suite, wire.credentials[DEFAULT_TOKEN_HEADER], env.key) == Ok(claims)
            && now <= claims.expUnixMs
            && claims.agentId == wire.context.agentId
  {
  }

  /** The call that serves a session runs the session's wire request. */
  lemma ServesSession(s: Sys, sid: nat, cid: nat)
    requires OwnerInv(s) && cid in s.owner && s.owner[cid] == sid
    ensures cid in s.ver.calls && sid in s.sessions && s.sessions[sid].wire.Some?
    ensures s.ver.calls[cid].op == AuthorizeOp(s.sessions[sid].wire.value)
  {
  }

  /** The allowed call has consumed the `jti` of the presented token. */
  lemma AllowOfSession(env: Env, s: Sys, sid: nat, cid: nat)
    requires SysInv(env, s) && cid in s.owner && s.owner[cid] == sid
    requires cid in s.ver.calls && IsAllow(s.ver.calls[cid])
    ensures sid in s.sessions && PresentedClaims(env, s, sid).Some?
    ensures StageOf(env, s.ver.calls[cid]) == V.Proceed(PresentedClaims(env, s, sid).value)
    ensures AllowsJti(env, s.ver.calls[cid], PresentedClaims(env, s, sid).value.jti)
    ensures PresentedClaims(env, s, sid).value.jti in s.ver.shared.seen
  {
    ServesSession(s, sid, cid);
    var claims := AllowedCall(env, s.ver, cid);
    PrefixChecked(env, s.ver.calls[cid].op.req, s.ver.calls[cid].clock);
  }

  /** At most one request egresses for each `jti`, and that `jti` is consumed. */
  lemma AtMostOnce(env: Env, events: seq<Event>, a: nat, b: nat)
    requires Play(env, events).Some?
    requires Egressed(Play(env, events).value, a) && Egressed(Play(env, events).value, b)
    ensures var s := Play(env, events).value;
            && PresentedClaims(env, s, a).Some? && PresentedClaims(env, s, b).Some?
            && PresentedClaims(env, s, a).value.jti in s.ver.shared.seen
            && (PresentedClaims(env, s, a).value.jti == PresentedClaims(env, s, b).value.jti ==> a == b)
  {
    var s := Play(env, events).value;
    PlayInv(env, events);
    var ca := EgressHasAllow(env, s, a);
    var cb := EgressHasAllow(env, s, b);
    AllowOfSession(env, s, a, ca);
    AllowOfSession(env, s, b, cb);
  }

  function EgressedIds(s: Sys): set<nat> {
    set sid | sid in s.sessions && Egressed(s, sid)
  }

  lemma {:induction false} SubsetSize(a: set<Bytes>, b: set<Bytes>)
    requires a <= b
    ensures |a| <= |b|
  {
    if a != {} {
      var x :| x in a;
      SubsetSize(a - {x}, b - {x});
    }
  }

  function ShownJti(env: Env, s: Sys, sid: nat): Bytes
    requires sid in s.sessions
  {
    match PresentedClaims(env, s, sid)
    case Some(claims) => claims.jti
    case None => []
  }

  lemma EgressedDiffer(env: Env, events: seq<Event>, a: nat, b: nat)
    requires Play(env, events).Some?
    requires Egressed(Play(env, events).value, a) && Egressed(Play(env, events).value, b)
    ensures var s := Play(env, events).value;
            && ShownJti(env, s, a) in s.ver.shared.seen
            && (ShownJti(env, s, a) == ShownJti(env, s, b) ==> a == b)
  {
    AtMostOnce(env, events, a, b);
  }

  /** Egressed requests never outnumber consumed `jti`s. */
  lemma EgressesBounded(env: Env, events: seq<Event>)
    requires Play(env, events).Some?
    ensures |EgressedIds(Play(env, events).value)| <= |Play(env, events).value.ver.shared.seen|
  {
    var s := Play(env, events).value;
    var ids := EgressedIds(s);
    var f := map sid | sid in ids :: ShownJti(env, s, sid);
    var image := set sid | sid in ids :: f[sid];
    forall a, b | a in ids && b in ids
      ensures f[a] in s.ver.shared.seen
      ensures f[a] == f[b] ==> a == b
    {
      EgressedDiffer(env, events, a, b);
    }
    Runs.ImageSize(ids, image, f);
    SubsetSize(image, s.ver.shared.seen);
  }

  // ---- What an egress means ----------------------------------------------------------------

  /** Everything a token demands of the context and of the request that egresses. */
  ghost predicate Authorizes(env: Env, claims: Claims, ctx: RequestContext, req: EgressRequest) {
    && claims.agentId == ctx.agentId
    && (claims.onBehalfOf.Some? ==> ctx.onBehalfOf == claims.onBehalfOf)
    && (claims.workloadSelector.Some? ==> claims.workloadSelector.value <= ctx.sandboxId)
    && EqIgnoreCase(claims.scope.method_, req.method_)
    && Authority.AuthorityInScope(req.scheme, req.authority, claims.scope.authority)
    && PathScope.PathInScope(req.path, claims.scope.pathPrefix)
    && (claims.crh.Some? ==> claims.crh.value == EgressHash(env.suite.sha, req))
  }

  /** Spelling method and scheme in one case does not change the scope. */
  lemma SpelledScope(scope: Scope, d: RequestDescriptor, req: EgressRequest)
    requires d.method_ == Upper(req.method_) && d.scheme == Lower(req.scheme)
    requires d.authority == req.authority && d.path == req.path
    ensures V.InScope(scope, d) <==>
            && EqIgnoreCase(scope.method_, req.method_)
            && Authority.AuthorityInScope(req.scheme, req.authority, scope.authority)
            && PathScope.PathInScope(req.path, scope.pathPrefix)
  {
    CaseIdempotent(req.method_);
    CaseIdempotent(req.scheme);
    EqIgnoreCaseIsFolding(scope.method_, d.method_);
    EqIgnoreCaseIsFolding(scope.method_, req.method_);
  }

  /** The checks on the wire descriptor are checks on the request itself. */
  lemma WireScopeIsEgressScope(
    env: Env, x: Session, token: Bytes, receivedAt: int, claims: Claims)
    requires Sent(env, x, token, receivedAt)
    ensures var wire := x.wire.value;
            claims.agentId == wire.context.agentId && V.Middle(wire, claims) == None <==>
            Authorizes(env, claims, x.ctx, x.req)
  {
    SpelledScope(claims.scope, x.wire.value.request, x.req);
  }

  /** An egressed request carried a verified, unexpired token that authorizes exactly it. */
  lemma EgressIsAuthorized(env: Env, events: seq<Event>, sid: nat)
    requires Play(env, events).Some? && Egressed(Play(env, events).value, sid)
    ensures var s := Play(env, events).value;
            && PresentedClaims(env, s, sid).Some?
            && Authorizes(env, PresentedClaims(env, s, sid).value, s.sessions[sid].ctx, s.sessions[sid].req)
            && exists cid | cid in s.owner && cid in s.ver.calls ::
                 s.owner[cid] == sid && IsAllow(s.ver.calls[cid])
                 && s.ver.calls[cid].clock <= PresentedClaims(env, s, sid).value.expUnixMs
  {
    var s := Play(env, events).value;
    PlayInv(env, events);
    var cid := EgressHasAllow(env, s, sid);
    AllowOfSession(env, s, sid, cid);
    ServesSession(s, sid, cid);
    var claims := AllowedCall(env, s.ver, cid);
    PrefixChecked(env, s.ver.calls[cid].op.req, s.ver.calls[cid].clock);
    var token, receivedAt := WhatWasSent(env, s, sid);
    WireScopeIsEgressScope(env, s.sessions[sid], token, receivedAt, claims);
  }

  lemma WhatWasSent(env: Env, s: Sys, sid: nat) returns (token: Bytes, receivedAt: int)
    requires SysInv(env, s) && sid in s.sessions && s.sessions[sid].wire.Some?
    ensures Sent(env, s.sessions[sid], token, receivedAt)
  {
    assert SessionInv(env, s, sid);
    token, receivedAt :| Sent(env, s.sessions[sid], token, receivedAt);
  }

  /**
   Intent binding: if the token was minted for some parts and a body, what egresses is the
   same action with the same body, or one of two given pairs is a SHA-256 collision.
   */
  lemma IntentBinding(env: Env, events: seq<Event>, sid: nat, parts: Framing.Parts, body: Bytes)
    requires Play(env, events).Some? && Egressed(Play(env, events).value, sid)
    requires parts.bodySha256 == env.suite.sha(body)
    requires var claims := PresentedClaims(env, Play(env, events).value, sid);
             claims.Some? && claims.value.crh == Some(Hex.Encode(Framing.CanonicalRequestHash(env.suite.sha, parts)))
    requires Framing.FitsU32(Framing.Canonicalize(parts))
    requires Framing.FitsU32(Framing.Canonicalize(
               EgressParts(env.suite.sha, Play(env, events).value.sessions[sid].req)))
    ensures var req := Play(env, events).value.sessions[sid].req;
            var sent := EgressParts(env.suite.sha, req);
            || (Framing.SameAction(parts, sent) && req.body == body)
            || Framing.Collision(env.suite.sha, body, req.body)
            || Framing.Collision(env.suite.sha, Framing.Preimage(Framing.Canonicalize(parts)),
                                 Framing.Preimage(Framing.Canonicalize(sent)))
  {
    var x := Play(env, events).value.sessions[sid];
    var sha := env.suite.sha;
    EgressIsAuthorized(env, events, sid);
    var sent := EgressParts(sha, x.req);
    Hex.EncodeInjective(Framing.CanonicalRequestHash(sha, parts), Framing.CanonicalRequestHash(sha, sent));
    Framing.HashBindsAction(sha, parts, sent);
  }

  // ---- Enforcing under either fail policy --------------------------------------------------------

  ghost predicate ServedByAllow(s: Sys, sid: nat) {
    exists cid | cid in s.owner && cid in s.ver.calls :: s.owner[cid] == sid && IsAllow(s.ver.calls[cid])
  }

  /** The session ended without a verdict. */
  ghost predicate GaveUp(x: Session) {
    x.wire.Some? && exists outcome: VerifierOutcome :: !outcome.Verdict? && x == Concluded(x, outcome)
  }

  /** The decision of a concluded enforcing session, as `EnforceDecides` has it. */
  lemma EnforcedContinue(x: Session, outcome: VerifierOutcome)
    requires x.wire.Some? && x.cfg.mode == Enforce && x == Concluded(x, outcome)
    requires x.result.value.0.Continue?
    ensures if outcome.Verdict? then outcome.response.decision == Allow else x.cfg.fail == Open
  {
  }

  lemma RefusedBlocks(x: Session)
    requires x.cfg.mode == Enforce
    ensures forall code :: RefusedAs(x, code) ==> x.result.value.0.Block?
  {
  }

  /**
   Whatever its fail policy, an enforcing middleware lets a request egress only if a call that
   served it was allowed, or if no verdict reached it and it fails open.
   */
  lemma EnforcedEgress(env: Env, events: seq<Event>, sid: nat)
    requires Play(env, events).Some?
    requires var s := Play(env, events).value;
             && sid in s.sessions && s.sessions[sid].cfg.mode == Enforce
             && s.sessions[sid].result.Some? && s.sessions[sid].result.value.0.Continue?
    ensures var s := Play(env, events).value;
            ServedByAllow(s, sid) || (GaveUp(s.sessions[sid]) && s.sessions[sid].cfg.fail == Open)
  {
    var s := Play(env, events).value;
    PlayInv(env, events);
    var x := s.sessions[sid];
    assert SessionInv(env, s, sid);
    RefusedBlocks(x);
    var outcome :| x == Concluded(x, outcome) && (outcome.Verdict? ==> AnsweredBy(s, sid, outcome.response));
    EnforcedContinue(x, outcome);
    if outcome.Verdict? {
      var cid :| cid in s.owner && cid in s.ver.calls && s.owner[cid] == sid && HasResponse(s.ver.calls[cid])
                 && s.ver.calls[cid].pc.answer.response == outcome.response;
      assert IsAllow(s.ver.calls[cid]);
    }
  }

  // ---- Another token header ----------------------------------------------------------------------

  /** The verifier's own header reaches it although it is not this middleware's token header. */
  predicate BringsDefault(written: Config, req: EgressRequest) {
    Forwards(written, DEFAULT_TOKEN_HEADER) && Matches(req.headers, DEFAULT_TOKEN_HEADER) != []
  }

  lemma OnlyTheTokenIsMalformed(env: Env, st: V.Shared, wire: AuthorizeRequest, now: Millis)
    ensures V.Decide(env, st, wire, now).0 == V.Denied(TOKEN_MALFORMED) <==>
            || DEFAULT_TOKEN_HEADER !in wire.credentials
            || Verify(env.suite, wire.credentials[DEFAULT_TOKEN_HEADER], env.key) == Err(VerifyError.Malformed)
  {
  }

  /**
   A middleware with another token header than the verifier's. The verifier judges the first
   value of its own header, duplicates or not, if that header is forwarded and present, and
   answers TOKEN_MALFORMED exactly when there is none or that value is malformed. The middleware
   does not strip it, so it egresses.
   */
  lemma ForeignTokenHeader(
    env: Env, written: Config, ctx: RequestContext, req: EgressRequest, receivedAt: int,
    wire: AuthorizeRequest, st: V.Shared, now: Millis)
    requires Lower(written.tokenHeader) != DEFAULT_TOKEN_HEADER
    requires Begin(env.suite.sha, written.Normalized(), ctx, req, receivedAt) == Asking(wire)
    ensures DEFAULT_TOKEN_HEADER in wire.credentials <==> BringsDefault(written, req)
    ensures BringsDefault(written, req) ==>
              wire.credentials[DEFAULT_TOKEN_HEADER] == Matches(req.headers, DEFAULT_TOKEN_HEADER)[0]
    ensures V.Decide(env, st, wire, now).0 == V.Denied(TOKEN_MALFORMED) <==>
            || !BringsDefault(written, req)
            || Verify(env.suite, Matches(req.headers, DEFAULT_TOKEN_HEADER)[0], env.key) == Err(VerifyError.Malformed)
    ensures var left := RemoveAll(req.headers, ContinueDecision(written.Normalized()).stripHeaders);
            Matches(left, DEFAULT_TOKEN_HEADER) == Matches(req.headers, DEFAULT_TOKEN_HEADER)
  {
    CredentialsAgree(env.suite.sha, written, ctx, req, receivedAt);
    OnlyTheTokenIsMalformed(env, st, wire, now);
    ForeignHeaderKeepsDefault(written, req.headers);
  }

  lemma ForeignHeaderKeepsDefault(written: Config, headers: seq<Header>)
    requires Lower(written.tokenHeader) != DEFAULT_TOKEN_HEADER
    ensures var left := RemoveAll(headers, ContinueDecision(written.Normalized()).stripHeaders);
            Matches(left, DEFAULT_TOKEN_HEADER) == Matches(headers, DEFAULT_TOKEN_HEADER)
  {
    var names := ContinueDecision(written.Normalized()).stripHeaders;
    RemoveAllMatches(headers, names, DEFAULT_TOKEN_HEADER);
    forall n | n in names
      ensures !EqIgnoreCase(n, DEFAULT_TOKEN_HEADER)
    {
      CaseIdempotent(written.tokenHeader);
      DefaultIsLower();
      EqIgnoreCaseIsFolding(n, DEFAULT_TOKEN_HEADER);
    }
  }

  lemma DefaultIsLower()
    ensures Lower(DEFAULT_TOKEN_HEADER) == DEFAULT_TOKEN_HEADER
  {
  }

  // ---- The honest middleware is never blamed ---------------------------------------------------

  predicate BlamesMiddleware(response: AuthorizeResponse) {
    response.reasonCode in {DESCRIPTOR_MALFORMED, CRH_MISMATCH, UNSUPPORTED_VERSION}
  }

  /** No middleware, however configured, is ever told that its descriptor or version is wrong. */
  lemma NeverBlamed(env: Env, events: seq<Event>, cid: nat)
    requires Play(env, events).Some?
    requires var s := Play(env, events).value;
             cid in s.owner && cid in s.ver.calls && HasResponse(s.ver.calls[cid])
    ensures !BlamesMiddleware(Play(env, events).value.ver.calls[cid].pc.answer.response)
  {
    var s := Play(env, events).value;
    PlayInv(env, events);
    var sid := s.owner[cid];
    ServesSession(s, sid, cid);
    var x := s.sessions[sid];
    var token, receivedAt := WhatWasSent(env, s, sid);
    DescriptorIsConsistent(env.suite.sha, x.cfg, x.ctx, x.req, token, receivedAt);
    ConsistentIsNotBlamed(env, s.ver, cid);
  }

  lemma ConsistentIsNotBlamed(env: Env, c: Conf, cid: nat)
    requires Inv(env, c) && cid in c.calls && HasResponse(c.calls[cid])
    requires var wire := c.calls[cid].op.req;
             && wire.version == WIRE_VERSION
             && V.RecomputeCrh(env.suite.sha, wire.request) == Some(wire.request.canonicalRequestHash)
    ensures !BlamesMiddleware(c.calls[cid].pc.answer.response)
  {
  }
}
