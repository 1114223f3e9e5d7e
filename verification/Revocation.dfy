/** Revoking an agent, as the composed system feels it: the agent's later requests do not egress. */
module Revocation {
  import opened ByteStrings
  import opened Wire
  import opened Token
  import opened Concurrent
  import opened Protocol
  import opened Schedules
  import opened Guarantees
  import opened Delivery
  import opened Middleware
  import V = Verifier

  /** Since `s`, new calls began later, and calls of other clients were not taken for a session's. */
  predicate Succeeds(s: Sys, t: Sys) {
    && s.ver.time <= t.ver.time
    && (forall cid | cid in t.ver.calls && cid !in s.ver.calls :: s.ver.time <= t.ver.calls[cid].inv)
    && (forall cid | cid in s.ver.calls :: cid in t.ver.calls && (cid in t.owner ==> cid in s.owner))
  }

  lemma SucceedsNext(env: Env, s: Sys, t: Sys, e: Event)
    requires Succeeds(s, t) && CanHappen(t, e)
    ensures Succeeds(s, Happen(env, t, e))
  {
  }

  lemma {:induction false} LaterSucceeds(env: Env, events: seq<Event>, n: nat)
    requires n <= |events| && Play(env, events).Some?
    ensures Play(env, events[..n]).Some?
    ensures Succeeds(Play(env, events[..n]).value, Play(env, events).value)
  {
    if n == |events| {
      assert events[..n] == events;
    } else {
      var last := |events| - 1;
      LaterSucceeds(env, events[..last], n);
      assert events[..last][..n] == events[..n];
      SucceedsNext(env, Play(env, events[..n]).value, Play(env, events[..last]).value, events[last]);
    }
  }

  /** What was revoked in an earlier configuration was revoked before every later time. */
  lemma RevokedStays(env: Env, c: Conf, d: Conf, agentId: Bytes, time: nat)
    requires Inv(env, c) && AnswersKept(c, d) && agentId in c.shared.revoked && c.time <= time
    ensures RevokedBefore(d.calls, agentId, time)
  {
  }

  /** The request has reached the verifier. */
  predicate Delivered(s: Sys, sid: nat) {
    exists cid | cid in s.owner :: s.owner[cid] == sid
  }

  /** A call that serves a request delivered only later began after the earlier configuration. */
  lemma ServedLater(s: Sys, t: Sys, sid: nat, cid: nat)
    requires Succeeds(s, t) && OwnersKept(s, t) && !Delivered(s, sid)
    requires cid in t.owner && t.owner[cid] == sid && cid in t.ver.calls
    ensures s.ver.time <= t.ver.calls[cid].inv
  {
    assert cid !in s.owner;
  }

  /** The agent of an allowed call was not revoked before the call began. */
  lemma AllowedAgentStood(env: Env, c: Conf, cid: nat)
    requires Inv(env, c) && cid in c.calls && IsAllow(c.calls[cid])
    ensures !RevokedBefore(c.calls, c.calls[cid].op.req.context.agentId, c.calls[cid].inv)
  {
    var k := c.calls[cid];
    assert CallInv(env, c.calls, c.time, k);
    var claims := AllowedCall(env, c, cid);
    PrefixChecked(env, k.op.req, k.clock);
    assert !RevokedBefore(c.calls, claims.agentId, k.mark);
  }

  lemma AllowedAgentWasNotRevoked(env: Env, s: Sys, t: Sys, sid: nat, cid: nat)
    requires Inv(env, s.ver) && SysInv(env, t)
    requires Succeeds(s, t) && AnswersKept(s.ver, t.ver) && OwnersKept(s, t) && !Delivered(s, sid)
    requires cid in t.owner && t.owner[cid] == sid && cid in t.ver.calls && IsAllow(t.ver.calls[cid])
    ensures sid in t.sessions && t.sessions[sid].ctx.agentId !in s.ver.shared.revoked
  {
    ServedLater(s, t, sid, cid);
    AllowedAgentStood(env, t.ver, cid);
    ServesSession(t, sid, cid);
    var token, receivedAt := WhatWasSent(env, t, sid);
    var agentId := t.sessions[sid].ctx.agentId;
    assert agentId == t.ver.calls[cid].op.req.context.agentId;
    if agentId in s.ver.shared.revoked {
      RevokedStays(env, s.ver, t.ver, agentId, t.ver.calls[cid].inv);
    }
  }

  /**
   Revoke the agent, denied everywhere: no request that had not reached the verifier when its agent
   was revoked egresses, from any sandbox, through any enforcing middleware, in any continuation.
   */
  lemma RevokedNeverEgress(env: Env, events: seq<Event>, n: nat, sid: nat)
    requires n <= |events| && Play(env, events[..n]).Some? && Play(env, events).Some?
    requires !Delivered(Play(env, events[..n]).value, sid)
    requires Egressed(Play(env, events).value, sid)
    ensures Play(env, events).value.sessions[sid].ctx.agentId !in Play(env, events[..n]).value.ver.shared.revoked
  {
    var s, t := Play(env, events[..n]).value, Play(env, events).value;
    PlayInv(env, events[..n]);
    PlayInv(env, events);
    PlayGrows(env, events, n);
    LaterSucceeds(env, events, n);
    var cid := EgressHasAllow(env, t, sid);
    AllowedAgentWasNotRevoked(env, s, t, sid, cid);
  }

  /** In particular, no request that arrives after the revocation. */
  lemma RevokedBeforeArrival(env: Env, events: seq<Event>, n: nat, sid: nat)
    requires n <= |events| && Play(env, events[..n]).Some? && Play(env, events).Some?
    requires sid !in Play(env, events[..n]).value.sessions
    requires Egressed(Play(env, events).value, sid)
    ensures Play(env, events).value.sessions[sid].ctx.agentId !in Play(env, events[..n]).value.ver.shared.revoked
  {
    PlayInv(env, events[..n]);
    RevokedNeverEgress(env, events, n, sid);
  }

  lemma RevokedMidway(env: Env, events: seq<Event>, s: Sys, id: nat, agentId: Bytes)
    returns (more: seq<Event>, next: Sys)
    requires Play(env, events) == Some(s) && id !in s.ver.calls
    ensures Play(env, more) == Some(next)
    ensures next.sessions == s.sessions && next.owner == s.owner
    ensures next.ver.shared == s.ver.shared.(revoked := s.ver.shared.revoked + {agentId})
    ensures id in next.ver.calls && next.ver.calls == s.ver.calls[id := next.ver.calls[id]]
  {
    more, next := Works(env, events, s, Invoke(id, RevokeOp(agentId)));
    more, next := Works(env, more, next, RunRevoke(id));
  }

  /** From its check on, the call is decided by its `jti` alone, whoever is revoked meanwhile. */
  lemma FinishedAndAnswered(env: Env, events: seq<Event>, s: Sys, claims: Claims)
    returns (more: seq<Event>, next: Sys)
    requires Play(env, events) == Some(s) && IsWaiting(s, 0)
    requires 0 in s.owner && s.owner[0] == 0 && 0 in s.ver.calls
    requires s.ver.calls[0].op.AuthorizeOp? && s.ver.calls[0].pc == AtMiddle(claims)
    requires V.Middle(s.ver.calls[0].op.req, claims) == None && claims.jti !in s.ver.shared.seen
    ensures events <= more && Play(env, more) == Some(next)
    ensures 0 in next.sessions && next.sessions[0] == Concluded(s.sessions[0], Verdict(V.Allowed(claims)))
  {
    more := Then(env, events, s, Work(RunMiddle(0)));
    next := Happen(env, s, Work(RunMiddle(0)));
    more := Then(env, more, next, Work(RunInsert(0)));
    next := Happen(env, next, Work(RunInsert(0)));
    more := Then(env, more, next, Reply(0, 0));
    next := Happen(env, next, Reply(0, 0));
  }

  /** A first request gets through its revocation check. */
  ghost predicate PastCheck(s: Sys, x: Session, claims: Claims) {
    && x.wire.Some? && s.sessions == map[0 := x] && s.owner == map[0 := 0]
    && 0 in s.ver.calls && s.ver.calls[0].op == AuthorizeOp(x.wire.value) && s.ver.calls[0].pc == AtMiddle(claims)
    && s.ver.shared.seen == {}
  }

  lemma Checked(
    env: Env, written: Config, ctx: RequestContext, req: EgressRequest, receivedAt: int,
    wire: AuthorizeRequest, now: Millis) returns (events: seq<Event>, s: Sys)
    requires Begin(env.suite.sha, written.Normalized(), ctx, req, receivedAt) == Asking(wire)
    requires Passes(env, wire, now)
    ensures Play(env, events) == Some(s) && 1 !in s.ver.calls
    ensures PastCheck(s, Session(written.Normalized(), ctx, req, Some(wire), None), V.Prefix(env, wire, now).claims)
  {
    events, s := Arrived(env, written, ctx, req, receivedAt, wire);
    events, s := DeliveredAndChecked(env, events, s, 0, 0, now);
  }

  /** The request passes its check, and then its agent is revoked. */
  lemma CheckedThenRevoked(
    env: Env, written: Config, ctx: RequestContext, req: EgressRequest, receivedAt: int,
    wire: AuthorizeRequest, now: Millis) returns (events: seq<Event>, s: Sys)
    requires Begin(env.suite.sha, written.Normalized(), ctx, req, receivedAt) == Asking(wire)
    requires Passes(env, wire, now)
    ensures Play(env, events) == Some(s)
    ensures var claims := V.Prefix(env, wire, now).claims;
            && PastCheck(s, Session(written.Normalized(), ctx, req, Some(wire), None), claims)
            && claims.agentId in s.ver.shared.revoked
  {
    events, s := Checked(env, written, ctx, req, receivedAt, wire, now);
    events, s := RevokedMidway(env, events, s, 1, V.Prefix(env, wire, now).claims.agentId);
  }

  lemma AllowedEgresses(s: Sys, x: Session, claims: Claims)
    requires x.wire.Some? && x.cfg.mode.Enforce? && x.cfg.fail.Closed?
    requires 0 in s.sessions && s.sessions[0] == Concluded(x, Verdict(V.Allowed(claims)))
    ensures Egressed(s, 0) && s.sessions[0].ctx == x.ctx && s.sessions[0].req == x.req
  {
  }

  /**
   A request already past its check is not caught: a run in which the agent is revoked first and
   the request egresses afterwards.
   */
  lemma InFlightStillEgresses(
    env: Env, claims: Claims, written: Config, ctx: RequestContext, req: EgressRequest, receivedAt: int, now: Millis)
    returns (events: seq<Event>, n: nat, s: Sys)
    requires env.suite.CodecLaw() && written.mode.Enforce? && written.fail.Closed?
    requires Presents(written, req, Mint(env.suite, claims, env.key))
    requires Authorizes(env, claims, ctx, req) && now <= claims.expUnixMs
    ensures n <= |events| && Play(env, events[..n]).Some?
    ensures ctx.agentId in Play(env, events[..n]).value.ver.shared.revoked
    ensures var early := Play(env, events[..n]).value; 0 in early.sessions && early.sessions[0].result.None?
    ensures Play(env, events) == Some(s)
    ensures Egressed(s, 0) && s.sessions[0].ctx == ctx && s.sessions[0].req == req
  {
    var wire := HonestGrantPasses(env, claims, written, ctx, req, receivedAt, now);
    assert claims.agentId == ctx.agentId;
    events, s := CheckedThenRevoked(env, written, ctx, req, receivedAt, wire, now);
    n := |events|;
    var before := events;
    events, s := FinishedAndAnswered(env, events, s, claims);
    assert events[..n] == before;
    AllowedEgresses(s, Session(written.Normalized(), ctx, req, Some(wire), None), claims);
  }
}
