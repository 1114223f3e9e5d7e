/**
 Any number of middlewares sharing one verifier over a lossy network. A request may be
 delivered late, more than once or never; an answer may be lost after the verifier has
 committed; the middleware may give up at any time. Other clients may call the verifier too.
 */
module Protocol {
  import opened ByteStrings
  import opened Wire
  import opened Middleware
  import opened Concurrent
  import opened Headers
  import V = Verifier

  type Env = V.Env

  /** One evaluated request: the wire request, if one was sent, and the result, once there is one. */
  datatype Session = Session(
    cfg: Config,
    ctx: RequestContext,
    req: EgressRequest,
    wire: Option<AuthorizeRequest>,
    result: Option<(EgressDecision, AuditEvent)>)

  /** `owner` tells which session's request each call of the verifier serves. */
  datatype Sys = Sys(ver: Conf, sessions: map<nat, Session>, owner: map<nat, nat>)

  const START := Sys(INITIAL, map[], map[])

  datatype Event =
    | Arrive(sid: nat, written: Config, ctx: RequestContext, req: EgressRequest, receivedAt: int)
    | Deliver(sid: nat, cid: nat)
    | Work(step: Step)
    | Reply(sid: nat, cid: nat)
    | GiveUp(sid: nat, outcome: VerifierOutcome)

  predicate IsWaiting(s: Sys, sid: nat) {
    sid in s.sessions && s.sessions[sid].wire.Some? && s.sessions[sid].result.None?
  }

  predicate CanHappen(s: Sys, e: Event) {
    match e
    case Arrive(sid, _, _, _, _) => sid !in s.sessions
    case Deliver(sid, cid) => sid in s.sessions && s.sessions[sid].wire.Some? && cid !in s.ver.calls
    case Work(step) => Enabled(s.ver, step)
    case Reply(sid, cid) =>
      && IsWaiting(s, sid)
      && cid in s.owner && s.owner[cid] == sid
      && cid in s.ver.calls && HasResponse(s.ver.calls[cid])
    case GiveUp(sid, outcome) => IsWaiting(s, sid) && !outcome.Verdict?
  }

  /** The middleware is built from the configuration as written and evaluates the request. */
  function Opened(env: Env, written: Config, ctx: RequestContext, req: EgressRequest, receivedAt: int): Session {
    var cfg := written.Normalized();
    match Begin(env.suite.sha, cfg, ctx, req, receivedAt)
    case Refused(code) =>
      Session(cfg, ctx, req, None, Some(Resolve(cfg, InitialAudit(cfg, ctx, req), LocalDeny(code))))
    case Asking(wire) => Session(cfg, ctx, req, Some(wire), None)
  }

  function Concluded(x: Session, outcome: VerifierOutcome): Session
    requires x.wire.Some?
  {
    x.(result := Some(Resolve(x.cfg, AskingAudit(x.cfg, x.ctx, x.req, x.wire.value), FindingOf(outcome))))
  }

  function StepOf(s: Sys, e: Event): Option<Step>
    requires CanHappen(s, e)
  {
    match e
    case Deliver(sid, cid) => Some(Invoke(cid, AuthorizeOp(s.sessions[sid].wire.value)))
    case Work(step) => Some(step)
    case _ => None
  }

  ghost function Happen(env: Env, s: Sys, e: Event): Sys
    requires CanHappen(s, e)
  {
    var ver := if StepOf(s, e).Some? then Next(env, s.ver, StepOf(s, e).value) else s.ver;
    match e
    case Arrive(sid, written, ctx, req, receivedAt) =>
      s.(sessions := s.sessions[sid := Opened(env, written, ctx, req, receivedAt)])
    case Deliver(sid, cid) => s.(ver := ver, owner := s.owner[cid := sid])
    case Work(_) => s.(ver := ver)
    case Reply(sid, cid) =>
      var outcome := Verdict(s.ver.calls[cid].pc.answer.response);
      s.(sessions := s.sessions[sid := Concluded(s.sessions[sid], outcome)])
    case GiveUp(sid, outcome) =>
      s.(sessions := s.sessions[sid := Concluded(s.sessions[sid], outcome)])
  }

  ghost function Play(env: Env, events: seq<Event>): Option<Sys> {
    if events == [] then Some(START)
    else
      var last := |events| - 1;
      match Play(env, events[..last])
      case None => None
      case Some(s) => if CanHappen(s, events[last]) then Some(Happen(env, s, events[last])) else None
  }

  /** A session ends as the middleware's evaluation does on the outcome that reached it. */
  lemma SessionIsEvaluation(
    env: Env, written: Config, ctx: RequestContext, req: EgressRequest, receivedAt: int, outcome: VerifierOutcome)
    ensures var x := Opened(env, written, ctx, req, receivedAt);
            var end := if x.wire.Some? then Concluded(x, outcome) else x;
            end.result ==
            Some(Evaluation(env.suite.sha, written.Normalized(), ctx, req, receivedAt,
                            (_: AuthorizeRequest) => outcome))
  {
  }

  // ---- Invariants ----------------------------------------------------------------------

  /** Each served call runs the wire request of its session. */
  ghost predicate OwnerInv(s: Sys) {
    forall cid | cid in s.owner ::
      && cid in s.ver.calls
      && s.owner[cid] in s.sessions
      && s.sessions[s.owner[cid]].wire.Some?
      && s.ver.calls[cid].op == AuthorizeOp(s.sessions[s.owner[cid]].wire.value)
  }

  ghost predicate AnsweredBy(s: Sys, sid: nat, response: AuthorizeResponse) {
    exists cid | cid in s.owner && cid in s.ver.calls ::
      s.owner[cid] == sid && HasResponse(s.ver.calls[cid]) && s.ver.calls[cid].pc.answer.response == response
  }

  ghost predicate Sent(env: Env, x: Session, token: Bytes, receivedAt: int) {
    && x.wire == Some(WireRequest(env.suite.sha, x.cfg, x.ctx, x.req, token, receivedAt))
    && Begin(env.suite.sha, x.cfg, x.ctx, x.req, receivedAt) == Asking(x.wire.value)
  }

  predicate RefusedAs(x: Session, code: Reason) {
    x.result == Some(Resolve(x.cfg, InitialAudit(x.cfg, x.ctx, x.req), LocalDeny(code)))
  }

  /** How a session stands: refused at once, still waiting, or concluded by an outcome that is explained. */
  ghost predicate SessionInv(env: Env, s: Sys, sid: nat)
    requires sid in s.sessions
  {
    var x := s.sessions[sid];
    && (x.wire.Some? ==> exists token, receivedAt :: Sent(env, x, token, receivedAt))
    && (x.wire.None? ==> exists code :: RefusedAs(x, code))
    && (x.wire.Some? && x.result.Some? ==> exists outcome ::
          && x == Concluded(x, outcome)
          && (outcome.Verdict? ==> AnsweredBy(s, sid, outcome.response)))
  }

  ghost predicate SysInv(env: Env, s: Sys) {
    && Inv(env, s.ver)
    && OwnerInv(s)
    && forall sid | sid in s.sessions :: SessionInv(env, s, sid)
  }

  /** Answered calls keep their operation and answer. */
  predicate AnswersKept(a: Conf, b: Conf) {
    forall cid | cid in a.calls ::
      && cid in b.calls
      && a.calls[cid].op == b.calls[cid].op
      && (a.calls[cid].pc.Done? ==> b.calls[cid] == a.calls[cid])
  }

  lemma StepKeepsAnswers(env: Env, c: Conf, step: Step)
    requires Enabled(c, step)
    ensures AnswersKept(c, Next(env, c, step))
  {
  }

  predicate OwnersKept(s: Sys, t: Sys) {
    forall cid | cid in s.owner :: cid in t.owner && t.owner[cid] == s.owner[cid]
  }

  /** Sessions keep their wire request, and finished ones keep everything. */
  predicate SessionsStay(s: Sys, t: Sys) {
    forall sid | sid in s.sessions ::
      && sid in t.sessions
      && t.sessions[sid].wire == s.sessions[sid].wire
      && (s.sessions[sid].result.Some? ==> t.sessions[sid] == s.sessions[sid])
  }

  lemma VerifierKept(env: Env, s: Sys, e: Event)
    requires Inv(env, s.ver) && CanHappen(s, e)
    ensures Inv(env, Happen(env, s, e).ver)
    ensures AnswersKept(s.ver, Happen(env, s, e).ver)
  {
    if StepOf(s, e).Some? {
      StepKeepsAnswers(env, s.ver, StepOf(s, e).value);
      InvKept(env, s.ver, StepOf(s, e).value);
      assert Happen(env, s, e).ver == Next(env, s.ver, StepOf(s, e).value);
    }
  }

  lemma SessionsStayOn(env: Env, s: Sys, e: Event)
    requires OwnerInv(s) && CanHappen(s, e)
    ensures OwnersKept(s, Happen(env, s, e)) && SessionsStay(s, Happen(env, s, e))
  {
  }

  /** What every event leaves alone. */
  lemma EventKeeps(env: Env, s: Sys, e: Event)
    requires SysInv(env, s) && CanHappen(s, e)
    ensures Inv(env, Happen(env, s, e).ver) && AnswersKept(s.ver, Happen(env, s, e).ver)
    ensures OwnersKept(s, Happen(env, s, e)) && SessionsStay(s, Happen(env, s, e))
  {
    VerifierKept(env, s, e);
    SessionsStayOn(env, s, e);
  }

  lemma OwnerKept(env: Env, s: Sys, e: Event)
    requires SysInv(env, s) && CanHappen(s, e)
    ensures OwnerInv(Happen(env, s, e))
  {
    EventKeeps(env, s, e);
  }

  lemma OpenedInv(
    env: Env, s: Sys, sid: nat, written: Config, ctx: RequestContext, req: EgressRequest, receivedAt: int)
    requires sid in s.sessions && s.sessions[sid] == Opened(env, written, ctx, req, receivedAt)
    ensures SessionInv(env, s, sid)
  {
    var x, cfg := s.sessions[sid], written.Normalized();
    match Begin(env.suite.sha, cfg, ctx, req, receivedAt)
    case Refused(code) => assert RefusedAs(x, code);
    case Asking(_) => assert Sent(env, x, LookupOf(Matches(req.headers, cfg.tokenHeader)).value, receivedAt);
  }

  lemma ConcludedInv(env: Env, s: Sys, t: Sys, sid: nat, outcome: VerifierOutcome)
    requires sid in s.sessions && SessionInv(env, s, sid) && s.sessions[sid].wire.Some?
    requires sid in t.sessions && t.sessions[sid] == Concluded(s.sessions[sid], outcome)
    requires outcome.Verdict? ==> AnsweredBy(t, sid, outcome.response)
    ensures SessionInv(env, t, sid)
  {
    var token, receivedAt :| Sent(env, s.sessions[sid], token, receivedAt);
    assert Sent(env, t.sessions[sid], token, receivedAt);
    assert t.sessions[sid] == Concluded(t.sessions[sid], outcome);
  }

  lemma UntouchedInv(env: Env, s: Sys, t: Sys, sid: nat)
    requires sid in s.sessions && SessionInv(env, s, sid)
    requires sid in t.sessions && t.sessions[sid] == s.sessions[sid]
    requires AnswersKept(s.ver, t.ver)
    requires OwnersKept(s, t)
    ensures SessionInv(env, t, sid)
  {
  }

  /** The event is one of this session's own. */
  predicate Touches(e: Event, sid: nat) {
    (e.Arrive? || e.Reply? || e.GiveUp?) && e.sid == sid
  }

  lemma TouchedInv(env: Env, s: Sys, e: Event, sid: nat)
    requires SysInv(env, s) && CanHappen(s, e) && Touches(e, sid)
    ensures SessionInv(env, Happen(env, s, e), sid)
  {
    var t := Happen(env, s, e);
    match e
    case Arrive(_, written, ctx, req, receivedAt) => OpenedInv(env, t, sid, written, ctx, req, receivedAt);
    case Reply(_, cid) => ConcludedInv(env, s, t, sid, Verdict(s.ver.calls[cid].pc.answer.response));
    case GiveUp(_, outcome) => ConcludedInv(env, s, t, sid, outcome);
  }

  lemma UntouchedStays(env: Env, s: Sys, e: Event, sid: nat)
    requires CanHappen(s, e) && !Touches(e, sid) && sid in Happen(env, s, e).sessions
    ensures sid in s.sessions && Happen(env, s, e).sessions[sid] == s.sessions[sid]
  {
  }

  lemma SessionsKept(env: Env, s: Sys, e: Event, sid: nat)
    requires SysInv(env, s) && CanHappen(s, e) && sid in Happen(env, s, e).sessions
    ensures SessionInv(env, Happen(env, s, e), sid)
  {
    if Touches(e, sid) {
      TouchedInv(env, s, e, sid);
    } else {
      UntouchedStays(env, s, e, sid);
      EventKeeps(env, s, e);
      UntouchedInv(env, s, Happen(env, s, e), sid);
    }
  }

  lemma SysInvKept(env: Env, s: Sys, e: Event)
    requires SysInv(env, s) && CanHappen(s, e)
    ensures SysInv(env, Happen(env, s, e))
  {
    EventKeeps(env, s, e);
    OwnerKept(env, s, e);
    forall sid | sid in Happen(env, s, e).sessions
      ensures SessionInv(env, Happen(env, s, e), sid)
    {
      SessionsKept(env, s, e, sid);
    }
  }

  lemma {:induction false} PlayInv(env: Env, events: seq<Event>)
    requires Play(env, events).Some?
    ensures SysInv(env, Play(env, events).value)
  {
    if events != [] {
      var last := |events| - 1;
      PlayInv(env, events[..last]);
      SysInvKept(env, Play(env, events[..last]).value, events[last]);
    }
  }

  /** The verifier's part of a run is a run of the concurrent verifier. */
  lemma {:induction false} VerifierRun(env: Env, events: seq<Event>) returns (steps: seq<Step>)
    requires Play(env, events).Some?
    ensures Exec(env, steps) == Some(Play(env, events).value.ver)
  {
    if events == [] {
      steps := [];
    } else {
      var last := |events| - 1;
      var s := Play(env, events[..last]).value;
      steps := VerifierRun(env, events[..last]);
      if StepOf(s, events[last]).Some? {
        var step := StepOf(s, events[last]).value;
        assert (steps + [step])[..|steps|] == steps;
        steps := steps + [step];
      }
    }
  }

  /** Finished sessions and answered calls stay as they are in every continuation. */
  lemma {:induction false} PlayGrows(env: Env, events: seq<Event>, n: nat)
    requires n <= |events| && Play(env, events).Some?
    ensures Play(env, events[..n]).Some?
    ensures var s, t := Play(env, events[..n]).value, Play(env, events).value;
            AnswersKept(s.ver, t.ver) && OwnersKept(s, t) && SessionsStay(s, t)
  {
    if n == |events| {
      assert events[..n] == events;
    } else {
      var last := |events| - 1;
      PlayGrows(env, events[..last], n);
      assert events[..last][..n] == events[..n];
      PlayInv(env, events[..last]);
      EventKeeps(env, Play(env, events[..last]).value, events[last]);
    }
  }
}
