/**
 A canary run: the same events with a choice of enforcing sessions switched to observe mode.
 The verifier behaves identically, each switched session predicts its enforcing twin, and every
 other session is untouched.
 */
module Canary {
  import opened Wire
  import opened Middleware
  import opened Protocol

  predicate Enforcing(cfg: Config) {
    cfg.mode.Enforce? && cfg.fail.Closed?
  }

  /** Each chosen session of an enforcing, fail-closed middleware is observed instead. */
  function Observed(chosen: set<nat>, e: Event): Event {
    if e.Arrive? && e.sid in chosen && Enforcing(e.written) then e.(written := Observing(e.written)) else e
  }

  function ObservedAll(chosen: set<nat>, events: seq<Event>): seq<Event> {
    seq(|events|, i requires 0 <= i < |events| => Observed(chosen, events[i]))
  }

  /** The observing session never blocks, and its audit line predicts the enforcing one. */
  predicate Predicts(observed: (EgressDecision, AuditEvent), enforced: (EgressDecision, AuditEvent)) {
    && observed.0.Continue?
    && observed.1 ==
       enforced.1.(decision := Allow, enforced := false, wouldDeny := enforced.0.Block?)
  }

  predicate Twin(observed: Session, enforced: Session) {
    && observed.cfg == Observing(enforced.cfg)
    && observed.ctx == enforced.ctx && observed.req == enforced.req && observed.wire == enforced.wire
    && (observed.result.Some? <==> enforced.result.Some?)
    && (enforced.result.Some? ==> Predicts(observed.result.value, enforced.result.value))
  }

  /** A chosen enforcing session has a predicting twin; every other session is the same in both. */
  predicate Paired(chosen: set<nat>, sid: nat, observed: Session, enforced: Session) {
    if sid in chosen && Enforcing(enforced.cfg) then Twin(observed, enforced) else observed == enforced
  }

  ghost predicate Twins(chosen: set<nat>, o: Sys, e: Sys) {
    && o.ver == e.ver
    && o.owner == e.owner
    && o.sessions.Keys == e.sessions.Keys
    && forall sid | sid in e.sessions :: Paired(chosen, sid, o.sessions[sid], e.sessions[sid])
  }

  lemma OpenedPaired(
    env: Env, chosen: set<nat>, sid: nat, written: Config, ctx: RequestContext, req: EgressRequest, receivedAt: int)
    ensures var seen := if sid in chosen && Enforcing(written) then Observing(written) else written;
            Paired(chosen, sid, Opened(env, seen, ctx, req, receivedAt), Opened(env, written, ctx, req, receivedAt))
  {
  }

  lemma ConcludedPaired(chosen: set<nat>, sid: nat, o: Session, e: Session, outcome: VerifierOutcome)
    requires Paired(chosen, sid, o, e) && e.wire.Some?
    ensures Paired(chosen, sid, Concluded(o, outcome), Concluded(e, outcome))
  {
  }

  lemma PairedCanHappen(chosen: set<nat>, o: Sys, s: Sys, e: Event)
    requires Twins(chosen, o, s) && CanHappen(s, e)
    ensures CanHappen(o, Observed(chosen, e)) && StepOf(o, Observed(chosen, e)) == StepOf(s, e)
  {
  }

  lemma ArriveTwins(
    env: Env, chosen: set<nat>, o: Sys, s: Sys,
    sid: nat, written: Config, ctx: RequestContext, req: EgressRequest, receivedAt: int)
    requires Twins(chosen, o, s) && sid !in s.sessions
    ensures var e := Arrive(sid, written, ctx, req, receivedAt);
            && CanHappen(o, Observed(chosen, e)) && CanHappen(s, e)
            && Twins(chosen, Happen(env, o, Observed(chosen, e)), Happen(env, s, e))
  {
    OpenedPaired(env, chosen, sid, written, ctx, req, receivedAt);
  }

  /** A session of both runs ends on the same outcome. */
  lemma ConcludeTwins(chosen: set<nat>, o: Sys, s: Sys, sid: nat, outcome: VerifierOutcome)
    requires Twins(chosen, o, s) && IsWaiting(s, sid)
    ensures IsWaiting(o, sid)
    ensures Twins(chosen, o.(sessions := o.sessions[sid := Concluded(o.sessions[sid], outcome)]),
                  s.(sessions := s.sessions[sid := Concluded(s.sessions[sid], outcome)]))
  {
    ConcludedPaired(chosen, sid, o.sessions[sid], s.sessions[sid], outcome);
  }

  /** What the verifier does is the same in both runs. */
  lemma VerifierTwins(env: Env, chosen: set<nat>, o: Sys, s: Sys, e: Event)
    requires Twins(chosen, o, s) && CanHappen(s, e) && (e.Deliver? || e.Work?)
    ensures CanHappen(o, e) && Twins(chosen, Happen(env, o, e), Happen(env, s, e))
  {
    PairedCanHappen(chosen, o, s, e);
  }

  lemma HappenTwins(env: Env, chosen: set<nat>, o: Sys, s: Sys, e: Event)
    requires Twins(chosen, o, s) && CanHappen(s, e)
    ensures CanHappen(o, Observed(chosen, e))
    ensures Twins(chosen, Happen(env, o, Observed(chosen, e)), Happen(env, s, e))
  {
    match e
    case Arrive(sid, written, ctx, req, receivedAt) =>
      ArriveTwins(env, chosen, o, s, sid, written, ctx, req, receivedAt);
    case Reply(sid, cid) =>
      ConcludeTwins(chosen, o, s, sid, Verdict(s.ver.calls[cid].pc.answer.response));
    case GiveUp(sid, outcome) => ConcludeTwins(chosen, o, s, sid, outcome);
    case _ => VerifierTwins(env, chosen, o, s, e);
  }

  /**
   Over any run and any choice of sessions, observing the chosen enforcing ones changes nothing at
   the verifier and nothing in any other session, and predicts every enforcement of the chosen.
   */
  lemma {:induction false} CanaryPredicts(env: Env, chosen: set<nat>, events: seq<Event>)
    requires Play(env, events).Some?
    ensures Play(env, ObservedAll(chosen, events)).Some?
    ensures Twins(chosen, Play(env, ObservedAll(chosen, events)).value, Play(env, events).value)
  {
    if events != [] {
      var last := |events| - 1;
      var observed := ObservedAll(chosen, events[..last]);
      assert ObservedAll(chosen, events)[..last] == observed;
      CanaryPredicts(env, chosen, events[..last]);
      HappenTwins(env, chosen, Play(env, observed).value, Play(env, events[..last]).value, events[last]);
    }
  }
}
