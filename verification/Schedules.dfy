/** Building runs of the concurrent verifier step by step. */
module Schedules {
  import opened ByteStrings
  import opened Wire
  import opened Token
  import opened Verifier
  import opened Concurrent

  /** The request gets through steps 1 to 8 at this clock reading, if its agent is not revoked. */
  ghost predicate Passes(env: Env, req: AuthorizeRequest, now: Millis) {
    Prefix(env, req, now).Proceed? && Middle(req, Prefix(env, req, now).claims) == None
  }

  ghost predicate Reaches(env: Env, steps: seq<Step>, c: Conf) {
    Exec(env, steps) == Some(c)
  }

  lemma OneStep(env: Env, steps: seq<Step>, c: Conf, s: Step) returns (more: seq<Step>, next: Conf)
    requires Reaches(env, steps, c) && Enabled(c, s)
    ensures more == steps + [s] && Reaches(env, more, next)
    ensures next.shared == NextShared(c, s) && next.time == c.time + 1
    ensures next.calls == c.calls[s.id := NextCall(env, c, s)]
  {
    more, next := steps + [s], Next(env, c, s);
    assert more[..|steps|] == steps;
  }

  lemma Revoke(env: Env, steps: seq<Step>, c: Conf, id: nat, agentId: Bytes) returns (more: seq<Step>, next: Conf)
    requires Reaches(env, steps, c) && id !in c.calls
    ensures Reaches(env, more, next)
    ensures next.shared == c.shared.(revoked := c.shared.revoked + {agentId}) && next.time == c.time + 2
    ensures next.calls ==
            c.calls[id := Call(RevokeOp(agentId), c.time, 0, c.time + 1, Done(Acknowledged, c.time + 1))]
  {
    more, next := OneStep(env, steps, c, Invoke(id, RevokeOp(agentId)));
    more, next := OneStep(env, more, next, RunRevoke(id));
  }

  lemma EnterAndPrefix(env: Env, steps: seq<Step>, c: Conf, id: nat, req: AuthorizeRequest, now: Millis)
    returns (more: seq<Step>, next: Conf)
    requires Reaches(env, steps, c) && id !in c.calls && Prefix(env, req, now).Proceed?
    ensures Reaches(env, more, next)
    ensures next.shared == c.shared && next.time == c.time + 2
    ensures next.calls == c.calls[id := Call(AuthorizeOp(req), c.time, now, c.time + 1,
                                             AtCheck(Prefix(env, req, now).claims))]
  {
    more, next := OneStep(env, steps, c, Invoke(id, AuthorizeOp(req)));
    more, next := OneStep(env, more, next, RunPrefix(id, now));
  }

  /** A passing call enters and gets through its revocation check. */
  lemma EnterAndCheck(env: Env, steps: seq<Step>, c: Conf, id: nat, req: AuthorizeRequest, now: Millis)
    returns (more: seq<Step>, next: Conf)
    requires Reaches(env, steps, c) && id !in c.calls && Prefix(env, req, now).Proceed?
    requires Prefix(env, req, now).claims.agentId !in c.shared.revoked
    ensures Reaches(env, more, next)
    ensures next.shared == c.shared && next.time == c.time + 3
    ensures next.calls == c.calls[id := Call(AuthorizeOp(req), c.time, now, c.time + 2,
                                             AtMiddle(Prefix(env, req, now).claims))]
  {
    more, next := EnterAndPrefix(env, steps, c, id, req, now);
    more, next := OneStep(env, more, next, RunCheck(id));
  }

  /** From its revocation check on, a passing call is decided by its `jti` alone. */
  lemma Finish(env: Env, steps: seq<Step>, c: Conf, id: nat) returns (more: seq<Step>, next: Conf)
    requires Reaches(env, steps, c) && id in c.calls
    requires c.calls[id].op.AuthorizeOp? && c.calls[id].pc.AtMiddle?
    requires Middle(c.calls[id].op.req, c.calls[id].pc.claims) == None
    ensures Reaches(env, more, next)
    ensures var claims := c.calls[id].pc.claims;
            var response := if claims.jti in c.shared.seen then Denied(TOKEN_REPLAYED) else Allowed(claims);
            && next.shared == c.shared.(seen := c.shared.seen + {claims.jti}) && next.time == c.time + 2
            && next.calls == c.calls[id := Deliver(c.calls[id], response, c.time + 1)]
  {
    more, next := OneStep(env, steps, c, RunMiddle(id));
    more, next := OneStep(env, more, next, RunInsert(id));
  }

  /** The call `id` now is `k`; every other call is as before. */
  predicate OnlyCall(before: map<nat, Call>, after: map<nat, Call>, id: nat, k: Call) {
    && after.Keys == before.Keys + {id}
    && after[id] == k
    && forall other | other in before && other != id :: after[other] == before[other]
  }

  /** A passing call with a fresh `jti` that runs without interruption is allowed. */
  lemma RunAllowed(env: Env, before: seq<Step>, c: Conf, id: nat, req: AuthorizeRequest, now: Millis)
    returns (steps: seq<Step>, next: Conf)
    requires Passes(env, req, now) && Reaches(env, before, c) && id !in c.calls
    requires Prefix(env, req, now).claims.agentId !in c.shared.revoked
    requires Prefix(env, req, now).claims.jti !in c.shared.seen
    ensures Reaches(env, steps, next)
    ensures var claims := Prefix(env, req, now).claims;
            && next.shared == c.shared.(seen := c.shared.seen + {claims.jti}) && next.time == c.time + 5
            && OnlyCall(c.calls, next.calls, id,
                        Call(AuthorizeOp(req), c.time, now, c.time + 2, Done(Answered(Allowed(claims)), c.time + 4)))
  {
    var checked: Conf;
    steps, checked := EnterAndCheck(env, before, c, id, req, now);
    steps, next := Finish(env, steps, checked, id);
  }

  // ---- No call waits for another ------------------------------------------------------------

  /** The call's next step; the clock reading counts only for the first. */
  function NextStep(id: nat, k: Call, now: Millis): Step
    requires !k.pc.Done?
  {
    if k.op.RevokeOp? then RunRevoke(id)
    else
      match k.pc
      case Entered => RunPrefix(id, now)
      case AtCheck(_) => RunCheck(id)
      case AtMiddle(_) => RunMiddle(id)
      case AtInsert(_) => RunInsert(id)
  }

  function StepsLeft(pc: Pc): nat {
    match pc
    case Entered => 4
    case AtCheck(_) => 3
    case AtMiddle(_) => 2
    case AtInsert(_) => 1
    case Done(_, _) => 0
  }

  /** Whatever the other calls are doing, an unfinished call can take its next step towards its end. */
  lemma CanStep(env: Env, c: Conf, id: nat, now: Millis)
    requires id in c.calls && !c.calls[id].pc.Done?
    requires c.calls[id].op.RevokeOp? ==> c.calls[id].pc.Entered?
    ensures var s := NextStep(id, c.calls[id], now);
            Enabled(c, s) && StepsLeft(NextCall(env, c, s).pc) < StepsLeft(c.calls[id].pc)
  {
    match c.calls[id].op
    case RevokeOp(_) =>
    case AuthorizeOp(_) =>
      match c.calls[id].pc
      case Entered =>
      case AtCheck(_) =>
      case AtMiddle(_) =>
      case AtInsert(_) =>
  }

  lemma RevocationIsOneStep(env: Env, c: Conf, id: nat)
    requires Inv(env, c) && id in c.calls && !c.calls[id].pc.Done?
    ensures c.calls[id].op.RevokeOp? ==> c.calls[id].pc.Entered?
  {
    assert CallInv(env, c.calls, c.time, c.calls[id]);
  }

  lemma StepAlone(env: Env, steps: seq<Step>, c: Conf, id: nat, now: Millis) returns (s: Step, next: Conf)
    requires Reaches(env, steps, c) && id in c.calls && !c.calls[id].pc.Done?
    ensures s.id == id && Reaches(env, steps + [s], next)
    ensures id in next.calls && StepsLeft(next.calls[id].pc) < StepsLeft(c.calls[id].pc)
  {
    RunInv(env, steps);
    RevocationIsOneStep(env, c, id);
    CanStep(env, c, id, now);
    s := NextStep(id, c.calls[id], now);
    var more: seq<Step>;
    more, next := OneStep(env, steps, c, s);
  }

  predicate Own(steps: seq<Step>, id: nat) {
    forall s | s in steps :: s.id == id
  }

  lemma Regroup(env: Env, steps: seq<Step>, s: Step, own: seq<Step>, end: Conf)
    requires Reaches(env, steps + [s] + own, end)
    ensures Reaches(env, steps + ([s] + own), end)
  {
    assert steps + ([s] + own) == steps + [s] + own;
  }

  lemma NothingMore(env: Env, steps: seq<Step>, c: Conf)
    requires Reaches(env, steps, c)
    ensures Reaches(env, steps + [], c)
  {
    assert steps + [] == steps;
  }

  /** No lock is held between steps: in every reachable configuration each call can finish on its own. */
  lemma {:induction false} WaitFree(env: Env, steps: seq<Step>, c: Conf, id: nat, now: Millis)
    returns (own: seq<Step>, end: Conf)
    requires Reaches(env, steps, c) && id in c.calls
    ensures Reaches(env, steps + own, end) && id in end.calls && end.calls[id].pc.Done?
    ensures |own| <= StepsLeft(c.calls[id].pc) && Own(own, id)
    decreases StepsLeft(c.calls[id].pc)
  {
    if c.calls[id].pc.Done? {
      own, end := [], c;
      NothingMore(env, steps, c);
    } else {
      var s, next := StepAlone(env, steps, c, id, now);
      own, end := WaitFree(env, steps + [s], next, id, now);
      Regroup(env, steps, s, own, end);
      own := [s] + own;
    }
  }
}
