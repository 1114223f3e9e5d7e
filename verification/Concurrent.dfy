/**
 The verifier under concurrency. Each call is a thread; its atomic steps are the pure prefix
 (one clock reading), the revocation check under the first lock, the pure middle, and the
 `jti` insertion under the second lock together with the answer. A revocation is one step.
 Steps of different calls interleave freely.
 */
module Concurrent {
  import opened ByteStrings
  import opened Wire
  import opened Token
  import opened Verifier

  datatype Op = AuthorizeOp(req: AuthorizeRequest) | RevokeOp(agentId: Bytes)

  datatype Answer = Answered(response: AuthorizeResponse) | Acknowledged

  /** The program counter, with the local `claims`; a finished call keeps its answer and time. */
  datatype Pc =
    | Entered
    | AtCheck(claims: Claims)
    | AtMiddle(claims: Claims)
    | AtInsert(claims: Claims)
    | Done(answer: Answer, at: nat)

  /**
   `inv` is the time of invocation, `clock` the clock reading of the prefix, and `mark` the
   time of the latest of the prefix, the revocation check and the revocation.
   */
  datatype Call = Call(op: Op, inv: nat, clock: Millis, mark: nat, pc: Pc)

  datatype Conf = Conf(shared: Shared, time: nat, calls: map<nat, Call>)

  const INITIAL := Conf(Shared({}, {}), 0, map[])

  datatype Step =
    | Invoke(id: nat, op: Op)
    | RunPrefix(id: nat, now: Millis)
    | RunCheck(id: nat)
    | RunMiddle(id: nat)
    | RunInsert(id: nat)
    | RunRevoke(id: nat)

  predicate Enabled(c: Conf, s: Step) {
    if s.Invoke? then s.id !in c.calls
    else
      && s.id in c.calls
      && var k := c.calls[s.id];
         match s
         case RunPrefix(_, _) => k.op.AuthorizeOp? && k.pc.Entered?
         case RunCheck(_) => k.op.AuthorizeOp? && k.pc.AtCheck?
         case RunMiddle(_) => k.op.AuthorizeOp? && k.pc.AtMiddle?
         case RunInsert(_) => k.op.AuthorizeOp? && k.pc.AtInsert?
         case RunRevoke(_) => k.op.RevokeOp? && k.pc.Entered?
  }

  function Deliver(k: Call, response: AuthorizeResponse, time: nat): Call {
    k.(pc := Done(Answered(response), time))
  }

  /** The acting call after its step. */
  ghost function NextCall(env: Env, c: Conf, s: Step): Call
    requires Enabled(c, s)
  {
    match s
    case Invoke(_, op) => Call(op, c.time, 0, c.time, Entered)
    case RunPrefix(id, now) =>
      var k := c.calls[id].(clock := now, mark := c.time);
      (match Prefix(env, k.op.req, now)
       case Stop(response) => Deliver(k, response, c.time)
       case Proceed(claims) => k.(pc := AtCheck(claims)))
    case RunCheck(id) =>
      var k := c.calls[id].(mark := c.time);
      var claims := k.pc.claims;
      if claims.agentId in c.shared.revoked then Deliver(k, Denied(AGENT_REVOKED), c.time)
      else k.(pc := AtMiddle(claims))
    case RunMiddle(id) =>
      var k := c.calls[id];
      var claims := k.pc.claims;
      (match Middle(k.op.req, claims)
       case Some(response) => Deliver(k, response, c.time)
       case None => k.(pc := AtInsert(claims)))
    case RunInsert(id) =>
      var k := c.calls[id];
      var claims := k.pc.claims;
      if claims.jti in c.shared.seen then Deliver(k, Denied(TOKEN_REPLAYED), c.time)
      else Deliver(k, Allowed(claims), c.time)
    case RunRevoke(id) =>
      c.calls[id].(mark := c.time, pc := Done(Acknowledged, c.time))
  }

  /** The shared state after a step: only the insertion and the revocation write. */
  function NextShared(c: Conf, s: Step): Shared
    requires Enabled(c, s)
  {
    match s
    case RunInsert(id) => c.shared.(seen := c.shared.seen + {c.calls[id].pc.claims.jti})
    case RunRevoke(id) => c.shared.(revoked := c.shared.revoked + {c.calls[id].op.agentId})
    case _ => c.shared
  }

  ghost function Next(env: Env, c: Conf, s: Step): Conf
    requires Enabled(c, s)
  {
    Conf(NextShared(c, s), c.time + 1, c.calls[s.id := NextCall(env, c, s)])
  }

  /** The configuration after a run, if every step was enabled. */
  ghost function Exec(env: Env, steps: seq<Step>): Option<Conf> {
    if steps == [] then Some(INITIAL)
    else
      var last := |steps| - 1;
      match Exec(env, steps[..last])
      case None => None
      case Some(c) => if Enabled(c, steps[last]) then Some(Next(env, c, steps[last])) else None
  }

  // ---- The invariant of every run ---------------------------------------------------

  ghost function StageOf(env: Env, k: Call): Stage
    requires k.op.AuthorizeOp?
  {
    Prefix(env, k.op.req, k.clock)
  }

  predicate HasResponse(k: Call) {
    k.op.AuthorizeOp? && k.pc.Done? && k.pc.answer.Answered?
  }

  predicate IsAllow(k: Call) {
    HasResponse(k) && k.pc.answer.response.decision == Allow
  }

  predicate IsReplay(k: Call) {
    HasResponse(k) && k.pc.answer.response == Denied(TOKEN_REPLAYED)
  }

  predicate IsRevocation(k: Call, agentId: Bytes) {
    k.op == RevokeOp(agentId) && k.pc.Done?
  }

  ghost predicate AllowsJti(env: Env, k: Call, jti: Bytes) {
    IsAllow(k) && StageOf(env, k).Proceed? && StageOf(env, k).claims.jti == jti
  }

  predicate RevokedBefore(calls: map<nat, Call>, agentId: Bytes, time: nat) {
    exists id | id in calls :: IsRevocation(calls[id], agentId) && calls[id].mark < time
  }

  ghost predicate AllowedBefore(env: Env, calls: map<nat, Call>, jti: Bytes, time: nat) {
    exists id | id in calls :: AllowsJti(env, calls[id], jti) && calls[id].pc.at < time
  }

  /** What a call knows at each program counter. */
  ghost predicate CallInv(env: Env, calls: map<nat, Call>, time: nat, k: Call) {
    && k.inv <= k.mark < time
    && (!k.pc.Entered? ==> k.inv < k.mark)
    && (k.pc.Done? ==> k.mark <= k.pc.at < time)
    && match k.op
       case RevokeOp(_) => k.pc.Entered? || (k.pc.Done? && k.pc.answer.Acknowledged? && k.pc.at == k.mark)
       case AuthorizeOp(req) =>
         match k.pc
         case Entered => true
         case AtCheck(claims) => StageOf(env, k) == Proceed(claims)
         case AtMiddle(claims) =>
           && StageOf(env, k) == Proceed(claims)
           && !RevokedBefore(calls, claims.agentId, k.mark)
         case AtInsert(claims) =>
           && StageOf(env, k) == Proceed(claims)
           && !RevokedBefore(calls, claims.agentId, k.mark)
           && Middle(req, claims) == None
         case Done(answer, at) => answer.Answered? && Settled(env, calls, k, answer.response)
  }

  /** The answer of a finished call, explained by what happened before its mark and its end. */
  ghost predicate Settled(env: Env, calls: map<nat, Call>, k: Call, response: AuthorizeResponse)
    requires k.op.AuthorizeOp? && k.pc.Done?
  {
    match StageOf(env, k)
    case Stop(r) => response == r
    case Proceed(claims) =>
      if RevokedBefore(calls, claims.agentId, k.mark) then response == Denied(AGENT_REVOKED)
      else if Middle(k.op.req, claims).Some? then response == Middle(k.op.req, claims).value
      else
        || response == Allowed(claims)
        || (response == Denied(TOKEN_REPLAYED) && AllowedBefore(env, calls, claims.jti, k.pc.at))
  }

  ghost predicate CallsInv(env: Env, c: Conf) {
    forall id | id in c.calls :: CallInv(env, c.calls, c.time, c.calls[id])
  }

  /** The revoked agents are those of the finished revocations. */
  ghost predicate RevokedInv(c: Conf) {
    forall a :: a in c.shared.revoked <==> exists id | id in c.calls :: IsRevocation(c.calls[id], a)
  }

  /** Some call is allowed with this `jti`. */
  ghost predicate SomeAllows(env: Env, calls: map<nat, Call>, jti: Bytes) {
    exists id | id in calls :: AllowsJti(env, calls[id], jti)
  }

  /** The consumed `jti`s are those of the allowed calls. */
  ghost predicate SeenInv(env: Env, c: Conf) {
    forall j :: j in c.shared.seen <==> SomeAllows(env, c.calls, j)
  }

  /** No `jti` is allowed twice. */
  ghost predicate UniqueInv(env: Env, c: Conf) {
    forall a, b, j | a in c.calls && b in c.calls ::
      AllowsJti(env, c.calls[a], j) && AllowsJti(env, c.calls[b], j) ==> a == b
  }

  /** Marks are distinct times. */
  ghost predicate MarkInv(c: Conf) {
    forall a, b | a in c.calls && b in c.calls ::
      !c.calls[a].pc.Entered? && !c.calls[b].pc.Entered? && c.calls[a].mark == c.calls[b].mark ==> a == b
  }

  ghost predicate Inv(env: Env, c: Conf) {
    CallsInv(env, c) && RevokedInv(c) && SeenInv(env, c) && UniqueInv(env, c) && MarkInv(c)
  }

  // ---- Every step keeps the invariant ------------------------------------------------

  lemma OthersKept(env: Env, c: Conf, s: Step, id: nat)
    requires CallsInv(env, c) && Enabled(c, s) && id in c.calls && id != s.id
    ensures CallInv(env, Next(env, c, s).calls, c.time + 1, c.calls[id])
  {
    var c' := Next(env, c, s);
    var k := c.calls[id];
    RevocationsFrozen(env, c, s, k.mark);
    if k.op.AuthorizeOp? && k.pc.Done? && StageOf(env, k).Proceed? {
      AllowsPersist(env, c, s, StageOf(env, k).claims.jti, k.pc.at);
    }
  }

  /** No later step changes who was revoked before a past time. */
  lemma RevocationsFrozen(env: Env, c: Conf, s: Step, time: nat)
    requires CallsInv(env, c) && Enabled(c, s) && time <= c.time
    ensures forall a :: RevokedBefore(c.calls, a, time) <==> RevokedBefore(Next(env, c, s).calls, a, time)
  {
    var c' := Next(env, c, s);
    forall a
      ensures RevokedBefore(c.calls, a, time) <==> RevokedBefore(c'.calls, a, time)
    {
      if RevokedBefore(c.calls, a, time) {
        var id :| id in c.calls && IsRevocation(c.calls[id], a) && c.calls[id].mark < time;
        assert c'.calls[id] == c.calls[id];
      }
      if RevokedBefore(c'.calls, a, time) {
        var id :| id in c'.calls && IsRevocation(c'.calls[id], a) && c'.calls[id].mark < time;
        assert id != s.id;
        assert c'.calls[id] == c.calls[id];
      }
    }
  }

  lemma AllowsPersist(env: Env, c: Conf, s: Step, jti: Bytes, time: nat)
    requires Enabled(c, s)
    ensures AllowedBefore(env, c.calls, jti, time) ==> AllowedBefore(env, Next(env, c, s).calls, jti, time)
  {
    var c' := Next(env, c, s);
    if id :| id in c.calls && AllowsJti(env, c.calls[id], jti) && c.calls[id].pc.at < time {
      assert id in c'.calls && c'.calls[id] == c.calls[id];
    }
  }

  lemma RevokedNow(env: Env, c: Conf, agentId: Bytes)
    requires CallsInv(env, c) && RevokedInv(c)
    ensures agentId in c.shared.revoked <==> RevokedBefore(c.calls, agentId, c.time)
  {
  }

  lemma AllowedNow(env: Env, c: Conf, jti: Bytes)
    requires CallsInv(env, c) && SeenInv(env, c)
    ensures jti in c.shared.seen <==> AllowedBefore(env, c.calls, jti, c.time)
  {
  }

  lemma ActorKept(env: Env, c: Conf, s: Step)
    requires Inv(env, c) && Enabled(c, s)
    ensures CallInv(env, Next(env, c, s).calls, c.time + 1, NextCall(env, c, s))
  {
    var c' := Next(env, c, s);
    RevocationsFrozen(env, c, s, c.time);
    match s
    case Invoke(_, _) =>
    case RunPrefix(_, _) =>
    case RunCheck(id) =>
      RevokedNow(env, c, c.calls[id].pc.claims.agentId);
    case RunMiddle(id) =>
      RevocationsFrozen(env, c, s, c.calls[id].mark);
    case RunInsert(id) =>
      RevocationsFrozen(env, c, s, c.calls[id].mark);
      AllowedNow(env, c, c.calls[id].pc.claims.jti);
      AllowsPersist(env, c, s, c.calls[id].pc.claims.jti, c.time);
    case RunRevoke(_) =>
  }

  lemma CallsKept(env: Env, c: Conf, s: Step)
    requires Inv(env, c) && Enabled(c, s)
    ensures CallsInv(env, Next(env, c, s))
  {
    var c' := Next(env, c, s);
    ActorKept(env, c, s);
    forall id | id in c'.calls
      ensures CallInv(env, c'.calls, c'.time, c'.calls[id])
    {
      if id != s.id {
        OthersKept(env, c, s, id);
      }
    }
  }

  lemma RevokedKept(env: Env, c: Conf, s: Step)
    requires Inv(env, c) && Enabled(c, s)
    ensures RevokedInv(Next(env, c, s))
  {
    var c' := Next(env, c, s);
    forall a
      ensures a in c'.shared.revoked <==> exists id | id in c'.calls :: IsRevocation(c'.calls[id], a)
    {
      if a in c'.shared.revoked {
        if a in c.shared.revoked {
          var id :| id in c.calls && IsRevocation(c.calls[id], a);
          assert id in c'.calls && IsRevocation(c'.calls[id], a);
        } else {
          assert IsRevocation(c'.calls[s.id], a);
        }
      }
      if id :| id in c'.calls && IsRevocation(c'.calls[id], a) {
        if id != s.id {
          assert IsRevocation(c.calls[id], a);
        }
      }
    }
  }

  /** The pure parts of the cascade only ever deny. */
  lemma PrefixDenies(env: Env, req: AuthorizeRequest, now: Millis)
    ensures Prefix(env, req, now).Stop? ==> Prefix(env, req, now).response.decision == Deny
  {
  }

  lemma MiddleDenies(req: AuthorizeRequest, claims: Claims)
    ensures Middle(req, claims).Some? ==> Middle(req, claims).value.decision == Deny
  {
  }

  /** What the last step makes of the call. */
  lemma InsertAllows(env: Env, c: Conf, id: nat, jti: Bytes)
    requires CallsInv(env, c) && Enabled(c, RunInsert(id))
    ensures AllowsJti(env, NextCall(env, c, RunInsert(id)), jti) <==>
            jti == c.calls[id].pc.claims.jti && jti !in c.shared.seen
  {
    var k := c.calls[id];
    assert CallInv(env, c.calls, c.time, k);
    assert StageOf(env, k) == Proceed(k.pc.claims);
  }

  /** What the acting call becomes, if it becomes allowed. */
  lemma ActorAllows(env: Env, c: Conf, s: Step, jti: Bytes)
    requires Inv(env, c) && Enabled(c, s)
    ensures AllowsJti(env, NextCall(env, c, s), jti) <==>
            s.RunInsert? && jti == c.calls[s.id].pc.claims.jti && jti !in c.shared.seen
  {
    match s
    case RunPrefix(id, now) => PrefixDenies(env, c.calls[id].op.req, now);
    case RunMiddle(id) => MiddleDenies(c.calls[id].op.req, c.calls[id].pc.claims);
    case RunInsert(id) => InsertAllows(env, c, id, jti);
    case _ =>
  }

  /** Allowed calls are finished, so only the acting call can become one. */
  lemma AllowsNext(env: Env, c: Conf, s: Step, jti: Bytes)
    requires Enabled(c, s)
    ensures SomeAllows(env, Next(env, c, s).calls, jti) <==>
            SomeAllows(env, c.calls, jti) || AllowsJti(env, NextCall(env, c, s), jti)
  {
    var c' := Next(env, c, s);
    if id :| id in c.calls && AllowsJti(env, c.calls[id], jti) {
      assert id in c'.calls && c'.calls[id] == c.calls[id];
    }
    if id :| id in c'.calls && AllowsJti(env, c'.calls[id], jti) {
      assert id != s.id ==> c'.calls[id] == c.calls[id];
    }
    assert c'.calls[s.id] == NextCall(env, c, s);
  }

  lemma SeenKept(env: Env, c: Conf, s: Step)
    requires Inv(env, c) && Enabled(c, s)
    ensures SeenInv(env, Next(env, c, s))
  {
    var c' := Next(env, c, s);
    forall j
      ensures j in c'.shared.seen <==> SomeAllows(env, c'.calls, j)
    {
      ActorAllows(env, c, s, j);
      AllowsNext(env, c, s, j);
    }
  }

  lemma UniqueKept(env: Env, c: Conf, s: Step)
    requires Inv(env, c) && Enabled(c, s)
    ensures UniqueInv(env, Next(env, c, s))
  {
    var c' := Next(env, c, s);
    forall a, b, j | a in c'.calls && b in c'.calls && AllowsJti(env, c'.calls[a], j) && AllowsJti(env, c'.calls[b], j)
      ensures a == b
    {
      ActorAllows(env, c, s, j);
    }
  }

  lemma MarkKept(env: Env, c: Conf, s: Step)
    requires Inv(env, c) && Enabled(c, s)
    ensures MarkInv(Next(env, c, s))
  {
  }

  lemma InvKept(env: Env, c: Conf, s: Step)
    requires Inv(env, c) && Enabled(c, s)
    ensures Inv(env, Next(env, c, s))
  {
    CallsKept(env, c, s);
    RevokedKept(env, c, s);
    SeenKept(env, c, s);
    UniqueKept(env, c, s);
    MarkKept(env, c, s);
  }

  lemma {:induction false} RunInv(env: Env, steps: seq<Step>)
    requires Exec(env, steps).Some?
    ensures Inv(env, Exec(env, steps).value)
    ensures Exec(env, steps).value.time == |steps|
  {
    if steps != [] {
      var last := |steps| - 1;
      RunInv(env, steps[..last]);
      InvKept(env, Exec(env, steps[..last]).value, steps[last]);
    }
  }
}
