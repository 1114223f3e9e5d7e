/**
 Every run of the concurrent verifier has a sequential explanation that respects real time.
 An allowed call takes effect at its revocation check; a replayed one after both its own
 check and the check of the call that won its `jti`.
 */
module Linearizability {
  import opened ByteStrings
  import opened Wire
  import opened Token
  import opened Verifier
  import opened Concurrent

  // ---- The sequential specification -----------------------------------------------------

  /** One whole call on its own. */
  ghost function Sequential(env: Env, st: Shared, k: Call): (Answer, Shared) {
    match k.op
    case AuthorizeOp(req) =>
      var (response, st') := Decide(env, st, req, k.clock);
      (Answered(response), st')
    case RevokeOp(agentId) => (Acknowledged, st.(revoked := st.revoked + {agentId}))
  }

  ghost function After(env: Env, calls: map<nat, Call>, st: Shared, order: seq<nat>): Shared
    requires forall id | id in order :: id in calls
    decreases |order|
  {
    if order == [] then st
    else After(env, calls, Sequential(env, st, calls[order[0]]).1, order[1..])
  }

  /** Equal answers, or (when only decisions are compared) answers with the same decision. */
  predicate SameAnswer(withCodes: bool, a: Answer, b: Answer) {
    || a == b
    || (!withCodes && a.Answered? && b.Answered? && a.response.decision == b.response.decision)
  }

  /** Run one after the other in this order, the calls give the answers they gave. */
  ghost predicate Explains(env: Env, calls: map<nat, Call>, st: Shared, order: seq<nat>, withCodes: bool)
    requires forall id | id in order :: id in calls
    decreases |order|
  {
    order == [] ||
    (&& var k := calls[order[0]];
        var (answer, st') := Sequential(env, st, k);
        && k.pc.Done?
        && SameAnswer(withCodes, k.pc.answer, answer)
        && Explains(env, calls, st', order[1..], withCodes))
  }

  predicate Distinct(order: seq<nat>) {
    forall i, j | 0 <= i < j < |order| :: order[i] != order[j]
  }

  /** No call is placed after one that began when it had already finished. */
  predicate RespectsRealTime(calls: map<nat, Call>, order: seq<nat>)
    requires forall id | id in order :: id in calls && calls[id].pc.Done?
  {
    forall i, j | 0 <= i < j < |order| :: !(calls[order[j]].pc.at < calls[order[i]].inv)
  }

  /** `order` lists exactly the finished calls and explains them and the final state. */
  ghost predicate Linearization(env: Env, c: Conf, order: seq<nat>, withCodes: bool) {
    && (forall id :: id in order <==> id in c.calls && c.calls[id].pc.Done?)
    && Distinct(order)
    && RespectsRealTime(c.calls, order)
    && Explains(env, c.calls, Shared({}, {}), order, withCodes)
    && After(env, c.calls, Shared({}, {}), order) == c.shared
  }

  lemma {:induction false} ExplainsAppend(
    env: Env, calls: map<nat, Call>, st: Shared, a: seq<nat>, b: seq<nat>, withCodes: bool)
    requires forall id | id in a + b :: id in calls
    requires forall id | id in a :: id in calls
    requires forall id | id in b :: id in calls
    requires Explains(env, calls, st, a, withCodes)
    requires Explains(env, calls, After(env, calls, st, a), b, withCodes)
    ensures Explains(env, calls, st, a + b, withCodes)
    ensures After(env, calls, st, a + b) == After(env, calls, After(env, calls, st, a), b)
    decreases |a|
  {
    if a == [] {
      assert a + b == b;
    } else {
      assert (a + b)[1..] == a[1..] + b;
      forall id | id in a[1..] + b
        ensures id in calls
      {
        assert id in a + b;
      }
      ExplainsAppend(env, calls, Sequential(env, st, calls[a[0]]).1, a[1..], b, withCodes);
    }
  }

  // ---- Linearization times ----------------------------------------------------------------

  /** Two calls that reach the last step with one `jti` act for one agent. */
  ghost predicate SharedJtiSharedAgent(env: Env, c: Conf) {
    forall a, b | a in c.calls && b in c.calls && IsAllow(c.calls[a]) && IsReplay(c.calls[b]) ::
      (&& StageOf(env, c.calls[a]).Proceed? && StageOf(env, c.calls[b]).Proceed?
       && StageOf(env, c.calls[a]).claims.jti == StageOf(env, c.calls[b]).claims.jti)
      ==> StageOf(env, c.calls[a]).claims.agentId == StageOf(env, c.calls[b]).claims.agentId
  }

  ghost predicate Wins(env: Env, c: Conf, w: nat, id: nat) {
    && w in c.calls && id in c.calls && IsReplay(c.calls[id])
    && StageOf(env, c.calls[id]).Proceed?
    && AllowsJti(env, c.calls[w], StageOf(env, c.calls[id]).claims.jti)
  }

  /** The time at which a finished call takes effect. */
  ghost function EffectTime(env: Env, c: Conf, id: nat): nat
    requires id in c.calls
  {
    if w :| Wins(env, c, w, id) && c.calls[w].mark > c.calls[id].mark then c.calls[w].mark
    else c.calls[id].mark
  }

  /** Only the last step answers TOKEN_REPLAYED. */
  lemma NoPureReplay(env: Env, req: AuthorizeRequest, now: Millis)
    ensures Prefix(env, req, now) != Stop(Denied(TOKEN_REPLAYED))
    ensures Prefix(env, req, now).Proceed? ==>
              Middle(req, Prefix(env, req, now).claims) != Some(Denied(TOKEN_REPLAYED))
  {
  }

  /** The one call that won the `jti` of a replay finished before it. */
  lemma OneWinner(env: Env, c: Conf, w: nat, id: nat)
    requires Inv(env, c) && Wins(env, c, w, id)
    ensures c.calls[w].pc.at < c.calls[id].pc.at
    ensures forall v | Wins(env, c, v, id) :: v == w
  {
    var k := c.calls[id];
    assert CallInv(env, c.calls, c.time, k);
    var claims := StageOf(env, k).claims;
    NoPureReplay(env, k.op.req, k.clock);
    var v :| v in c.calls && AllowsJti(env, c.calls[v], claims.jti) && c.calls[v].pc.at < k.pc.at;
    assert v == w;
  }

  lemma EffectTimeOfReplay(env: Env, c: Conf, w: nat, id: nat)
    requires Inv(env, c) && Wins(env, c, w, id)
    ensures EffectTime(env, c, id) ==
            if c.calls[w].mark > c.calls[id].mark then c.calls[w].mark else c.calls[id].mark
    ensures c.calls[w].pc.at < c.calls[id].pc.at
  {
    OneWinner(env, c, w, id);
  }

  /** A call takes effect after it began and not after it finished. */
  lemma EffectWithinCall(env: Env, c: Conf, id: nat)
    requires Inv(env, c) && id in c.calls && c.calls[id].pc.Done?
    ensures c.calls[id].inv < EffectTime(env, c, id) <= c.calls[id].pc.at < c.time
  {
    assert CallInv(env, c.calls, c.time, c.calls[id]);
    if w :| Wins(env, c, w, id) && c.calls[w].mark > c.calls[id].mark {
      EffectTimeOfReplay(env, c, w, id);
      assert CallInv(env, c.calls, c.time, c.calls[w]);
    }
  }

  // ---- The order ----------------------------------------------------------------------------

  ghost function SetToSeq(s: set<nat>): (r: seq<nat>)
    ensures forall x :: x in r <==> x in s
    ensures Distinct(r)
  {
    if s == {} then []
    else
      var x :| x in s;
      [x] + SetToSeq(s - {x})
  }

  ghost predicate TakesEffect(env: Env, c: Conf, id: nat, t: nat) {
    id in c.calls && c.calls[id].pc.Done? && EffectTime(env, c, id) == t
  }

  /** The call whose own mark is `t`, if it takes effect there. */
  ghost function OwnPart(env: Env, c: Conf, t: nat): (r: seq<nat>)
    ensures |r| <= 1
    ensures forall id | id in r :: TakesEffect(env, c, id, t) && c.calls[id].mark == t
  {
    if id :| TakesEffect(env, c, id, t) && c.calls[id].mark == t then [id] else []
  }

  /** The replays that take effect at the check of the call that beat them. */
  ghost function Hooked(env: Env, c: Conf, t: nat): set<nat> {
    set id | id in c.calls && TakesEffect(env, c, id, t) && c.calls[id].mark != t
  }

  ghost function Block(env: Env, c: Conf, t: nat): (r: seq<nat>)
    ensures forall id | id in r :: id in c.calls
  {
    OwnPart(env, c, t) + SetToSeq(Hooked(env, c, t))
  }

  ghost function Order(env: Env, c: Conf, n: nat): (r: seq<nat>)
    ensures forall id | id in r :: id in c.calls
  {
    if n == 0 then [] else Order(env, c, n - 1) + Block(env, c, n - 1)
  }

  lemma {:induction false} DistinctAppend(a: seq<nat>, b: seq<nat>)
    requires Distinct(a) && Distinct(b)
    requires forall id | id in a :: id !in b
    ensures Distinct(a + b)
  {
    var order := a + b;
    forall i, j | 0 <= i < j < |order|
      ensures order[i] != order[j]
    {
      if i < |a| <= j {
        assert order[i] == a[i] && a[i] in a;
        assert order[j] == b[j - |a|] && b[j - |a|] in b;
      }
    }
  }

  lemma OwnPartMembers(env: Env, c: Conf, t: nat)
    requires MarkInv(c)
    ensures forall id :: id in OwnPart(env, c, t) <==> TakesEffect(env, c, id, t) && c.calls[id].mark == t
    ensures Distinct(OwnPart(env, c, t))
  {
  }

  lemma BlockMembers(env: Env, c: Conf, t: nat)
    requires MarkInv(c)
    ensures forall id :: id in Block(env, c, t) <==> TakesEffect(env, c, id, t)
    ensures Distinct(Block(env, c, t))
  {
    OwnPartMembers(env, c, t);
    DistinctAppend(OwnPart(env, c, t), SetToSeq(Hooked(env, c, t)));
  }

  /** `order` lists the finished calls that take effect before `n`, by the time of their effect. */
  ghost predicate Lists(env: Env, c: Conf, n: nat, order: seq<nat>) {
    && (forall id :: id in order <==> exists t | 0 <= t < n :: TakesEffect(env, c, id, t))
    && Distinct(order)
    && SortedByEffect(env, c, order)
  }

  ghost predicate SortedByEffect(env: Env, c: Conf, order: seq<nat>) {
    forall i, j | 0 <= i < j < |order| ::
      order[i] in c.calls && order[j] in c.calls && EffectTime(env, c, order[i]) <= EffectTime(env, c, order[j])
  }

  lemma SortedAppend(env: Env, c: Conf, n: nat, early: seq<nat>, block: seq<nat>)
    requires SortedByEffect(env, c, early)
    requires forall id | id in early :: id in c.calls && EffectTime(env, c, id) < n
    requires forall id | id in block :: id in c.calls && EffectTime(env, c, id) == n
    ensures SortedByEffect(env, c, early + block)
  {
  }

  lemma ListsOneMore(env: Env, c: Conf, n: nat, early: seq<nat>)
    requires MarkInv(c) && Lists(env, c, n, early)
    ensures Lists(env, c, n + 1, early + Block(env, c, n))
  {
    var block := Block(env, c, n);
    BlockMembers(env, c, n);
    DistinctAppend(early, block);
    SortedAppend(env, c, n, early, block);
    forall id
      ensures id in early + block <==> exists t | 0 <= t < n + 1 :: TakesEffect(env, c, id, t)
    {
      assert id in early + block <==> id in early || id in block;
    }
  }

  lemma OrderLists(env: Env, c: Conf, n: nat)
    requires MarkInv(c)
    ensures Lists(env, c, n, Order(env, c, n))
  {
    var i, order := 0, [];
    while i < n
      invariant 0 <= i <= n && order == Order(env, c, i)
      invariant Lists(env, c, i, order)
    {
      ListsOneMore(env, c, i, order);
      i, order := i + 1, order + Block(env, c, i);
    }
  }

  // ---- The sequential state at each time ------------------------------------------------------

  ghost predicate AllowMarkedBefore(env: Env, c: Conf, jti: Bytes, n: nat) {
    exists id | id in c.calls :: AllowsJti(env, c.calls[id], jti) && c.calls[id].mark < n
  }

  /** The effects of the calls marked before `n`, as a state. */
  ghost predicate StateAt(env: Env, c: Conf, n: nat, st: Shared) {
    && (forall j :: j in st.seen <==> AllowMarkedBefore(env, c, j, n))
    && (forall a :: a in st.revoked <==> RevokedBefore(c.calls, a, n))
  }

  lemma StatesEqual(env: Env, c: Conf, n: nat, a: Shared, b: Shared)
    requires StateAt(env, c, n, a) && StateAt(env, c, n, b)
    ensures a == b
  {
  }

  /** A time at which no finished call made a change. */
  lemma StateUnchanged(env: Env, c: Conf, t: nat, st: Shared)
    requires StateAt(env, c, t, st)
    requires forall id | id in c.calls && c.calls[id].mark == t ::
               !IsAllow(c.calls[id]) && !(c.calls[id].op.RevokeOp? && c.calls[id].pc.Done?)
    ensures StateAt(env, c, t + 1, st)
  {
  }

  lemma DecideSettled(env: Env, c: Conf, id: nat, st: Shared)
    requires Inv(env, c) && id in c.calls && HasResponse(c.calls[id])
    requires !IsReplay(c.calls[id])
    requires StateAt(env, c, c.calls[id].mark, st)
    ensures Decide(env, st, c.calls[id].op.req, c.calls[id].clock).0 == c.calls[id].pc.answer.response
  {
    var k := c.calls[id];
    assert CallInv(env, c.calls, c.time, k);
    if IsAllow(k) {
      assert AllowsJti(env, k, StageOf(env, k).claims.jti);
    }
  }

  lemma FinishedAnswers(env: Env, c: Conf, id: nat)
    requires Inv(env, c) && id in c.calls && c.calls[id].pc.Done?
    ensures if c.calls[id].op.RevokeOp? then c.calls[id].pc.answer.Acknowledged? else HasResponse(c.calls[id])
  {
    assert CallInv(env, c.calls, c.time, c.calls[id]);
  }

  /** A call that takes effect at its own mark answers as in the sequential state of that time. */
  lemma OwnExplained(env: Env, c: Conf, id: nat, st: Shared)
    requires Inv(env, c) && id in c.calls && TakesEffect(env, c, id, c.calls[id].mark)
    requires StateAt(env, c, c.calls[id].mark, st)
    ensures Sequential(env, st, c.calls[id]).0 == c.calls[id].pc.answer
    ensures StateAt(env, c, c.calls[id].mark + 1, Sequential(env, st, c.calls[id]).1)
  {
    var k := c.calls[id];
    FinishedAnswers(env, c, id);
    if k.op.RevokeOp? {
      RevokeExplained(env, c, id, st);
    } else if IsReplay(k) {
      ReplayExplained(env, c, id, st);
      OnlyMark(env, c, id);
      StateUnchanged(env, c, k.mark, st);
    } else {
      SettledExplained(env, c, id, st);
    }
  }

  lemma SettledExplained(env: Env, c: Conf, id: nat, st: Shared)
    requires Inv(env, c) && id in c.calls && HasResponse(c.calls[id]) && !IsReplay(c.calls[id])
    requires StateAt(env, c, c.calls[id].mark, st)
    ensures Sequential(env, st, c.calls[id]).0 == c.calls[id].pc.answer
    ensures StateAt(env, c, c.calls[id].mark + 1, Sequential(env, st, c.calls[id]).1)
  {
    DecideSettled(env, c, id, st);
    if IsAllow(c.calls[id]) {
      AllowExplained(env, c, id, st);
    } else {
      OnlyMark(env, c, id);
      StateUnchanged(env, c, c.calls[id].mark, st);
    }
  }

  lemma ReplayExplained(env: Env, c: Conf, id: nat, st: Shared)
    requires Inv(env, c) && id in c.calls && IsReplay(c.calls[id])
    requires EffectTime(env, c, id) == c.calls[id].mark
    requires StateAt(env, c, c.calls[id].mark, st)
    ensures Sequential(env, st, c.calls[id]) == (c.calls[id].pc.answer, st)
  {
    var k := c.calls[id];
    assert CallInv(env, c.calls, c.time, k);
    NoPureReplay(env, k.op.req, k.clock);
    var claims := StageOf(env, k).claims;
    var w :| w in c.calls && AllowsJti(env, c.calls[w], claims.jti) && c.calls[w].pc.at < k.pc.at;
    assert Wins(env, c, w, id);
    EffectTimeOfReplay(env, c, w, id);
    assert CallInv(env, c.calls, c.time, c.calls[w]);
    OnlyMark(env, c, id);
    assert AllowMarkedBefore(env, c, claims.jti, k.mark);
  }

  lemma OnlyMark(env: Env, c: Conf, id: nat)
    requires Inv(env, c) && id in c.calls && c.calls[id].pc.Done?
    ensures forall b | b in c.calls && !c.calls[b].pc.Entered? && c.calls[b].mark == c.calls[id].mark :: b == id
  {
  }

  lemma RevokeExplained(env: Env, c: Conf, id: nat, st: Shared)
    requires Inv(env, c) && id in c.calls && c.calls[id].pc.Done? && c.calls[id].op.RevokeOp?
    requires StateAt(env, c, c.calls[id].mark, st)
    ensures StateAt(env, c, c.calls[id].mark + 1, Sequential(env, st, c.calls[id]).1)
  {
  }

  /** At the mark of an allowed call, its `jti` is added and nothing is revoked. */
  lemma AllowMarks(env: Env, c: Conf, id: nat, jti: Bytes)
    requires Inv(env, c) && id in c.calls && AllowsJti(env, c.calls[id], jti)
    ensures forall j :: AllowMarkedBefore(env, c, j, c.calls[id].mark + 1) <==>
                          AllowMarkedBefore(env, c, j, c.calls[id].mark) || j == jti
    ensures forall a :: RevokedBefore(c.calls, a, c.calls[id].mark + 1) <==> RevokedBefore(c.calls, a, c.calls[id].mark)
  {
    forall j
      ensures AllowMarkedBefore(env, c, j, c.calls[id].mark + 1) <==>
              AllowMarkedBefore(env, c, j, c.calls[id].mark) || j == jti
    {
      AllowMarkOf(env, c, id, jti, j);
    }
    forall a
      ensures RevokedBefore(c.calls, a, c.calls[id].mark + 1) <==> RevokedBefore(c.calls, a, c.calls[id].mark)
    {
      NoRevocationMark(env, c, id, a);
    }
  }

  lemma AllowMarkOf(env: Env, c: Conf, id: nat, jti: Bytes, j: Bytes)
    requires Inv(env, c) && id in c.calls && AllowsJti(env, c.calls[id], jti)
    ensures AllowMarkedBefore(env, c, j, c.calls[id].mark + 1) <==>
            AllowMarkedBefore(env, c, j, c.calls[id].mark) || j == jti
  {
    var mark := c.calls[id].mark;
    if w :| w in c.calls && AllowsJti(env, c.calls[w], j) && c.calls[w].mark < mark + 1 {
      OnlyMark(env, c, id);
      assert c.calls[w].mark < mark || w == id;
    }
    if w :| w in c.calls && AllowsJti(env, c.calls[w], j) && c.calls[w].mark < mark {
      assert c.calls[w].mark < mark + 1;
    }
  }

  lemma NoRevocationMark(env: Env, c: Conf, id: nat, agentId: Bytes)
    requires Inv(env, c) && id in c.calls && IsAllow(c.calls[id])
    ensures RevokedBefore(c.calls, agentId, c.calls[id].mark + 1) <==> RevokedBefore(c.calls, agentId, c.calls[id].mark)
  {
    var mark := c.calls[id].mark;
    if r :| r in c.calls && IsRevocation(c.calls[r], agentId) && c.calls[r].mark < mark + 1 {
      OnlyMark(env, c, id);
      assert r != id && c.calls[r].mark < mark;
    }
  }

  lemma AllowExplained(env: Env, c: Conf, id: nat, st: Shared)
    requires Inv(env, c) && id in c.calls && IsAllow(c.calls[id])
    requires StateAt(env, c, c.calls[id].mark, st)
    requires Sequential(env, st, c.calls[id]).0 == c.calls[id].pc.answer
    ensures StateAt(env, c, c.calls[id].mark + 1, Sequential(env, st, c.calls[id]).1)
  {
    var k := c.calls[id];
    assert CallInv(env, c.calls, c.time, k);
    var jti := StageOf(env, k).claims.jti;
    assert Sequential(env, st, k).1 == st.(seen := st.seen + {jti});
    AllowMarks(env, c, id, jti);
  }

  /** Just after the check of its winner, a replayed call is denied and changes nothing. */
  lemma HookedExplained(env: Env, c: Conf, id: nat, t: nat, st: Shared, withCodes: bool)
    requires Inv(env, c) && id in Hooked(env, c, t)
    requires StateAt(env, c, t + 1, st)
    requires withCodes ==> SharedJtiSharedAgent(env, c)
    ensures SameAnswer(withCodes, c.calls[id].pc.answer, Sequential(env, st, c.calls[id]).0)
    ensures Sequential(env, st, c.calls[id]).1 == st
  {
    var k := c.calls[id];
    var w :| Wins(env, c, w, id) && c.calls[w].mark > k.mark;
    EffectTimeOfReplay(env, c, w, id);
    assert c.calls[w].mark == t;
    assert CallInv(env, c.calls, c.time, k) && CallInv(env, c.calls, c.time, c.calls[w]);
    NoPureReplay(env, k.op.req, k.clock);
    var claims := StageOf(env, k).claims;
    assert AllowMarkedBefore(env, c, claims.jti, t + 1);
    if withCodes {
      assert claims.agentId == StageOf(env, c.calls[w]).claims.agentId;
      assert !RevokedBefore(c.calls, claims.agentId, t);
      OnlyMark(env, c, w);
      assert !RevokedBefore(c.calls, claims.agentId, t + 1);
    }
  }

  lemma {:induction false} HookedSeqExplained(env: Env, c: Conf, order: seq<nat>, t: nat, st: Shared, withCodes: bool)
    requires Inv(env, c)
    requires forall id | id in order :: id in c.calls && id in Hooked(env, c, t)
    requires StateAt(env, c, t + 1, st)
    requires withCodes ==> SharedJtiSharedAgent(env, c)
    ensures Explains(env, c.calls, st, order, withCodes)
    ensures After(env, c.calls, st, order) == st
  {
    if order != [] {
      assert order[0] in order;
      HookedExplained(env, c, order[0], t, st, withCodes);
      HookedSeqExplained(env, c, order[1..], t, st, withCodes);
    }
  }

  lemma OwnPartExplained(env: Env, c: Conf, t: nat, st: Shared, withCodes: bool)
    requires Inv(env, c) && StateAt(env, c, t, st)
    ensures Explains(env, c.calls, st, OwnPart(env, c, t), withCodes)
    ensures StateAt(env, c, t + 1, After(env, c.calls, st, OwnPart(env, c, t)))
  {
    var own := OwnPart(env, c, t);
    if own == [] {
      forall id | id in c.calls && c.calls[id].mark == t
        ensures !IsAllow(c.calls[id]) && !(c.calls[id].op.RevokeOp? && c.calls[id].pc.Done?)
      {
        assert !TakesEffect(env, c, id, t);
      }
      StateUnchanged(env, c, t, st);
    } else {
      var id := own[0];
      assert id in own;
      OwnExplained(env, c, id, st);
      assert own[1..] == [];
      assert After(env, c.calls, st, own) == Sequential(env, st, c.calls[id]).1;
    }
  }

  lemma BlockExplained(env: Env, c: Conf, t: nat, st: Shared, withCodes: bool)
    requires Inv(env, c) && StateAt(env, c, t, st)
    requires withCodes ==> SharedJtiSharedAgent(env, c)
    ensures Explains(env, c.calls, st, Block(env, c, t), withCodes)
    ensures StateAt(env, c, t + 1, After(env, c.calls, st, Block(env, c, t)))
  {
    var own, hooked := OwnPart(env, c, t), SetToSeq(Hooked(env, c, t));
    OwnPartExplained(env, c, t, st, withCodes);
    HookedSeqExplained(env, c, hooked, t, After(env, c.calls, st, own), withCodes);
    ExplainsAppend(env, c.calls, st, own, hooked, withCodes);
  }

  /** The first `n` blocks explain themselves and lead to the state of time `n`. */
  ghost predicate ExplainedTo(env: Env, c: Conf, n: nat, order: seq<nat>, withCodes: bool) {
    && (forall id | id in order :: id in c.calls)
    && Explains(env, c.calls, Shared({}, {}), order, withCodes)
    && StateAt(env, c, n, After(env, c.calls, Shared({}, {}), order))
  }

  lemma NothingExplained(env: Env, c: Conf, withCodes: bool)
    ensures ExplainedTo(env, c, 0, [], withCodes)
  {
  }

  lemma ExplainedOneMore(env: Env, c: Conf, n: nat, early: seq<nat>, withCodes: bool)
    requires Inv(env, c) && ExplainedTo(env, c, n, early, withCodes)
    requires withCodes ==> SharedJtiSharedAgent(env, c)
    ensures ExplainedTo(env, c, n + 1, early + Block(env, c, n), withCodes)
  {
    var st := After(env, c.calls, Shared({}, {}), early);
    var block := Block(env, c, n);
    BlockExplained(env, c, n, st, withCodes);
    assert forall id | id in early + block :: id in c.calls;
    ExplainsAppend(env, c.calls, Shared({}, {}), early, block, withCodes);
  }

  lemma OrderExplained(env: Env, c: Conf, n: nat, withCodes: bool)
    requires Inv(env, c)
    requires withCodes ==> SharedJtiSharedAgent(env, c)
    ensures ExplainedTo(env, c, n, Order(env, c, n), withCodes)
  {
    NothingExplained(env, c, withCodes);
    var i, order := 0, [];
    while i < n
      invariant 0 <= i <= n && order == Order(env, c, i)
      invariant ExplainedTo(env, c, i, order, withCodes)
    {
      ExplainedOneMore(env, c, i, order, withCodes);
      i, order := i + 1, order + Block(env, c, i);
    }
  }

  lemma SortedRespectsRealTime(env: Env, c: Conf, order: seq<nat>)
    requires Inv(env, c) && SortedByEffect(env, c, order)
    requires forall id | id in order :: id in c.calls && c.calls[id].pc.Done?
    ensures RespectsRealTime(c.calls, order)
  {
    forall i, j | 0 <= i < j < |order|
      ensures !(c.calls[order[j]].pc.at < c.calls[order[i]].inv)
    {
      assert order[i] in order && order[j] in order;
      EffectWithinCall(env, c, order[i]);
      EffectWithinCall(env, c, order[j]);
    }
  }

  lemma FinishedTakeEffect(env: Env, c: Conf)
    requires Inv(env, c)
    ensures forall id | id in c.calls && c.calls[id].pc.Done? :: EffectTime(env, c, id) < c.time
  {
  }

  lemma OrderCovers(env: Env, c: Conf, order: seq<nat>)
    requires Inv(env, c) && Lists(env, c, c.time, order)
    ensures forall id :: id in order <==> id in c.calls && c.calls[id].pc.Done?
  {
    FinishedTakeEffect(env, c);
    forall id
      ensures id in order <==> id in c.calls && c.calls[id].pc.Done?
    {
      if id in c.calls && c.calls[id].pc.Done? {
        assert TakesEffect(env, c, id, EffectTime(env, c, id));
      }
    }
  }

  lemma OrderLinearizes(env: Env, c: Conf, withCodes: bool)
    requires Inv(env, c)
    requires withCodes ==> SharedJtiSharedAgent(env, c)
    ensures Linearization(env, c, Order(env, c, c.time), withCodes)
  {
    var order := Order(env, c, c.time);
    OrderLists(env, c, c.time);
    OrderCovers(env, c, order);
    SortedRespectsRealTime(env, c, order);
    OrderExplained(env, c, c.time, withCodes);
    StateAtEnd(env, c);
    StatesEqual(env, c, c.time, After(env, c.calls, Shared({}, {}), order), c.shared);
  }

  lemma StateAtEnd(env: Env, c: Conf)
    requires Inv(env, c)
    ensures StateAt(env, c, c.time, c.shared)
  {
  }

  /** Every run is explained by a sequential order with the same decisions and final state. */
  lemma RunsLinearize(env: Env, steps: seq<Step>)
    requires Exec(env, steps).Some?
    ensures exists order :: Linearization(env, Exec(env, steps).value, order, false)
  {
    RunInv(env, steps);
    OrderLinearizes(env, Exec(env, steps).value, false);
  }
}
