/** What holds of the concurrent verifier over whole runs. */
module Runs {
  import opened ByteStrings
  import opened Wire
  import opened Verifier
  import opened Concurrent

  // ---- The replay ledger --------------------------------------------------------------

  function AllowIds(c: Conf): set<nat> {
    set id | id in c.calls && IsAllow(c.calls[id])
  }

  ghost function JtiOf(env: Env, c: Conf, id: nat): Bytes
    requires id in c.calls && IsAllow(c.calls[id])
  {
    match StageOf(env, c.calls[id])
    case Proceed(claims) => claims.jti
    case Stop(_) => []
  }

  lemma AllowHasJti(env: Env, c: Conf, id: nat)
    requires Inv(env, c) && id in AllowIds(c)
    ensures AllowsJti(env, c.calls[id], JtiOf(env, c, id))
  {
    assert CallInv(env, c.calls, c.time, c.calls[id]);
  }

  /** A function that separates the members of a set has an image of the same size. */
  lemma {:induction false} ImageSize(ids: set<nat>, image: set<Bytes>, f: map<nat, Bytes>)
    requires ids <= f.Keys
    requires forall a, b | a in ids && b in ids && f[a] == f[b] :: a == b
    requires image == set id | id in ids :: f[id]
    ensures |image| == |ids|
  {
    if ids != {} {
      var id :| id in ids;
      var rest := ids - {id};
      ImageSize(rest, image - {f[id]}, f);
    }
  }

  ghost function JtiMap(env: Env, c: Conf): map<nat, Bytes> {
    map id | id in AllowIds(c) :: JtiOf(env, c, id)
  }

  lemma SeenIsImage(env: Env, c: Conf)
    requires Inv(env, c)
    ensures forall j :: j in c.shared.seen <==> exists id | id in AllowIds(c) :: JtiOf(env, c, id) == j
    ensures c.shared.seen == set id | id in AllowIds(c) :: JtiMap(env, c)[id]
  {
    forall id | id in AllowIds(c)
      ensures AllowsJti(env, c.calls[id], JtiOf(env, c, id))
    {
      AllowHasJti(env, c, id);
    }
    forall j | j in c.shared.seen
      ensures exists id | id in AllowIds(c) :: JtiOf(env, c, id) == j
    {
      var id :| id in c.calls && AllowsJti(env, c.calls[id], j);
      assert id in AllowIds(c);
    }
  }

  lemma JtisDiffer(env: Env, c: Conf, a: nat, b: nat)
    requires Inv(env, c) && a in AllowIds(c) && b in AllowIds(c)
    requires JtiOf(env, c, a) == JtiOf(env, c, b)
    ensures a == b
  {
    AllowHasJti(env, c, a);
    AllowHasJti(env, c, b);
  }

  /** The consumed `jti`s are those of the allowed calls, one for each. */
  lemma ReplayLedger(env: Env, steps: seq<Step>)
    requires Exec(env, steps).Some?
    ensures var c := Exec(env, steps).value;
            && (forall j :: j in c.shared.seen <==> exists id | id in AllowIds(c) :: JtiOf(env, c, id) == j)
            && |c.shared.seen| == |AllowIds(c)|
  {
    var c := Exec(env, steps).value;
    RunInv(env, steps);
    SeenIsImage(env, c);
    forall a, b | a in AllowIds(c) && b in AllowIds(c) && JtiMap(env, c)[a] == JtiMap(env, c)[b]
      ensures a == b
    {
      JtisDiffer(env, c, a, b);
    }
    ImageSize(AllowIds(c), c.shared.seen, JtiMap(env, c));
  }

  /**
   A request that reaches the last step is answered TOKEN_REPLAYED exactly when an earlier
   call with its `jti` was allowed; otherwise it is allowed. Nothing else that happened matters.
   */
  lemma ReplayedIffAllowedEarlier(env: Env, steps: seq<Step>, id: nat)
    requires Exec(env, steps).Some? && Enabled(Exec(env, steps).value, RunInsert(id))
    ensures var c := Exec(env, steps).value;
            var claims := c.calls[id].pc.claims;
            var answer := NextCall(env, c, RunInsert(id)).pc.answer;
            if exists w | w in c.calls :: AllowsJti(env, c.calls[w], claims.jti)
            then answer == Answered(Denied(TOKEN_REPLAYED))
            else answer == Answered(Allowed(claims))
  {
    RunInv(env, steps);
  }

  // ---- Denied calls leave no trace ---------------------------------------------------------

  /** The run without any step of these calls. */
  function Erased(steps: seq<Step>, ids: set<nat>): seq<Step> {
    if steps == [] then []
    else
      var last := |steps| - 1;
      Erased(steps[..last], ids) + if steps[last].id in ids then [] else [steps[last]]
  }

  /** None of these calls revoked or was allowed; each was denied or is still under way. */
  predicate NoneAllowed(c: Conf, ids: set<nat>) {
    forall id | id in ids && id in c.calls :: c.calls[id].op.AuthorizeOp? && !IsAllow(c.calls[id])
  }

  predicate SamePc(a: Pc, b: Pc) {
    if a.Done? then b.Done? && a.answer == b.answer else a == b
  }

  /** The same call but for its time stamps. */
  predicate SameButTimes(a: Call, b: Call) {
    a.op == b.op && a.clock == b.clock && SamePc(a.pc, b.pc)
  }

  /** The same shared state, and the same calls except these, but for the time stamps. */
  predicate SameWithout(c: Conf, d: Conf, ids: set<nat>) {
    && d.shared == c.shared
    && d.calls.Keys == c.calls.Keys - ids
    && forall id | id in d.calls :: SameButTimes(c.calls[id], d.calls[id])
  }

  /** A step of a call that is not allowed in the end changes no shared state. */
  lemma DenyingStepKeepsShared(env: Env, c: Conf, s: Step, ids: set<nat>)
    requires Enabled(c, s) && s.id in ids && NoneAllowed(Next(env, c, s), ids)
    ensures Next(env, c, s).shared == c.shared
  {
    assert Next(env, c, s).calls[s.id] == NextCall(env, c, s);
    if s.RunInsert? {
      assert c.calls[s.id].pc.claims.jti in c.shared.seen;
    }
  }

  lemma NoneAllowedEarlier(env: Env, c: Conf, s: Step, ids: set<nat>)
    requires Enabled(c, s) && NoneAllowed(Next(env, c, s), ids)
    ensures NoneAllowed(c, ids)
  {
    forall id | id in ids && id in c.calls
      ensures c.calls[id].op.AuthorizeOp? && !IsAllow(c.calls[id])
    {
      assert id in Next(env, c, s).calls;
    }
  }

  lemma OtherStepSame(env: Env, c: Conf, d: Conf, s: Step, ids: set<nat>)
    requires SameWithout(c, d, ids) && Enabled(c, s) && s.id !in ids
    ensures Enabled(d, s)
    ensures SameWithout(Next(env, c, s), Next(env, d, s), ids)
  {
    assert SameButTimes(NextCall(env, c, s), NextCall(env, d, s));
  }

  /**
   Erasing from a run every step of any calls that were not allowed leaves a run with the same
   shared state and, time stamps aside, the same answers of all other calls.
   */
  lemma {:induction false} DenialsLeaveNoTrace(env: Env, steps: seq<Step>, ids: set<nat>)
    requires Exec(env, steps).Some? && NoneAllowed(Exec(env, steps).value, ids)
    ensures Exec(env, Erased(steps, ids)).Some?
    ensures SameWithout(Exec(env, steps).value, Exec(env, Erased(steps, ids)).value, ids)
  {
    if steps != [] {
      var last := |steps| - 1;
      var s, c := steps[last], Exec(env, steps[..last]).value;
      NoneAllowedEarlier(env, c, s, ids);
      DenialsLeaveNoTrace(env, steps[..last], ids);
      var kept := Erased(steps[..last], ids);
      if s.id in ids {
        DenyingStepKeepsShared(env, c, s, ids);
        assert Erased(steps, ids) == kept;
      } else {
        OtherStepSame(env, c, Exec(env, kept).value, s, ids);
        assert (kept + [s])[..|kept|] == kept;
      }
    }
  }

  // ---- Revocation ----------------------------------------------------------------------

  /** Both sets only grow along a run. */
  lemma {:induction false} SharedGrows(env: Env, steps: seq<Step>, n: nat)
    requires Exec(env, steps).Some? && n <= |steps|
    ensures Exec(env, steps[..n]).Some?
    ensures var early, late := Exec(env, steps[..n]).value.shared, Exec(env, steps).value.shared;
            early.revoked <= late.revoked && early.seen <= late.seen
  {
    if n == |steps| {
      assert steps[..n] == steps;
    } else {
      var last := |steps| - 1;
      SharedGrows(env, steps[..last], n);
      assert steps[..last][..n] == steps[..n];
    }
  }

  /**
   In every interleaving, an allowed call checked its agent before any revocation of that
   agent took effect; so a call that started after a completed revocation is not allowed,
   from whichever sandbox it comes.
   */
  lemma RevocationIsPermanent(env: Env, steps: seq<Step>, id: nat, revocation: nat)
    requires Exec(env, steps).Some?
    requires var c := Exec(env, steps).value;
             && id in c.calls && revocation in c.calls
             && HasResponse(c.calls[id])
             && IsRevocation(c.calls[revocation], c.calls[id].op.req.context.agentId)
    ensures var c := Exec(env, steps).value;
            && (IsAllow(c.calls[id]) ==> c.calls[id].mark < c.calls[revocation].mark)
            && (c.calls[revocation].pc.at < c.calls[id].inv ==> c.calls[id].pc.answer.response.decision == Deny)
  {
    var c := Exec(env, steps).value;
    RunInv(env, steps);
    var k, r := c.calls[id], c.calls[revocation];
    assert CallInv(env, c.calls, c.time, k) && CallInv(env, c.calls, c.time, r);
    if IsAllow(k) {
      var claims := StageOf(env, k).claims;
      assert claims.agentId == k.op.req.context.agentId;
      assert !RevokedBefore(c.calls, claims.agentId, k.mark);
      assert k.mark == r.mark ==> id == revocation;
    }
  }

  // ---- Runs the verifier cannot tell apart ----------------------------------------------

  ghost predicate SimilarOp(env: Env, a: Op, b: Op) {
    a == b || (a.AuthorizeOp? && b.AuthorizeOp? && Indistinguishable(env, a.req, b.req))
  }

  ghost predicate SimilarStep(env: Env, a: Step, b: Step) {
    a == b || (a.Invoke? && b.Invoke? && a.id == b.id && SimilarOp(env, a.op, b.op))
  }

  ghost predicate SimilarSteps(env: Env, a: seq<Step>, b: seq<Step>) {
    && |a| == |b|
    && forall i | 0 <= i < |a| :: SimilarStep(env, a[i], b[i])
  }

  /** The same shared state, and the same calls up to indistinguishable requests. */
  ghost predicate SimilarCall(env: Env, a: Call, b: Call) {
    SimilarOp(env, a.op, b.op) && b == a.(op := b.op)
  }

  ghost predicate SimilarConf(env: Env, a: Conf, b: Conf) {
    && a.shared == b.shared
    && a.time == b.time
    && a.calls.Keys == b.calls.Keys
    && forall id | id in a.calls :: SimilarCall(env, a.calls[id], b.calls[id])
  }

  lemma SimilarNextCall(env: Env, a: Conf, b: Conf, s: Step, t: Step)
    requires Inv(env, a) && SimilarConf(env, a, b) && SimilarStep(env, s, t)
    requires Enabled(a, s)
    ensures Enabled(b, t)
    ensures SimilarCall(env, NextCall(env, a, s), NextCall(env, b, t))
    ensures NextShared(a, s) == NextShared(b, t)
  {
    if !s.Invoke? {
      var k, l := a.calls[s.id], b.calls[s.id];
      assert CallInv(env, a.calls, a.time, k);
      assert SimilarCall(env, k, l);
      if s.RunPrefix? && k.op != l.op {
        PrefixCongruent(env, k.op.req, l.op.req, s.now);
      }
      if s.RunMiddle? && k.op != l.op {
        MiddleCongruent(env, k.op.req, l.op.req, k.clock, k.pc.claims);
      }
    }
  }

  lemma SimilarNext(env: Env, a: Conf, b: Conf, s: Step, t: Step)
    requires Inv(env, a) && SimilarConf(env, a, b) && SimilarStep(env, s, t)
    requires Enabled(a, s)
    ensures Enabled(b, t)
    ensures SimilarConf(env, Next(env, a, s), Next(env, b, t))
  {
    SimilarNextCall(env, a, b, s, t);
  }

  /**
   Replacing every request of a run by an indistinguishable one gives a run with the same
   answers and the same state at every point. In particular, when no token pins a workload,
   sandbox identities and advisory fields influence nothing.
   */
  lemma {:induction false} RunCongruence(env: Env, a: seq<Step>, b: seq<Step>)
    requires Exec(env, a).Some? && SimilarSteps(env, a, b)
    ensures Exec(env, b).Some?
    ensures SimilarConf(env, Exec(env, a).value, Exec(env, b).value)
  {
    if a != [] {
      var last := |a| - 1;
      RunCongruence(env, a[..last], b[..last]);
      RunInv(env, a[..last]);
      assert SimilarStep(env, a[last], b[last]);
      SimilarNext(env, Exec(env, a[..last]).value, Exec(env, b[..last]).value, a[last], b[last]);
    }
  }

  /** Another spelling of a request: any sandbox and any advisory field. */
  function Relocated(req: AuthorizeRequest, sandbox: Bytes, advisory: WireContext, bodyLen: nat): AuthorizeRequest {
    req.(request := req.request.(bodyLen := bodyLen),
         context := advisory.(agentId := req.context.agentId, onBehalfOf := req.context.onBehalfOf,
                              sandboxId := sandbox))
  }

  /** `b` is the run `a` with each request sent from elsewhere, and no token of `a` pins a workload. */
  ghost predicate MovedSteps(env: Env, a: seq<Step>, b: seq<Step>) {
    && |a| == |b|
    && forall i | 0 <= i < |a| ::
      || a[i] == b[i]
      || (&& a[i].Invoke? && a[i].op.AuthorizeOp? && NoWorkloadSelector(env, a[i].op.req)
          && exists sandbox, advisory, bodyLen ::
            b[i] == Invoke(a[i].id, AuthorizeOp(Relocated(a[i].op.req, sandbox, advisory, bodyLen))))
  }

  lemma SandboxNoninterference(env: Env, a: seq<Step>, b: seq<Step>)
    requires Exec(env, a).Some? && MovedSteps(env, a, b)
    ensures Exec(env, b).Some?
    ensures Exec(env, b).value.shared == Exec(env, a).value.shared
    ensures Exec(env, b).value.calls.Keys == Exec(env, a).value.calls.Keys
    ensures forall id | id in Exec(env, a).value.calls ::
              Exec(env, b).value.calls[id].pc == Exec(env, a).value.calls[id].pc
  {
    forall i | 0 <= i < |a|
      ensures SimilarStep(env, a[i], b[i])
    {
      if a[i] != b[i] {
        var sandbox, advisory, bodyLen :|
          b[i] == Invoke(a[i].id, AuthorizeOp(Relocated(a[i].op.req, sandbox, advisory, bodyLen)));
        assert Indistinguishable(env, a[i].op.req, b[i].op.req);
      }
    }
    RunCongruence(env, a, b);
    var c, d := Exec(env, a).value, Exec(env, b).value;
    forall id | id in c.calls
      ensures d.calls[id].pc == c.calls[id].pc
    {
      assert SimilarCall(env, c.calls[id], d.calls[id]);
    }
  }
}
