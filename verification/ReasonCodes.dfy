/**
 When the sequential order also explains the reason codes. A replayed call takes effect
 after the call that won its `jti`; if the two act for different agents, a revocation that
 slipped in between makes every sequential order answer AGENT_REVOKED instead.
 */
module ReasonCodes {
  import opened Wire
  import opened Token
  import opened Verifier
  import opened Concurrent
  import opened Linearizability
  import opened Schedules

  /** Requests and clock readings that may occur in a run. */
  type Pool = iset<(AuthorizeRequest, Millis)>

  ghost predicate DrawnFrom(pool: Pool, c: Conf) {
    forall id | id in c.calls ::
      c.calls[id].op.AuthorizeOp? && !c.calls[id].pc.Entered? ==> (c.calls[id].op.req, c.calls[id].clock) in pool
  }

  /** In the pool, passing requests that share a `jti` act for one agent. */
  ghost predicate OneAgentPerJti(env: Env, pool: Pool) {
    forall p, q | p in pool && q in pool && Passes(env, p.0, p.1) && Passes(env, q.0, q.1) ::
      Prefix(env, p.0, p.1).claims.jti == Prefix(env, q.0, q.1).claims.jti ==>
        Prefix(env, p.0, p.1).claims.agentId == Prefix(env, q.0, q.1).claims.agentId
  }

  ghost predicate CodesAlwaysLinearize(env: Env, pool: Pool) {
    forall steps | Exec(env, steps).Some? && DrawnFrom(pool, Exec(env, steps).value) ::
      exists order :: Linearization(env, Exec(env, steps).value, order, true)
  }

  // ---- One agent per jti is enough --------------------------------------------------

  lemma InsertersPass(env: Env, c: Conf, id: nat)
    requires Inv(env, c) && id in c.calls && (IsAllow(c.calls[id]) || IsReplay(c.calls[id]))
    ensures Passes(env, c.calls[id].op.req, c.calls[id].clock)
  {
    var k := c.calls[id];
    assert CallInv(env, c.calls, c.time, k);
    NoPureReplay(env, k.op.req, k.clock);
  }

  lemma CodesLinearize(env: Env, pool: Pool, steps: seq<Step>)
    requires OneAgentPerJti(env, pool)
    requires Exec(env, steps).Some? && DrawnFrom(pool, Exec(env, steps).value)
    ensures exists order :: Linearization(env, Exec(env, steps).value, order, true)
  {
    var c := Exec(env, steps).value;
    RunInv(env, steps);
    forall a, b | a in c.calls && b in c.calls && IsAllow(c.calls[a]) && IsReplay(c.calls[b])
      ensures Passes(env, c.calls[a].op.req, c.calls[a].clock) && Passes(env, c.calls[b].op.req, c.calls[b].clock)
    {
      InsertersPass(env, c, a);
      InsertersPass(env, c, b);
    }
    OrderLinearizes(env, c, true);
  }

  // ---- and it is necessary -------------------------------------------------------------

  /** Where the interleaving ends: revoked, allowed, and at last the first call replayed. */
  ghost predicate Interleaved(env: Env, r: AuthorizeRequest, nr: Millis, w: AuthorizeRequest, nw: Millis, c: Conf)
    requires Passes(env, r, nr) && Passes(env, w, nw)
  {
    var cr, cw := Prefix(env, r, nr).claims, Prefix(env, w, nw).claims;
    && c.calls.Keys == {0, 1, 2}
    && c.calls[0] == Call(AuthorizeOp(r), 0, nr, 2, Done(Answered(Denied(TOKEN_REPLAYED)), 11))
    && c.calls[1] == Call(RevokeOp(cr.agentId), 3, 0, 4, Done(Acknowledged, 4))
    && c.calls[2] == Call(AuthorizeOp(w), 5, nw, 7, Done(Answered(Allowed(cw)), 9))
  }

  /** `r` passes its check, its agent is revoked, `w` runs alone, and then `r` goes on. */
  lemma InterleavedRun(env: Env, r: AuthorizeRequest, nr: Millis, w: AuthorizeRequest, nw: Millis)
    returns (steps: seq<Step>, c: Conf)
    requires Passes(env, r, nr) && Passes(env, w, nw)
    requires Prefix(env, r, nr).claims.jti == Prefix(env, w, nw).claims.jti
    requires Prefix(env, r, nr).claims.agentId != Prefix(env, w, nw).claims.agentId
    ensures Reaches(env, steps, c) && Interleaved(env, r, nr, w, nw, c)
  {
    steps, c := CheckedThenRevoked(env, r, nr);
    steps, c := RunAllowed(env, steps, c, 2, w, nw);
    steps, c := Finish(env, steps, c, 0);
  }

  /** The first request is past its check, and nothing else has happened. */
  predicate FirstChecked(c: Conf, r: AuthorizeRequest, now: Millis, claims: Claims) {
    c == Conf(Shared({}, {}), 3, map[0 := Call(AuthorizeOp(r), 0, now, 2, AtMiddle(claims))])
  }

  /** After that its agent was revoked. */
  predicate ThenRevoked(c: Conf, r: AuthorizeRequest, now: Millis, claims: Claims) {
    && c.shared == Shared({}, {claims.agentId}) && c.time == 5
    && c.calls.Keys == {0, 1}
    && c.calls[0] == Call(AuthorizeOp(r), 0, now, 2, AtMiddle(claims))
    && c.calls[1] == Call(RevokeOp(claims.agentId), 3, 0, 4, Done(Acknowledged, 4))
  }

  lemma Checked(env: Env, r: AuthorizeRequest, now: Millis) returns (steps: seq<Step>, c: Conf)
    requires Prefix(env, r, now).Proceed?
    ensures Reaches(env, steps, c) && FirstChecked(c, r, now, Prefix(env, r, now).claims)
  {
    steps, c := EnterAndCheck(env, [], INITIAL, 0, r, now);
  }

  lemma RevokedNext(env: Env, before: seq<Step>, b: Conf, r: AuthorizeRequest, now: Millis, claims: Claims)
    returns (steps: seq<Step>, c: Conf)
    requires Reaches(env, before, b) && FirstChecked(b, r, now, claims)
    ensures Reaches(env, steps, c) && ThenRevoked(c, r, now, claims)
  {
    steps, c := Revoke(env, before, b, 1, claims.agentId);
  }

  lemma CheckedThenRevoked(env: Env, r: AuthorizeRequest, now: Millis) returns (steps: seq<Step>, c: Conf)
    requires Prefix(env, r, now).Proceed?
    ensures Reaches(env, steps, c) && ThenRevoked(c, r, now, Prefix(env, r, now).claims)
  {
    steps, c := Checked(env, r, now);
    steps, c := RevokedNext(env, steps, c, r, now, Prefix(env, r, now).claims);
  }

  ghost predicate ExplainsHead(env: Env, calls: map<nat, Call>, st: Shared, id: nat) {
    id in calls && calls[id].pc.Done? && calls[id].pc.answer == Sequential(env, st, calls[id]).0
  }

  lemma ExplainsCons(env: Env, calls: map<nat, Call>, st: Shared, order: seq<nat>)
    requires order != [] && forall id | id in order :: id in calls
    requires Explains(env, calls, st, order, true)
    ensures ExplainsHead(env, calls, st, order[0])
    ensures Explains(env, calls, Sequential(env, st, calls[order[0]]).1, order[1..], true)
  {
  }

  lemma ExplainsThree(env: Env, calls: map<nat, Call>, st: Shared, order: seq<nat>)
    requires |order| == 3
    requires forall id | id in order :: id in calls
    requires Explains(env, calls, st, order, true)
    ensures ExplainsHead(env, calls, st, order[0])
    ensures var st1 := Sequential(env, st, calls[order[0]]).1;
            && ExplainsHead(env, calls, st1, order[1])
            && ExplainsHead(env, calls, Sequential(env, st1, calls[order[1]]).1, order[2])
  {
    ExplainsCons(env, calls, st, order);
    var st1 := Sequential(env, st, calls[order[0]]).1;
    ExplainsCons(env, calls, st1, order[1..]);
    ExplainsCons(env, calls, Sequential(env, st1, calls[order[1]]).1, order[1..][1..]);
  }

  function Members(order: seq<nat>): set<nat> {
    set id | id in order
  }

  lemma {:induction false} DistinctSize(order: seq<nat>)
    requires Distinct(order)
    ensures |Members(order)| == |order|
  {
    if order != [] {
      var last := |order| - 1;
      var rest := order[..last];
      DistinctSize(rest);
      assert order[last] !in rest by {
        assert forall i | 0 <= i < last :: rest[i] == order[i] != order[last];
      }
      assert order == rest + [order[last]];
      assert Members(order) == Members(rest) + {order[last]};
    }
  }

  lemma ThreeMembers(c: Conf, order: seq<nat>)
    requires Distinct(order) && c.calls.Keys == {0, 1, 2}
    requires forall id | id in c.calls :: c.calls[id].pc.Done?
    requires forall id :: id in order <==> id in c.calls && c.calls[id].pc.Done?
    ensures |order| == 3
  {
    DistinctSize(order);
    assert Members(order) == c.calls.Keys;
  }

  /** In a state without its `jti`, or with its agent revoked, the first call is not replayed. */
  lemma ZeroNotReplayed(
    env: Env, r: AuthorizeRequest, nr: Millis, w: AuthorizeRequest, nw: Millis, c: Conf, st: Shared)
    requires Passes(env, r, nr) && Passes(env, w, nw) && Interleaved(env, r, nr, w, nw, c)
    requires var claims := Prefix(env, r, nr).claims; claims.jti !in st.seen || claims.agentId in st.revoked
    ensures !ExplainsHead(env, c.calls, st, 0)
  {
  }

  lemma WinnerIsAllowed(
    env: Env, r: AuthorizeRequest, nr: Millis, w: AuthorizeRequest, nw: Millis, c: Conf, st: Shared)
    requires Passes(env, r, nr) && Passes(env, w, nw) && Interleaved(env, r, nr, w, nw, c)
    ensures Sequential(env, st, c.calls[2]).1.revoked == st.revoked
    ensures Sequential(env, st, c.calls[1]).1 == st.(revoked := st.revoked + {Prefix(env, r, nr).claims.agentId})
  {
  }

  lemma NotExplained(
    env: Env, r: AuthorizeRequest, nr: Millis, w: AuthorizeRequest, nw: Millis, c: Conf, order: seq<nat>)
    requires Passes(env, r, nr) && Passes(env, w, nw) && Interleaved(env, r, nr, w, nw, c)
    requires order == [0, 1, 2] || order == [1, 0, 2] || order == [1, 2, 0]
    ensures !Explains(env, c.calls, Shared({}, {}), order, true)
  {
    if Explains(env, c.calls, Shared({}, {}), order, true) {
      var st := Shared({}, {});
      ExplainsThree(env, c.calls, st, order);
      ZeroNotReplayed(env, r, nr, w, nw, c, st);
      WinnerIsAllowed(env, r, nr, w, nw, c, st);
      var st1 := Sequential(env, st, c.calls[1]).1;
      ZeroNotReplayed(env, r, nr, w, nw, c, st1);
      WinnerIsAllowed(env, r, nr, w, nw, c, st1);
      ZeroNotReplayed(env, r, nr, w, nw, c, Sequential(env, st1, c.calls[2]).1);
    }
  }

  /** The revocation ended before the winner began, so the order is 0, 1, 2 or starts with 1. */
  lemma RevocationBeforeWinner(
    env: Env, r: AuthorizeRequest, nr: Millis, w: AuthorizeRequest, nw: Millis, c: Conf, order: seq<nat>)
    requires Passes(env, r, nr) && Passes(env, w, nw) && Interleaved(env, r, nr, w, nw, c)
    requires |order| == 3 && Distinct(order)
    requires forall id :: id in order <==> id in c.calls && c.calls[id].pc.Done?
    requires RespectsRealTime(c.calls, order)
    ensures order == [0, 1, 2] || order == [1, 0, 2] || order == [1, 2, 0]
  {
    assert order[0] in order && order[1] in order && order[2] in order;
    assert c.calls[1].pc.at < c.calls[2].inv;
    assert order == [order[0], order[1], order[2]];
  }

  /** No sequential order that respects real time gives these reason codes. */
  lemma InterleavedHasNoOrder(
    env: Env, r: AuthorizeRequest, nr: Millis, w: AuthorizeRequest, nw: Millis, c: Conf, order: seq<nat>)
    requires Passes(env, r, nr) && Passes(env, w, nw) && Interleaved(env, r, nr, w, nw, c)
    ensures !Linearization(env, c, order, true)
  {
    if Linearization(env, c, order, true) {
      ThreeMembers(c, order);
      RevocationBeforeWinner(env, r, nr, w, nw, c, order);
      NotExplained(env, r, nr, w, nw, c, order);
    }
  }

  /** Reason codes of all runs over a pool linearize exactly when no `jti` is shared between agents. */
  lemma CodesLinearizeExactly(env: Env, pool: Pool)
    ensures CodesAlwaysLinearize(env, pool) <==> OneAgentPerJti(env, pool)
  {
    if OneAgentPerJti(env, pool) {
      forall steps | Exec(env, steps).Some? && DrawnFrom(pool, Exec(env, steps).value)
        ensures exists order :: Linearization(env, Exec(env, steps).value, order, true)
      {
        CodesLinearize(env, pool, steps);
      }
    }
    if CodesAlwaysLinearize(env, pool) {
      forall p, q | p in pool && q in pool && Passes(env, p.0, p.1) && Passes(env, q.0, q.1)
                    && Prefix(env, p.0, p.1).claims.jti == Prefix(env, q.0, q.1).claims.jti
        ensures Prefix(env, p.0, p.1).claims.agentId == Prefix(env, q.0, q.1).claims.agentId
      {
        SharedJtiForcesAgent(env, pool, p, q);
      }
    }
  }

  /** A run over the pool whose reason codes no sequential order explains. */
  lemma UnexplainedRun(env: Env, pool: Pool, p: (AuthorizeRequest, Millis), q: (AuthorizeRequest, Millis))
    returns (steps: seq<Step>, c: Conf)
    requires p in pool && q in pool && Passes(env, p.0, p.1) && Passes(env, q.0, q.1)
    requires Prefix(env, p.0, p.1).claims.jti == Prefix(env, q.0, q.1).claims.jti
    requires Prefix(env, p.0, p.1).claims.agentId != Prefix(env, q.0, q.1).claims.agentId
    ensures Reaches(env, steps, c) && DrawnFrom(pool, c)
    ensures forall order :: !Linearization(env, c, order, true)
  {
    steps, c := InterleavedRun(env, p.0, p.1, q.0, q.1);
    ThreeDrawnFrom(pool, p, q, c);
    InterleavedHasNoOrders(env, p.0, p.1, q.0, q.1, c);
  }

  lemma ThreeDrawnFrom(pool: Pool, p: (AuthorizeRequest, Millis), q: (AuthorizeRequest, Millis), c: Conf)
    requires p in pool && q in pool && c.calls.Keys == {0, 1, 2}
    requires c.calls[0].op == AuthorizeOp(p.0) && c.calls[0].clock == p.1
    requires c.calls[1].op.RevokeOp?
    requires c.calls[2].op == AuthorizeOp(q.0) && c.calls[2].clock == q.1
    ensures DrawnFrom(pool, c)
  {
  }

  lemma InterleavedHasNoOrders(
    env: Env, r: AuthorizeRequest, nr: Millis, w: AuthorizeRequest, nw: Millis, c: Conf)
    requires Passes(env, r, nr) && Passes(env, w, nw) && Interleaved(env, r, nr, w, nw, c)
    ensures forall order :: !Linearization(env, c, order, true)
  {
    forall order
      ensures !Linearization(env, c, order, true)
    {
      InterleavedHasNoOrder(env, r, nr, w, nw, c, order);
    }
  }

  lemma SharedJtiForcesAgent(env: Env, pool: Pool, p: (AuthorizeRequest, Millis), q: (AuthorizeRequest, Millis))
    requires CodesAlwaysLinearize(env, pool)
    requires p in pool && q in pool && Passes(env, p.0, p.1) && Passes(env, q.0, q.1)
    requires Prefix(env, p.0, p.1).claims.jti == Prefix(env, q.0, q.1).claims.jti
    ensures Prefix(env, p.0, p.1).claims.agentId == Prefix(env, q.0, q.1).claims.agentId
  {
    if Prefix(env, p.0, p.1).claims.agentId != Prefix(env, q.0, q.1).claims.agentId {
      var steps, c := UnexplainedRun(env, pool, p, q);
    }
  }
}
