/**
 The verifier's nine-step cascade over its shared state: the consumed `jti`s and the revoked
 agents. `Decide` is one call run on its own; the class holds the state in place.
 */
module Verifier {
  import opened ByteStrings
  import opened Wire
  import opened Token
  import Framing
  import Authority
  import PathScope
  import Hex

  datatype Env = Env(suite: Suite, key: Bytes)

  datatype Shared = Shared(seen: set<Bytes>, revoked: set<Bytes>)

  /** "rcpt-" */
  const RECEIPT_PREFIX: Bytes := [114, 99, 112, 116, 45]

  function Denied(code: Reason): AuthorizeResponse {
    AuthorizeResponse(Deny, code, None, Some(DenyEvidence))
  }

  function Allowed(claims: Claims): AuthorizeResponse {
    AuthorizeResponse(
      Allow, OK, Some(RECEIPT_PREFIX + claims.jti),
      Some(AllowEvidence(claims.agentId, claims.crh, claims.scope.method_, claims.scope.authority)))
  }

  // ---- Pure checks --------------------------------------------------------------

  function PartsOf(d: RequestDescriptor, body: Digest): Framing.Parts {
    Framing.Parts(d.method_, d.scheme, d.authority, d.path, d.query, body)
  }

  /** The hash of the descriptor's own fields, unless one of its hashes is not lower-case hex. */
  ghost function RecomputeCrh(sha: Bytes -> Digest, d: RequestDescriptor): Option<Bytes> {
    if Hex.DigestOf(d.bodySha256).None? || Hex.DigestOf(d.canonicalRequestHash).None? then None
    else
      Some(Hex.Encode(Framing.CanonicalRequestHash(sha, PartsOf(d, Hex.DigestOf(d.bodySha256).value))))
  }

  predicate OnBehalfOfMatches(claims: Claims, context: WireContext) {
    claims.onBehalfOf.Some? ==> context.onBehalfOf == claims.onBehalfOf
  }

  predicate WorkloadMatches(claims: Claims, context: WireContext) {
    claims.workloadSelector.Some? ==> claims.workloadSelector.value <= context.sandboxId
  }

  predicate InScope(scope: Scope, d: RequestDescriptor) {
    && EqIgnoreCase(scope.method_, d.method_)
    && Authority.AuthorityInScope(d.scheme, d.authority, scope.authority)
    && PathScope.PathInScope(d.path, scope.pathPrefix)
  }

  predicate IntentMatches(claims: Claims, d: RequestDescriptor) {
    claims.crh.Some? ==> claims.crh.value == d.canonicalRequestHash
  }

  // ---- The cascade --------------------------------------------------------------

  datatype Stage = Stop(response: AuthorizeResponse) | Proceed(claims: Claims)

  /** Steps 1 to 4 and the agent comparison of step 5: everything before the revocation lock. */
  ghost function Prefix(env: Env, req: AuthorizeRequest, now: Millis): Stage {
    if DEFAULT_TOKEN_HEADER !in req.credentials then Stop(Denied(TOKEN_MALFORMED))
    else
      match Verify(env.suite, req.credentials[DEFAULT_TOKEN_HEADER], env.key)
      case Err(BadSignature) => Stop(Denied(TOKEN_SIGNATURE_INVALID))
      case Err(Malformed) => Stop(Denied(TOKEN_MALFORMED))
      case Ok(claims) =>
        if req.version != WIRE_VERSION then Stop(Denied(UNSUPPORTED_VERSION))
        else if now > claims.expUnixMs then Stop(Denied(TOKEN_EXPIRED))
        else
          match RecomputeCrh(env.suite.sha, req.request)
          case None => Stop(Denied(DESCRIPTOR_MALFORMED))
          case Some(h) =>
            if h != req.request.canonicalRequestHash then Stop(Denied(CRH_MISMATCH))
            else if claims.agentId != req.context.agentId then Stop(Denied(AGENT_MISMATCH))
            else Proceed(claims)
  }

  /** The rest of step 5 and steps 6 to 8: everything between the two locks. */
  function Middle(req: AuthorizeRequest, claims: Claims): Option<AuthorizeResponse> {
    if !OnBehalfOfMatches(claims, req.context) then Some(Denied(AGENT_MISMATCH))
    else if !WorkloadMatches(claims, req.context) then Some(Denied(WORKLOAD_MISMATCH))
    else if !InScope(claims.scope, req.request) then Some(Denied(INTENT_MISMATCH))
    else if !IntentMatches(claims, req.request) then Some(Denied(INTENT_MISMATCH))
    else None
  }

  /** The tail of a call that passed the prefix, run without interruption. */
  function Tail(st: Shared, req: AuthorizeRequest, claims: Claims): (AuthorizeResponse, Shared) {
    if claims.agentId in st.revoked then (Denied(AGENT_REVOKED), st)
    else if Middle(req, claims).Some? then (Middle(req, claims).value, st)
    else if claims.jti in st.seen then (Denied(TOKEN_REPLAYED), st)
    else (Allowed(claims), st.(seen := st.seen + {claims.jti}))
  }

  /** One whole call on its own, at clock reading `now`. */
  ghost function Decide(env: Env, st: Shared, req: AuthorizeRequest, now: Millis): (AuthorizeResponse, Shared) {
    match Prefix(env, req, now)
    case Stop(response) => (response, st)
    case Proceed(claims) => Tail(st, req, claims)
  }

  /** The verifier's mutable state; each method is one uninterrupted call. */
  class VerifierState {
    const env: Env
    var seenJti: set<Bytes>
    var revokedAgents: set<Bytes>

    ghost function Contents(): Shared
      reads this
    {
      Shared(seenJti, revokedAgents)
    }

    constructor (env: Env)
      ensures this.env == env && Contents() == Shared({}, {})
    {
      this.env := env;
      seenJti, revokedAgents := {}, {};
    }

    method RevokeAgent(agentId: Bytes)
      modifies this`revokedAgents
      ensures Contents() == old(Contents()).(revoked := old(revokedAgents) + {agentId})
    {
      revokedAgents := revokedAgents + {agentId};
    }

    method Authorize(req: AuthorizeRequest, now: Millis) returns (response: AuthorizeResponse)
      modifies this`seenJti
      ensures (response, Contents()) == Decide(env, old(Contents()), req, now)
    {
      if DEFAULT_TOKEN_HEADER !in req.credentials {
        return Denied(TOKEN_MALFORMED);
      }
      var claims: Claims;
      match Verify(env.suite, req.credentials[DEFAULT_TOKEN_HEADER], env.key) {
        case Ok(c) => claims := c;
        case Err(BadSignature) => return Denied(TOKEN_SIGNATURE_INVALID);
        case Err(Malformed) => return Denied(TOKEN_MALFORMED);
      }
      if req.version != WIRE_VERSION {
        return Denied(UNSUPPORTED_VERSION);
      }
      if now > claims.expUnixMs {
        return Denied(TOKEN_EXPIRED);
      }
      var recomputed := ComputeCrh(env.suite.sha, req.request);
      if recomputed.None? {
        return Denied(DESCRIPTOR_MALFORMED);
      } else if recomputed.value != req.request.canonicalRequestHash {
        return Denied(CRH_MISMATCH);
      }
      if claims.agentId != req.context.agentId {
        return Denied(AGENT_MISMATCH);
      }
      if claims.agentId in revokedAgents {
        return Denied(AGENT_REVOKED);
      }
      if claims.onBehalfOf.Some? && req.context.onBehalfOf != claims.onBehalfOf {
        return Denied(AGENT_MISMATCH);
      }
      if claims.workloadSelector.Some? && !(claims.workloadSelector.value <= req.context.sandboxId) {
        return Denied(WORKLOAD_MISMATCH);
      }
      if || !EqIgnoreCase(claims.scope.method_, req.request.method_)
         || !Authority.AuthorityInScope(req.request.scheme, req.request.authority, claims.scope.authority)
         || !PathScope.PathInScope(req.request.path, claims.scope.pathPrefix)
      {
        return Denied(INTENT_MISMATCH);
      }
      if claims.crh.Some? && claims.crh.value != req.request.canonicalRequestHash {
        return Denied(INTENT_MISMATCH);
      }
      if claims.jti in seenJti {
        return Denied(TOKEN_REPLAYED);
      }
      seenJti := seenJti + {claims.jti};
      return Allowed(claims);
    }
  }

  method ComputeCrh(sha: Bytes -> Digest, d: RequestDescriptor) returns (r: Option<Bytes>)
    ensures r == RecomputeCrh(sha, d)
  {
    var body := Hex.DecodeLowerHex32(d.bodySha256);
    if body.None? {
      return None;
    }
    var sent := Hex.DecodeLowerHex32(d.canonicalRequestHash);
    if sent.None? {
      return None;
    }
    var digest := Framing.ComputeRequestHash(sha, PartsOf(d, body.value));
    return Some(Hex.Encode(digest));
  }

  // ---- What the cascade decides ---------------------------------------------------

  datatype Rung = Rung(holds: bool, code: Reason)

  /** Both hashes of the descriptor are the lower-case spelling of some digest. */
  ghost predicate WellFormedHashes(d: RequestDescriptor) {
    exists b: Digest, h: Digest :: Hex.Encode(b) == d.bodySha256 && Hex.Encode(h) == d.canonicalRequestHash
  }

  /** The sent hash is that of the descriptor's own fields. */
  ghost predicate ConsistentHash(sha: Bytes -> Digest, d: RequestDescriptor) {
    exists b: Digest :: Hex.Encode(b) == d.bodySha256 &&
      d.canonicalRequestHash == Hex.Encode(Framing.CanonicalRequestHash(
        sha, Framing.Parts(d.method_, d.scheme, d.authority, d.path, d.query, b)))
  }

  ghost function StaticRungs(env: Env, req: AuthorizeRequest, now: Millis, claims: Claims): seq<Rung> {
    [ Rung(req.version == Ascii("1"), UNSUPPORTED_VERSION),
      Rung(now <= claims.expUnixMs, TOKEN_EXPIRED),
      Rung(WellFormedHashes(req.request), DESCRIPTOR_MALFORMED),
      Rung(ConsistentHash(env.suite.sha, req.request), CRH_MISMATCH),
      Rung(claims.agentId == req.context.agentId, AGENT_MISMATCH) ]
  }

  ghost function StateRungs(st: Shared, req: AuthorizeRequest, claims: Claims): seq<Rung> {
    var d := req.request;
    [ Rung(claims.agentId !in st.revoked, AGENT_REVOKED),
      Rung(claims.onBehalfOf == None || req.context.onBehalfOf == claims.onBehalfOf, AGENT_MISMATCH),
      Rung(claims.workloadSelector == None || claims.workloadSelector.value <= req.context.sandboxId,
           WORKLOAD_MISMATCH),
      Rung(&& EqIgnoreCase(claims.scope.method_, d.method_)
           && Authority.AuthorityInScope(d.scheme, d.authority, claims.scope.authority)
           && PathScope.PathInScope(d.path, claims.scope.pathPrefix), INTENT_MISMATCH),
      Rung(claims.crh == None || claims.crh == Some(d.canonicalRequestHash), INTENT_MISMATCH),
      Rung(claims.jti !in st.seen, TOKEN_REPLAYED) ]
  }

  /** The conditions on a request whose token verifies to `claims`, in the documented order. */
  ghost function Ladder(env: Env, st: Shared, req: AuthorizeRequest, now: Millis, claims: Claims): seq<Rung> {
    StaticRungs(env, req, now, claims) + StateRungs(st, req, claims)
  }

  /** The code of the first rung that does not hold. */
  ghost function FirstFailure(rungs: seq<Rung>): Option<Reason> {
    if rungs == [] then None
    else if !rungs[0].holds then Some(rungs[0].code)
    else FirstFailure(rungs[1..])
  }

  lemma RecomputeMeaning(sha: Bytes -> Digest, d: RequestDescriptor)
    ensures RecomputeCrh(sha, d).Some? <==> WellFormedHashes(d)
    ensures RecomputeCrh(sha, d) == Some(d.canonicalRequestHash) <==> ConsistentHash(sha, d)
  {
    if RecomputeCrh(sha, d) == Some(d.canonicalRequestHash) {
      var b := Hex.DigestOf(d.bodySha256).value;
      assert PartsOf(d, b) == Framing.Parts(d.method_, d.scheme, d.authority, d.path, d.query, b);
      assert Hex.Encode(b) == d.bodySha256;
    }
    if ConsistentHash(sha, d) {
      var b: Digest :| Hex.Encode(b) == d.bodySha256 &&
        d.canonicalRequestHash == Hex.Encode(Framing.CanonicalRequestHash(
          sha, Framing.Parts(d.method_, d.scheme, d.authority, d.path, d.query, b)));
      Hex.DigestOfEncode(b);
      Hex.DigestOfEncode(Framing.CanonicalRequestHash(sha, PartsOf(d, b)));
    }
  }

  lemma {:induction false} FirstFailureOf(rungs: seq<Rung>, n: nat)
    requires n <= |rungs|
    requires forall i | 0 <= i < n :: rungs[i].holds
    ensures n < |rungs| && !rungs[n].holds ==> FirstFailure(rungs) == Some(rungs[n].code)
    ensures n == |rungs| ==> FirstFailure(rungs) == None
  {
    if n > 0 {
      FirstFailureOf(rungs[1..], n - 1);
    }
  }

  lemma {:induction false} FirstFailureAppend(a: seq<Rung>, b: seq<Rung>)
    ensures FirstFailure(a + b) == if FirstFailure(a).Some? then FirstFailure(a) else FirstFailure(b)
  {
    if a == [] {
      assert a + b == b;
    } else {
      assert (a + b)[1..] == a[1..] + b;
      FirstFailureAppend(a[1..], b);
    }
  }

  lemma PrefixFollowsRungs(env: Env, req: AuthorizeRequest, now: Millis, claims: Claims)
    requires DEFAULT_TOKEN_HEADER in req.credentials
    requires Verify(env.suite, req.credentials[DEFAULT_TOKEN_HEADER], env.key) == Ok(claims)
    ensures Prefix(env, req, now) ==
            match FirstFailure(StaticRungs(env, req, now, claims))
            case Some(code) => Stop(Denied(code))
            case None => Proceed(claims)
  {
    RecomputeMeaning(env.suite.sha, req.request);
    WireConstants();
    var rungs := StaticRungs(env, req, now, claims);
    var n := if !rungs[0].holds then 0 else if !rungs[1].holds then 1 else if !rungs[2].holds then 2
             else if !rungs[3].holds then 3 else if !rungs[4].holds then 4 else 5;
    FirstFailureOf(rungs, n);
  }

  lemma TailFollowsRungs(st: Shared, req: AuthorizeRequest, claims: Claims)
    ensures Tail(st, req, claims).0 ==
            match FirstFailure(StateRungs(st, req, claims))
            case Some(code) => Denied(code)
            case None => Allowed(claims)
  {
    var rungs := StateRungs(st, req, claims);
    var n := if !rungs[0].holds then 0 else if !rungs[1].holds then 1 else if !rungs[2].holds then 2
             else if !rungs[3].holds then 3 else if !rungs[4].holds then 4
             else if !rungs[5].holds then 5 else 6;
    FirstFailureOf(rungs, n);
  }

  /**
   The response to a verified token is fixed by the first condition that fails, in the
   documented order; when none fails it is the allow for these claims.
   */
  lemma DecideFollowsLadder(env: Env, st: Shared, req: AuthorizeRequest, now: Millis, claims: Claims)
    requires DEFAULT_TOKEN_HEADER in req.credentials
    requires Verify(env.suite, req.credentials[DEFAULT_TOKEN_HEADER], env.key) == Ok(claims)
    ensures Decide(env, st, req, now).0 ==
            match FirstFailure(Ladder(env, st, req, now, claims))
            case Some(code) => Denied(code)
            case None => Allowed(claims)
  {
    PrefixFollowsRungs(env, req, now, claims);
    TailFollowsRungs(st, req, claims);
    FirstFailureAppend(StaticRungs(env, req, now, claims), StateRungs(st, req, claims));
  }

  ghost function FirstFalse(rungs: seq<Rung>): (n: nat)
    ensures n <= |rungs|
    ensures forall i | 0 <= i < n :: rungs[i].holds
    ensures n < |rungs| ==> !rungs[n].holds
  {
    if rungs == [] || !rungs[0].holds then 0 else 1 + FirstFalse(rungs[1..])
  }

  /** A call is allowed exactly when its token verifies and every condition holds. */
  lemma AllowExactly(env: Env, st: Shared, req: AuthorizeRequest, now: Millis)
    ensures Decide(env, st, req, now).0.decision == Allow <==>
            && DEFAULT_TOKEN_HEADER in req.credentials
            && var token := req.credentials[DEFAULT_TOKEN_HEADER];
               exists claims ::
                 && Verify(env.suite, token, env.key) == Ok(claims)
                 && forall rung | rung in Ladder(env, st, req, now, claims) :: rung.holds
  {
    if DEFAULT_TOKEN_HEADER in req.credentials {
      var v := Verify(env.suite, req.credentials[DEFAULT_TOKEN_HEADER], env.key);
      if v.Ok? {
        var claims := v.value;
        DecideFollowsLadder(env, st, req, now, claims);
        var rungs := Ladder(env, st, req, now, claims);
        var n := FirstFalse(rungs);
        FirstFailureOf(rungs, n);
        assert n < |rungs| ==> rungs[n] in rungs;
      }
    }
  }

  /**
   The answer when there is no token to trust: a signature that is not the MAC of its body comes
   before every other check; no header, no token text and an undecodable body are malformed.
   The state stays as it was.
   */
  lemma UntrustedTokens(env: Env, st: Shared, req: AuthorizeRequest, now: Millis, body: Bytes, sig: Bytes)
    ensures Ascii("x-hawcx-haap-token") !in req.credentials ==>
              Decide(env, st, req, now) == (Denied(TOKEN_MALFORMED), st)
    ensures Ascii("x-hawcx-haap-token") in req.credentials ==>
              var token := req.credentials[Ascii("x-hawcx-haap-token")];
              && (!IsSpelled(token) ==> Decide(env, st, req, now) == (Denied(TOKEN_MALFORMED), st))
              && (token == Spell(body, sig) && sig != env.suite.mac(env.key, body) ==>
                    Decide(env, st, req, now) == (Denied(TOKEN_SIGNATURE_INVALID), st))
              && (token == Spell(body, sig) && sig == env.suite.mac(env.key, body) && env.suite.decode(body) == None ==>
                    Decide(env, st, req, now) == (Denied(TOKEN_MALFORMED), st))
  {
    WireConstants();
    VerifySpelled(env.suite, body, sig, env.key);
    if DEFAULT_TOKEN_HEADER in req.credentials {
      VerifyUnspelled(env.suite, req.credentials[DEFAULT_TOKEN_HEADER], env.key);
    }
  }

  /** An allow says OK, names its `jti` in the receipt, reports the grant, and consumes the `jti`. */
  predicate ReadsAllowed(r: AuthorizeResponse, st: Shared, after: Shared, claims: Claims) {
    && r.decision == Allow && r.reasonCode == OK
    && r.receiptId == Some(Ascii("rcpt-") + claims.jti)
    && r.evidence == Some(AllowEvidence(claims.agentId, claims.crh, claims.scope.method_, claims.scope.authority))
    && after.seen == st.seen + {claims.jti} && after.revoked == st.revoked
  }

  /** A denial gives its reason, no receipt, and changes nothing. */
  predicate ReadsDenied(r: AuthorizeResponse, st: Shared, after: Shared) {
    && r.decision == Deny && r.reasonCode != OK
    && r.receiptId == None && r.evidence == Some(DenyEvidence)
    && after == st
  }

  /** The answer reads as a denial, or as the allow of the verified token. */
  predicate Reads(env: Env, req: AuthorizeRequest, st: Shared, r: AuthorizeResponse, after: Shared) {
    if r.decision == Deny then ReadsDenied(r, st, after)
    else
      && Ascii("x-hawcx-haap-token") in req.credentials
      && var v := Verify(env.suite, req.credentials[Ascii("x-hawcx-haap-token")], env.key);
         v.Ok? && ReadsAllowed(r, st, after, v.value)
  }

  /** What every answer of the verifier says and does. */
  lemma AnswersRead(env: Env, st: Shared, req: AuthorizeRequest, now: Millis)
    ensures Reads(env, req, st, Decide(env, st, req, now).0, Decide(env, st, req, now).1)
  {
    WireConstants();
    assert RECEIPT_PREFIX == Ascii("rcpt-");
  }

  // ---- Requests the verifier cannot tell apart -------------------------------------

  /** The canonical form of a descriptor, if its body hash is well formed. */
  ghost function CanonicalOf(d: RequestDescriptor): Option<Framing.Canonical> {
    match Hex.DigestOf(d.bodySha256)
    case None => None
    case Some(body) => Some(Framing.Canonicalize(PartsOf(d, body)))
  }

  /** The token does not pin a workload (or does not verify at all). */
  predicate NoWorkloadSelector(env: Env, req: AuthorizeRequest) {
    DEFAULT_TOKEN_HEADER in req.credentials ==>
      var v := Verify(env.suite, req.credentials[DEFAULT_TOKEN_HEADER], env.key);
      v.Ok? ==> v.value.workloadSelector == None
  }

  /**
   Two requests with the same canonical descriptor and sent hash, token, principal and
   version. The sandbox may differ if no workload is pinned; the advisory fields (body
   length, class, names, rule, revision, request id, receive time) may always differ.
   */
  ghost predicate Indistinguishable(env: Env, a: AuthorizeRequest, b: AuthorizeRequest) {
    && a.version == b.version
    && a.credentials == b.credentials
    && CanonicalOf(a.request) == CanonicalOf(b.request)
    && a.request.canonicalRequestHash == b.request.canonicalRequestHash
    && a.context.agentId == b.context.agentId
    && a.context.onBehalfOf == b.context.onBehalfOf
    && (a.context.sandboxId == b.context.sandboxId || NoWorkloadSelector(env, a))
  }

  lemma PrefixCongruent(env: Env, a: AuthorizeRequest, b: AuthorizeRequest, now: Millis)
    requires Indistinguishable(env, a, b)
    ensures Prefix(env, a, now) == Prefix(env, b, now)
  {
  }

  lemma InScopeCongruent(scope: Scope, a: RequestDescriptor, b: RequestDescriptor)
    requires CanonicalOf(a) == CanonicalOf(b) && CanonicalOf(a).Some?
    ensures InScope(scope, a) == InScope(scope, b)
  {
    EqIgnoreCaseIsFolding(scope.method_, a.method_);
    EqIgnoreCaseIsFolding(scope.method_, b.method_);
  }

  lemma MiddleCongruent(env: Env, a: AuthorizeRequest, b: AuthorizeRequest, now: Millis, claims: Claims)
    requires Indistinguishable(env, a, b)
    requires Prefix(env, a, now) == Proceed(claims)
    ensures Middle(a, claims) == Middle(b, claims)
  {
    InScopeCongruent(claims.scope, a.request, b.request);
  }

  /** Indistinguishable requests get the same response and leave the same state. */
  lemma DecideCongruent(env: Env, st: Shared, a: AuthorizeRequest, b: AuthorizeRequest, now: Millis)
    requires Indistinguishable(env, a, b)
    ensures Decide(env, st, a, now) == Decide(env, st, b, now)
  {
    PrefixCongruent(env, a, b, now);
    if Prefix(env, a, now).Proceed? {
      MiddleCongruent(env, a, b, now, Prefix(env, a, now).claims);
    }
  }
}
