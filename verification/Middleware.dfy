/**
 The egress middleware: local preconditions, the descriptor it sends, and the resolution of
 the verifier's outcome through mode and fail policy. The verifier call is a parameter.
 */
module Middleware {
  import opened ByteStrings
  import opened Wire
  import opened Headers
  import Framing
  import Hex
  import V = Verifier

  datatype Mode = Enforce | Observe

  datatype FailPolicy = Closed | Open

  datatype Config = Config(
    mode: Mode,
    fail: FailPolicy,
    tokenHeader: Bytes,
    forwardHeaders: seq<Bytes>,
    stripTokenHeader: bool,
    maxBodyBytes: nat)
  {
    function Normalized(): Config {
      this.(tokenHeader := Lower(tokenHeader),
            forwardHeaders := seq(|forwardHeaders|, i requires 0 <= i < |forwardHeaders| => Lower(forwardHeaders[i])))
    }
  }

  datatype RequestContext = RequestContext(
    agentId: Bytes,
    onBehalfOf: Option<Bytes>,
    agentClass: Option<Bytes>,
    sandboxId: Bytes,
    sandboxName: Option<Bytes>,
    endpointRule: Bytes,
    policyRevision: Option<Bytes>,
    requestId: Option<Bytes>)

  datatype EgressRequest = EgressRequest(
    method_: Bytes,
    scheme: Bytes,
    authority: Bytes,
    path: Bytes,
    query: Bytes,
    headers: seq<Header>,
    body: Bytes)

  datatype BlockEvidence = LocalEvidence | FailClosedEvidence | VerifierEvidence(evidence: Option<Evidence>)

  datatype DenyVerdict = DenyVerdict(
    httpStatus: nat, reasonCode: Reason, receiptId: Option<Bytes>, evidence: BlockEvidence)

  datatype EgressDecision = Continue(stripHeaders: seq<Bytes>) | Block(verdict: DenyVerdict)

  /** Time stamps and latency are not modelled. */
  datatype AuditEvent = AuditEvent(
    agentId: Bytes,
    sandboxId: Bytes,
    endpointRule: Bytes,
    method_: Bytes,
    authority: Bytes,
    path: Bytes,
    canonicalRequestHash: Option<Bytes>,
    decision: Decision,
    enforced: bool,
    wouldDeny: bool,
    reasonCode: Reason,
    receiptId: Option<Bytes>,
    degraded: bool)

  datatype VerifierOutcome = Verdict(response: AuthorizeResponse) | Timeout | Unavailable | Malformed

  // ---- Configuration -------------------------------------------------------------

  method NormalizeConfig(cfg: Config) returns (r: Config)
    ensures r == cfg.Normalized()
    ensures LowerOf(r.tokenHeader, cfg.tokenHeader)
    ensures |r.forwardHeaders| == |cfg.forwardHeaders|
    ensures forall i | 0 <= i < |r.forwardHeaders| :: LowerOf(r.forwardHeaders[i], cfg.forwardHeaders[i])
    ensures r.mode == cfg.mode && r.fail == cfg.fail
    ensures r.stripTokenHeader == cfg.stripTokenHeader && r.maxBodyBytes == cfg.maxBodyBytes
  {
    var headers := cfg.forwardHeaders;
    var i := 0;
    while i < |headers|
      invariant 0 <= i <= |headers| == |cfg.forwardHeaders|
      invariant forall j | 0 <= j < i :: headers[j] == Lower(cfg.forwardHeaders[j])
      invariant forall j | i <= j < |headers| :: headers[j] == cfg.forwardHeaders[j]
    {
      headers := headers[i := Lower(headers[i])];
      i := i + 1;
    }
    r := cfg.(tokenHeader := Lower(cfg.tokenHeader), forwardHeaders := headers);
  }

  // ---- The wire request ------------------------------------------------------------

  /** The token under its header; each other configured name that is present, with its first value. */
  function Credentials(cfg: Config, headers: seq<Header>, token: Bytes): map<Bytes, Bytes> {
    (map name | name in cfg.forwardHeaders && FindHeader(headers, name).Some? :: FindHeader(headers, name).value)
    [cfg.tokenHeader := token]
  }

  /** One more configured name adds its first value, unless it names the token header. */
  lemma CredentialsNext(cfg: Config, names: seq<Bytes>, name: Bytes, headers: seq<Header>, token: Bytes)
    ensures var before := Credentials(cfg.(forwardHeaders := names), headers, token);
            var v := FindHeader(headers, name);
            Credentials(cfg.(forwardHeaders := names + [name]), headers, token) ==
            if name != cfg.tokenHeader && v.Some? then before[name := v.value] else before
  {
  }

  method BuildCredentials(cfg: Config, headers: seq<Header>, token: Bytes) returns (creds: map<Bytes, Bytes>)
    ensures creds == Credentials(cfg, headers, token)
  {
    creds := map[cfg.tokenHeader := token];
    var i := 0;
    while i < |cfg.forwardHeaders|
      invariant 0 <= i <= |cfg.forwardHeaders|
      invariant creds == Credentials(cfg.(forwardHeaders := cfg.forwardHeaders[..i]), headers, token)
    {
      var name := cfg.forwardHeaders[i];
      CredentialsNext(cfg, cfg.forwardHeaders[..i], name, headers, token);
      assert cfg.forwardHeaders[..i + 1] == cfg.forwardHeaders[..i] + [name];
      if name != cfg.tokenHeader {
        var v := FindHeader(headers, name);
        if v.Some? {
          creds := creds[name := v.value];
        }
      }
      i := i + 1;
    }
    assert cfg.forwardHeaders[..i] == cfg.forwardHeaders;
  }

  function EgressParts(sha: Bytes -> Digest, req: EgressRequest): Framing.Parts {
    Framing.Parts(req.method_, req.scheme, req.authority, req.path, req.query, sha(req.body))
  }

  function EgressHash(sha: Bytes -> Digest, req: EgressRequest): Bytes {
    Hex.Encode(Framing.CanonicalRequestHash(sha, EgressParts(sha, req)))
  }

  function WireRequest(
    sha: Bytes -> Digest, cfg: Config, ctx: RequestContext, req: EgressRequest, token: Bytes, receivedAt: int
  ): AuthorizeRequest {
    AuthorizeRequest(
      WIRE_VERSION,
      RequestDescriptor(Upper(req.method_), Lower(req.scheme), req.authority, req.path, req.query,
                        Hex.Encode(sha(req.body)), |req.body|, EgressHash(sha, req)),
      WireContext(ctx.agentId, ctx.onBehalfOf, ctx.agentClass, ctx.sandboxId, ctx.sandboxName,
                  ctx.endpointRule, ctx.policyRevision, ctx.requestId, receivedAt),
      Credentials(cfg, req.headers, token))
  }

  /** Refused on the spot, or ready to ask the verifier. */
  datatype Attempt = Refused(code: Reason) | Asking(wire: AuthorizeRequest)

  function Begin(
    sha: Bytes -> Digest, cfg: Config, ctx: RequestContext, req: EgressRequest, receivedAt: int
  ): Attempt {
    match LookupOf(Matches(req.headers, cfg.tokenHeader))
    case Missing => Refused(TOKEN_MISSING)
    case Many => Refused(TOKEN_AMBIGUOUS)
    case One(token) =>
      if |req.body| > cfg.maxBodyBytes then Refused(REQUEST_TOO_LARGE)
      else Asking(WireRequest(sha, cfg, ctx, req, token, receivedAt))
  }

  // ---- Resolution --------------------------------------------------------------------

  /** Why a request stands as it does, before mode and fail policy. */
  datatype Finding =
    | Cleared(allow: AuthorizeResponse)
    | LocalDeny(code: Reason)
    | VerdictDeny(deny: AuthorizeResponse)
    | Failure(failure: Reason)

  function FindingOf(outcome: VerifierOutcome): Finding {
    match outcome
    case Verdict(v) => if v.decision.Allow? then Cleared(v) else VerdictDeny(v)
    case Timeout => Failure(VERIFIER_TIMEOUT)
    case Unavailable => Failure(VERIFIER_UNAVAILABLE)
    case Malformed => Failure(VERIFIER_MALFORMED_RESPONSE)
  }

  function CodeOf(f: Finding): Reason {
    match f
    case Cleared(v) => v.reasonCode
    case LocalDeny(code) => code
    case VerdictDeny(v) => v.reasonCode
    case Failure(code) => code
  }

  function ReceiptOf(f: Finding): Option<Bytes> {
    match f
    case Cleared(v) => v.receiptId
    case VerdictDeny(v) => v.receiptId
    case _ => None
  }

  predicate Blocks(cfg: Config, f: Finding) {
    cfg.mode.Enforce? && !f.Cleared? && (f.Failure? ==> cfg.fail.Closed?)
  }

  function ContinueDecision(cfg: Config): EgressDecision {
    Continue(if cfg.stripTokenHeader then [cfg.tokenHeader] else [])
  }

  function EvidenceOf(f: Finding): BlockEvidence {
    match f
    case VerdictDeny(v) => VerifierEvidence(v.evidence)
    case Failure(_) => FailClosedEvidence
    case _ => LocalEvidence
  }

  /** The decision and the audit line as one table over finding, mode and fail policy. */
  function Resolve(cfg: Config, audit: AuditEvent, f: Finding): (EgressDecision, AuditEvent) {
    var status := if f.Failure? then 503 else 403;
    var decision :=
      if Blocks(cfg, f) then Block(DenyVerdict(status, CodeOf(f), ReceiptOf(f), EvidenceOf(f)))
      else ContinueDecision(cfg);
    (decision,
     audit.(decision := if Blocks(cfg, f) then Deny else Allow,
            wouldDeny := if f.Failure? && !Blocks(cfg, f) then cfg.mode.Observe?
                         else audit.wouldDeny || (cfg.mode.Observe? && !f.Cleared?),
            reasonCode := CodeOf(f),
            receiptId := if f.Cleared? || f.VerdictDeny? then ReceiptOf(f) else audit.receiptId,
            degraded := audit.degraded || f.Failure?))
  }

  /** The audit line before anything is known. */
  function InitialAudit(cfg: Config, ctx: RequestContext, req: EgressRequest): AuditEvent {
    AuditEvent(ctx.agentId, ctx.sandboxId, ctx.endpointRule, Upper(req.method_), req.authority, req.path,
               None, Deny, cfg.mode.Enforce?, false, Extension([]), None, false)
  }

  method ResolveLocalDeny(cfg: Config, initial: AuditEvent, code: Reason)
    returns (decision: EgressDecision, audit: AuditEvent)
    ensures (decision, audit) == Resolve(cfg, initial, LocalDeny(code))
  {
    audit := initial.(reasonCode := code);
    match cfg.mode {
      case Enforce =>
        audit := audit.(decision := Deny);
        decision := Block(DenyVerdict(403, code, None, LocalEvidence));
      case Observe =>
        audit := audit.(decision := Allow, wouldDeny := true);
        decision := ContinueDecision(cfg);
    }
  }

  /** The caller has already put the verdict's code and receipt into the audit line. */
  method ResolveVerdictDeny(cfg: Config, initial: AuditEvent, v: AuthorizeResponse)
    returns (decision: EgressDecision, audit: AuditEvent)
    ensures var (resolved, line) := Resolve(cfg, initial, VerdictDeny(v));
            && decision == resolved
            && audit == line.(reasonCode := initial.reasonCode, receiptId := initial.receiptId)
  {
    audit := initial;
    match cfg.mode {
      case Enforce =>
        audit := audit.(decision := Deny);
        decision := Block(DenyVerdict(403, v.reasonCode, v.receiptId, VerifierEvidence(v.evidence)));
      case Observe =>
        audit := audit.(decision := Allow, wouldDeny := true);
        decision := ContinueDecision(cfg);
    }
  }

  method ResolveVerifierFailure(cfg: Config, initial: AuditEvent, code: Reason)
    returns (decision: EgressDecision, audit: AuditEvent)
    ensures (decision, audit) == Resolve(cfg, initial, Failure(code))
  {
    audit := initial.(reasonCode := code, degraded := true);
    if cfg.mode.Enforce? && cfg.fail.Closed? {
      audit := audit.(decision := Deny);
      decision := Block(DenyVerdict(503, code, None, FailClosedEvidence));
    } else {
      audit := audit.(decision := Allow, wouldDeny := cfg.mode.Observe?);
      decision := ContinueDecision(cfg);
    }
  }

  // ---- Evaluation ----------------------------------------------------------------------

  /** The audit line once the wire request is built. */
  function AskingAudit(cfg: Config, ctx: RequestContext, req: EgressRequest, wire: AuthorizeRequest): AuditEvent {
    InitialAudit(cfg, ctx, req).(canonicalRequestHash := Some(wire.request.canonicalRequestHash))
  }

  /** The whole evaluation, with `ask` giving the outcome of the verifier round trip. */
  function Evaluation(
    sha: Bytes -> Digest, cfg: Config, ctx: RequestContext, req: EgressRequest, receivedAt: int,
    ask: AuthorizeRequest -> VerifierOutcome
  ): (EgressDecision, AuditEvent) {
    match Begin(sha, cfg, ctx, req, receivedAt)
    case Refused(code) => Resolve(cfg, InitialAudit(cfg, ctx, req), LocalDeny(code))
    case Asking(wire) => Resolve(cfg, AskingAudit(cfg, ctx, req, wire), FindingOf(ask(wire)))
  }

  method Evaluate(
    sha: Bytes -> Digest, cfg: Config, ctx: RequestContext, req: EgressRequest, receivedAt: int,
    ask: AuthorizeRequest -> VerifierOutcome
  ) returns (decision: EgressDecision, audit: AuditEvent)
    ensures (decision, audit) == Evaluation(sha, cfg, ctx, req, receivedAt, ask)
  {
    audit := InitialAudit(cfg, ctx, req);
    var lookup := FindTokenHeader(req.headers, cfg.tokenHeader);
    var token: Bytes;
    match lookup {
      case One(t) => token := t;
      case Missing =>
        decision, audit := ResolveLocalDeny(cfg, audit, TOKEN_MISSING);
        return;
      case Many =>
        decision, audit := ResolveLocalDeny(cfg, audit, TOKEN_AMBIGUOUS);
        return;
    }
    if |req.body| > cfg.maxBodyBytes {
      decision, audit := ResolveLocalDeny(cfg, audit, REQUEST_TOO_LARGE);
      return;
    }
    var bodySha := sha(req.body);
    var crh := Framing.ComputeRequestHash(sha, EgressParts(sha, req));
    var crhHex := Hex.Encode(crh);
    audit := audit.(canonicalRequestHash := Some(crhHex));
    var creds := BuildCredentials(cfg, req.headers, token);
    var wire := AuthorizeRequest(
      WIRE_VERSION,
      RequestDescriptor(Upper(req.method_), Lower(req.scheme), req.authority, req.path, req.query,
                        Hex.Encode(bodySha), |req.body|, crhHex),
      WireContext(ctx.agentId, ctx.onBehalfOf, ctx.agentClass, ctx.sandboxId, ctx.sandboxName,
                  ctx.endpointRule, ctx.policyRevision, ctx.requestId, receivedAt),
      creds);
    match ask(wire) {
      case Verdict(v) =>
        audit := audit.(reasonCode := v.reasonCode, receiptId := v.receiptId);
        match v.decision {
          case Allow =>
            audit := audit.(decision := Allow);
            decision := ContinueDecision(cfg);
          case Deny =>
            decision, audit := ResolveVerdictDeny(cfg, audit, v);
        }
      case Timeout => decision, audit := ResolveVerifierFailure(cfg, audit, VERIFIER_TIMEOUT);
      case Unavailable => decision, audit := ResolveVerifierFailure(cfg, audit, VERIFIER_UNAVAILABLE);
      case Malformed => decision, audit := ResolveVerifierFailure(cfg, audit, VERIFIER_MALFORMED_RESPONSE);
    }
  }

  // ---- What the middleware promises ------------------------------------------------------

  /** The descriptor on the wire hashes to the hash sent with it: its hash checks never fail. */
  lemma DescriptorIsConsistent(
    sha: Bytes -> Digest, cfg: Config, ctx: RequestContext, req: EgressRequest, token: Bytes, receivedAt: int)
    ensures var d := WireRequest(sha, cfg, ctx, req, token, receivedAt).request;
            V.RecomputeCrh(sha, d) == Some(d.canonicalRequestHash)
  {
    var d := WireRequest(sha, cfg, ctx, req, token, receivedAt).request;
    var parts := EgressParts(sha, req);
    Hex.DigestOfEncode(sha(req.body));
    Hex.DigestOfEncode(Framing.CanonicalRequestHash(sha, parts));
    assert V.PartsOf(d, sha(req.body)) == Framing.Respelled(parts);
    Framing.CanonicalizeRespelled(parts);
  }

  /** The operator listed this name, in any case, among the forward headers. */
  predicate Forwards(written: Config, name: Bytes) {
    exists f | f in written.forwardHeaders :: name == Lower(f)
  }

  /**
   What the verifier finds in the credentials, for any configuration as written by the
   operator: the unique token under the lower-case token header, never overridden, and under
   every other configured name the first header of that name.
   */
  lemma CredentialsAgree(
    sha: Bytes -> Digest, written: Config, ctx: RequestContext, req: EgressRequest, receivedAt: int)
    requires Begin(sha, written.Normalized(), ctx, req, receivedAt).Asking?
    ensures var creds := Begin(sha, written.Normalized(), ctx, req, receivedAt).wire.credentials;
            && Matches(req.headers, written.tokenHeader) == [creds[Lower(written.tokenHeader)]]
            && (forall name :: name in creds && name != Lower(written.tokenHeader) <==>
                  && name != Lower(written.tokenHeader)
                  && Forwards(written, name)
                  && Matches(req.headers, name) != [])
            && (forall name | name in creds && name != Lower(written.tokenHeader) ::
                  creds[name] == Matches(req.headers, name)[0])
  {
    var cfg := written.Normalized();
    var creds := Begin(sha, cfg, ctx, req, receivedAt).wire.credentials;
    MatchesFold(req.headers, written.tokenHeader);
    var values := Matches(req.headers, cfg.tokenHeader);
    assert values == [values[0]];
    NormalizedNames(written);
    forall name
      ensures FindHeader(req.headers, name) ==
              if Matches(req.headers, name) == [] then None else Some(Matches(req.headers, name)[0])
    {
      FindHeaderIsFirst(req.headers, name);
    }
  }

  lemma NormalizedNames(written: Config)
    ensures forall name :: name in written.Normalized().forwardHeaders <==> Forwards(written, name)
  {
    var names := written.Normalized().forwardHeaders;
    forall name
      ensures name in names <==> Forwards(written, name)
    {
      if name in names {
        var i :| 0 <= i < |names| && names[i] == name;
        assert written.forwardHeaders[i] in written.forwardHeaders;
      }
      if f :| f in written.forwardHeaders && name == Lower(f) {
        var i :| 0 <= i < |written.forwardHeaders| && written.forwardHeaders[i] == f;
        assert names[i] == name;
      }
    }
  }

  lemma {:induction false} MatchesFold(headers: seq<Header>, name: Bytes)
    ensures Matches(headers, Lower(name)) == Matches(headers, name)
  {
    if headers != [] {
      MatchesFold(headers[1..], name);
      EqIgnoreCaseIsFolding(headers[0].0, name);
      EqIgnoreCaseIsFolding(headers[0].0, Lower(name));
      CaseIdempotent(name);
    }
  }

  /** With stripping on, nothing of the token header egresses and every other header does, in order. */
  lemma StrippingRemovesTheToken(written: Config, headers: seq<Header>, name: Bytes)
    requires written.stripTokenHeader
    ensures var egress := RemoveAll(headers, ContinueDecision(written.Normalized()).stripHeaders);
            Matches(egress, name) ==
            if EqIgnoreCase(written.tokenHeader, name) then [] else Matches(headers, name)
  {
    var names := ContinueDecision(written.Normalized()).stripHeaders;
    RemoveAllMatches(headers, names, name);
    assert names == [Lower(written.tokenHeader)];
    EqIgnoreCaseIsFolding(written.tokenHeader, name);
    EqIgnoreCaseIsFolding(Lower(written.tokenHeader), name);
    CaseIdempotent(written.tokenHeader);
    assert names[0] in names;
  }

  function Observing(cfg: Config): Config {
    cfg.(mode := Observe)
  }

  function EnforcingClosed(cfg: Config): Config {
    cfg.(mode := Enforce, fail := Closed)
  }

  /**
   Observe mode never blocks and predicts enforcement: the flag is raised exactly when
   enforce/fail-closed would block, and everything else in the audit line is the same.
   */
  lemma ObservePredictsEnforce(
    sha: Bytes -> Digest, cfg: Config, ctx: RequestContext, req: EgressRequest, receivedAt: int,
    ask: AuthorizeRequest -> VerifierOutcome)
    ensures var (observed, seen) := Evaluation(sha, Observing(cfg), ctx, req, receivedAt, ask);
            var (enforced, told) := Evaluation(sha, EnforcingClosed(cfg), ctx, req, receivedAt, ask);
            && observed.Continue?
            && (seen.wouldDeny <==> enforced.Block?)
            && seen == told.(decision := Allow, enforced := false, wouldDeny := enforced.Block?)
  {
  }

  /** A request that reaches the verifier: one token, and a body within the limit. */
  predicate Asks(cfg: Config, req: EgressRequest) {
    |Matches(req.headers, cfg.tokenHeader)| == 1 && |req.body| <= cfg.maxBodyBytes
  }

  lemma AsksIsAsking(sha: Bytes -> Digest, cfg: Config, ctx: RequestContext, req: EgressRequest, receivedAt: int)
    ensures Begin(sha, cfg, ctx, req, receivedAt).Asking? <==> Asks(cfg, req)
  {
  }

  function Let(cfg: Config): EgressDecision {
    Continue(if cfg.stripTokenHeader then [cfg.tokenHeader] else [])
  }

  function Refuse(code: Reason): EgressDecision {
    Block(DenyVerdict(403, code, None, LocalEvidence))
  }

  /** A verifier that gave no verdict: 503 if the middleware fails closed, otherwise the request passes. */
  function Unanswered(cfg: Config, code: Reason): EgressDecision {
    if cfg.fail == Closed then Block(DenyVerdict(503, code, None, FailClosedEvidence)) else Let(cfg)
  }

  /**
   Enforce mode under either fail policy: refusals and denials block with 403 and their code, an
   allow continues, and only a missing verdict depends on the fail policy.
   */
  lemma EnforceDecides(
    sha: Bytes -> Digest, cfg: Config, ctx: RequestContext, req: EgressRequest, receivedAt: int,
    ask: AuthorizeRequest -> VerifierOutcome)
    requires cfg.mode == Enforce
    ensures var (decision, _) := Evaluation(sha, cfg, ctx, req, receivedAt, ask);
            var tokens := Matches(req.headers, cfg.tokenHeader);
            && (|tokens| == 0 ==> decision == Refuse(TOKEN_MISSING))
            && (|tokens| > 1 ==> decision == Refuse(TOKEN_AMBIGUOUS))
            && (|tokens| == 1 && |req.body| > cfg.maxBodyBytes ==> decision == Refuse(REQUEST_TOO_LARGE))
    ensures var (decision, _) := Evaluation(sha, cfg, ctx, req, receivedAt, ask);
            Asks(cfg, req) ==>
              && Begin(sha, cfg, ctx, req, receivedAt).Asking?
              && match ask(Begin(sha, cfg, ctx, req, receivedAt).wire)
                 case Verdict(v) =>
                   decision == (if v.decision == Allow then Let(cfg)
                                else Block(DenyVerdict(403, v.reasonCode, v.receiptId, VerifierEvidence(v.evidence))))
                 case Timeout => decision == Unanswered(cfg, VERIFIER_TIMEOUT)
                 case Unavailable => decision == Unanswered(cfg, VERIFIER_UNAVAILABLE)
                 case Malformed => decision == Unanswered(cfg, VERIFIER_MALFORMED_RESPONSE)
  {
  }

  /** Observe mode lets everything pass. */
  lemma ObserveContinues(
    sha: Bytes -> Digest, cfg: Config, ctx: RequestContext, req: EgressRequest, receivedAt: int,
    ask: AuthorizeRequest -> VerifierOutcome)
    requires cfg.mode == Observe
    ensures Evaluation(sha, cfg, ctx, req, receivedAt, ask).0 == Let(cfg)
  {
  }

  /** The verifier's outcome, or none if it is not asked. */
  function OutcomeOf(
    sha: Bytes -> Digest, cfg: Config, ctx: RequestContext, req: EgressRequest, receivedAt: int,
    ask: AuthorizeRequest -> VerifierOutcome): Option<VerifierOutcome>
  {
    match Begin(sha, cfg, ctx, req, receivedAt)
    case Refused(_) => None
    case Asking(wire) => Some(ask(wire))
  }

  /** Who asked for what, under which hash, and how it was resolved: the whole audit line. */
  lemma AuditRecords(
    sha: Bytes -> Digest, cfg: Config, ctx: RequestContext, req: EgressRequest, receivedAt: int,
    ask: AuthorizeRequest -> VerifierOutcome)
    ensures var a := Evaluation(sha, cfg, ctx, req, receivedAt, ask).1;
            && a.agentId == ctx.agentId && a.sandboxId == ctx.sandboxId && a.endpointRule == ctx.endpointRule
            && UpperOf(a.method_, req.method_) && a.authority == req.authority && a.path == req.path
            && (a.enforced <==> cfg.mode == Enforce)
    ensures var a := Evaluation(sha, cfg, ctx, req, receivedAt, ask).1;
            var parts := Framing.Parts(req.method_, req.scheme, req.authority, req.path, req.query, sha(req.body));
            var outcome := OutcomeOf(sha, cfg, ctx, req, receivedAt, ask);
            var allowed := outcome.Some? && outcome.value.Verdict? && outcome.value.response.decision == Allow;
            && (outcome.Some? <==> Asks(cfg, req))
            && a.canonicalRequestHash ==
               (if Asks(cfg, req) then Some(Hex.Encode(Framing.CanonicalRequestHash(sha, parts))) else None)
            && (a.wouldDeny <==> cfg.mode == Observe && !allowed)
            && (a.degraded <==> outcome.Some? && !outcome.value.Verdict?)
            && a.receiptId ==
               (if outcome.Some? && outcome.value.Verdict? then outcome.value.response.receiptId else None)
    ensures var a := Evaluation(sha, cfg, ctx, req, receivedAt, ask).1;
            a.reasonCode ==
            match OutcomeOf(sha, cfg, ctx, req, receivedAt, ask)
            case Some(Verdict(v)) => v.reasonCode
            case Some(Timeout) => VERIFIER_TIMEOUT
            case Some(Unavailable) => VERIFIER_UNAVAILABLE
            case Some(Malformed) => VERIFIER_MALFORMED_RESPONSE
            case None =>
              if |Matches(req.headers, cfg.tokenHeader)| == 0 then TOKEN_MISSING
              else if |Matches(req.headers, cfg.tokenHeader)| > 1 then TOKEN_AMBIGUOUS
              else REQUEST_TOO_LARGE
  {
    FoldsAreAscii(req.method_);
  }

  /** What the verifier is told of the request and its context. */
  lemma WireCarries(sha: Bytes -> Digest, cfg: Config, ctx: RequestContext, req: EgressRequest, receivedAt: int)
    requires Begin(sha, cfg, ctx, req, receivedAt).Asking?
    ensures var wire := Begin(sha, cfg, ctx, req, receivedAt).wire;
            && wire.version == Ascii("1")
            && wire.context == WireContext(
                 ctx.agentId, ctx.onBehalfOf, ctx.agentClass, ctx.sandboxId, ctx.sandboxName, ctx.endpointRule,
                 ctx.policyRevision, ctx.requestId, receivedAt)
    ensures var d := Begin(sha, cfg, ctx, req, receivedAt).wire.request;
            var parts := Framing.Parts(req.method_, req.scheme, req.authority, req.path, req.query, sha(req.body));
            && UpperOf(d.method_, req.method_) && LowerOf(d.scheme, req.scheme)
            && d.authority == req.authority && d.path == req.path && d.query == req.query
            && d.bodySha256 == Hex.Encode(sha(req.body)) && d.bodyLen == |req.body|
            && d.canonicalRequestHash == Hex.Encode(Framing.CanonicalRequestHash(sha, parts))
  {
    WireConstants();
    FoldsAreAscii(req.method_);
    FoldsAreAscii(req.scheme);
  }

  /** In every mode the audit tells what was done, and only failures are answered 503. */
  lemma AuditTellsDecision(
    sha: Bytes -> Digest, cfg: Config, ctx: RequestContext, req: EgressRequest, receivedAt: int,
    ask: AuthorizeRequest -> VerifierOutcome)
    ensures var (decision, audit) := Evaluation(sha, cfg, ctx, req, receivedAt, ask);
            && (audit.decision == Allow <==> decision.Continue?)
            && (decision.Block? ==> (decision.verdict.httpStatus == 503 <==> audit.degraded))
            && (decision.Block? ==> decision.verdict.reasonCode == audit.reasonCode
                                    && decision.verdict.receiptId == audit.receiptId)
  {
  }
}
