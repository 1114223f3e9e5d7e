/** The middleware-verifier wire contract. Human-readable messages are not modelled. */
module Wire {
  import opened ByteStrings

  /** "1" */
  const WIRE_VERSION: Bytes := [49]

  /** "x-hawcx-haap-token" */
  const DEFAULT_TOKEN_HEADER: Bytes :=
    [120, 45, 104, 97, 119, 99, 120, 45, 104, 97, 97, 112, 45, 116, 111, 107, 101, 110]

  lemma WireConstants()
    ensures WIRE_VERSION == Ascii("1") && DEFAULT_TOKEN_HEADER == Ascii("x-hawcx-haap-token")
  {
  }

  datatype RequestDescriptor = RequestDescriptor(
    method_: Bytes,
    scheme: Bytes,
    authority: Bytes,
    path: Bytes,
    query: Bytes,
    bodySha256: Bytes,
    bodyLen: nat,
    canonicalRequestHash: Bytes)

  datatype WireContext = WireContext(
    agentId: Bytes,
    onBehalfOf: Option<Bytes>,
    agentClass: Option<Bytes>,
    sandboxId: Bytes,
    sandboxName: Option<Bytes>,
    endpointRule: Bytes,
    policyRevision: Option<Bytes>,
    requestId: Option<Bytes>,
    receivedAtUnixMs: int)

  datatype AuthorizeRequest = AuthorizeRequest(
    version: Bytes,
    request: RequestDescriptor,
    context: WireContext,
    credentials: map<Bytes, Bytes>)

  datatype Decision = Allow | Deny

  datatype Reason =
    | TOKEN_MISSING
    | TOKEN_AMBIGUOUS
    | REQUEST_TOO_LARGE
    | VERIFIER_UNAVAILABLE
    | VERIFIER_TIMEOUT
    | VERIFIER_MALFORMED_RESPONSE
    | UNSUPPORTED_VERSION
    | OK
    | TOKEN_MALFORMED
    | TOKEN_SIGNATURE_INVALID
    | TOKEN_EXPIRED
    | TOKEN_REPLAYED
    | AGENT_MISMATCH
    | AGENT_REVOKED
    | WORKLOAD_MISMATCH
    | INTENT_MISMATCH
    | CRH_MISMATCH
    | DESCRIPTOR_MALFORMED
    | Extension(code: Bytes)

  /** `boundCrh` tells an exact grant from a coarse one. */
  datatype Evidence =
    | DenyEvidence
    | AllowEvidence(agentId: Bytes, boundCrh: Option<Bytes>, scopeMethod: Bytes, scopeAuthority: Bytes)

  datatype AuthorizeResponse = AuthorizeResponse(
    decision: Decision,
    reasonCode: Reason,
    receiptId: Option<Bytes>,
    evidence: Option<Evidence>)
}
