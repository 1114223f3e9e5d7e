# Per-action egress authorization: verification model

An agent's outbound request is let through only if an external verifier allows exactly that
action. This project models the three parts that decide it — the canonical request hash
`crh_v1`, the verifier's nine-step cascade over shared state, and the egress middleware with its
mode and fail policy — and the protocol they form over a lossy network, and proves what the
system promises.

| file | contents |
|---|---|
| `ByteStrings.dfy`, `Hex.dfy`, `Base64Url.dfy` | strings as bytes, ASCII case, splitting; lower-case hex; strict unpadded base64url |
| `Authority.dfy`, `Framing.dfy` | authority normalization; the hash preimage, its decoder and the incremental hasher |
| `PathScope.dfy` | the path prefix test and its meaning on segments |
| `Token.dfy`, `Wire.dfy` | the demo token; the wire contract |
| `Verifier.dfy` | one call of the verifier: as a specification, and as a class over mutable sets |
| `Concurrent.dfy`, `Runs.dfy` | calls as threads with two separate lock sections; safety over all interleavings |
| `Linearizability.dfy`, `Schedules.dfy`, `ReasonCodes.dfy` | sequential explanations of every interleaving, and when they cover reason codes |
| `Headers.dfy`, `Middleware.dfy`, `VerifierUrl.dfy` | header lookup, evaluation and resolution, the construction-time URL check |
| `Protocol.dfy`, `Guarantees.dfy`, `Delivery.dfy`, `Canary.dfy` | middlewares and verifier over a lossy network; end-to-end results |
| `Revocation.dfy` | what revoking an agent means for its requests in the composed system |
| `Limits.dfy` | exact conditions of promises that fail somewhere, with the runs that show it |

Parameters, never constrained beyond their types: SHA-256 (FIPS 180-4), the keyed hash and the clock
readings. Nothing assumes a hash to be injective: binding results say "the same action, or this pair
is a collision". Two parameters have one law each, required only where it is used: decoding claims
undoes encoding (`Suite.CodecLaw`), and a text that reads as an IPv4 loopback address consists of
digits and dots (`DottedDecimal`). The network may lose, delay and
duplicate deliveries; the program's client does not duplicate, and the results hold all the same.

Results that qualify what the repository's documentation says:

* *Reason codes are not linearizable in general.* Decisions are. Codes are exactly when passing
  tokens with one `jti` act for one agent (`CodesLinearizeExactly`); otherwise a revocation between
  the two lock sections gives a run that no sequential order explains, and such a run exists for
  any two agents (`UnexplainedRun`, `CodesDoNotLinearize`).
* *A differing token header is not always denied.* The comment at
  `crates/ext-authz-demo/src/verifier.rs:127-131` says a middleware with another `token_header` has
  every request denied. That holds exactly of the configurations that do not forward the
  verifier's header (`AlwaysMalformedExactly`). Otherwise its first value is judged, the request
  can egress, and the middleware does not strip it (`ForeignTokenHeader`, `ForeignGrantEgresses`).
* *The plaintext-verifier warning can be missed.* The check promises to err toward warning
  (`crates/ext-authz-middleware/src/lib.rs:528-529`), but recognizes the scheme only in lower case and
  ends the authority only at '/'. `HTTP://` is never flagged, and a query or fragment directly after
  the authority can hide a non-loopback host. There is no third way (`MissedExactly`,
  `AnyHostCanBeMissed`, `MissedWarning`, `MissedSpelling`).
* *The framing needs its length bound.* With a field of 2^32 bytes two different requests share a
  preimage (`TruncatedLengthsCollide`); 2^32 is the exact bound (`LengthBoundIsSharp`).
* *Only enforce/fail-closed is at most once.* Under every other policy two requests can egress with
  one token (`AtMostOnceExactly`).
* *Delivery is at most once.* A lost answer consumes the token for good (`LostAnswerConsumesToken`,
  `NeverAgain`).

## Model

| member | source | states |
|---|---|---|
| ByteStrings.EqIgnoreCaseIsFolding | crates/ext-authz-demo/src/verifier.rs:208-211 | the case-insensitive method comparison is equality of the upper-cased forms that the hash uses |
| ByteStrings.EqIgnoreCaseBytes | crates/ext-authz-demo/src/verifier.rs:208-211 | the comparison byte by byte: equal, or the two cases of one ASCII letter |
| ByteStrings.FoldsAreAscii | crates/ext-authz-core/src/hash.rs:113-114 | upper-casing changes exactly the bytes of a to z, by -32, and lower-casing exactly those of A to Z, by +32 |
| ByteStrings.SplitOnceAt | crates/ext-authz-demo/src/token.rs:88 | splitting at the first separator cuts where a separator-free first part ends |
| Hex.DecodeLowerHex32 | crates/ext-authz-demo/src/verifier.rs:274-278 | accepts a string exactly when it is the lower-case hex of some 32 bytes, and returns those bytes |
| Hex.EncodeInjective | crates/ext-authz-demo/src/verifier.rs:262 | equal hex spellings come from equal bytes |
| Hex.EncodeSpells | crates/ext-authz-demo/src/verifier.rs:262 | every byte is spelled by two digits of 0-9 and a-f, the high half first |
| Hex.DigestOfExactly | crates/ext-authz-demo/src/verifier.rs:274-278 | exactly the strings of 64 digits 0-9 and a-f spell a digest |
| Authority.NormalizeIdempotent | crates/ext-authz-core/src/hash.rs:77-91 | normalizing twice is normalizing once |
| Authority.NormalizeExactly | crates/ext-authz-core/src/hash.rs:69-91 | `:443` under `https` and `:80` under `http` are removed after a non-empty host that ends in `]` or has no `:`; every other authority, and every other scheme, is only lower-cased |
| Authority.NormalizeFibres | crates/ext-authz-core/src/hash.rs:70-91 | two authorities normalize alike iff equal up to case, or one adds the scheme's default port to a well-formed host |
| Authority.AuthorityInScopeEquivalence | crates/ext-authz-demo/src/verifier.rs:280-287 | the authority check is an equivalence and holds iff the two name the same target |
| PathScope.PathInScopeIsSegmentPrefix | crates/ext-authz-demo/src/verifier.rs:289-312 | on all strings the byte test is a list-prefix test on '/'-segments; a scope ending in '/' demands a further segment |
| PathScope.EmptyIsRoot | crates/ext-authz-demo/src/verifier.rs:289-296 | an empty path or scope is tested as `/` |
| PathScope.PathInScopeReflexive | crates/ext-authz-demo/src/verifier.rs:289-312 | every path lies in its own scope |
| PathScope.PathInScopeTransitive | crates/ext-authz-demo/src/verifier.rs:289-312 | narrowing composes |
| PathScope.PathInScopeAntisymmetric | crates/ext-authz-demo/src/verifier.rs:289-312 | mutual containment means the same path, up to "" for "/" |
| Framing.U32RoundTrip | crates/ext-authz-core/src/hash.rs:105 | a length below 2^32 is recovered from its four big-endian bytes |
| Framing.UnframeFrame | crates/ext-authz-core/src/hash.rs:100-107 | any list of length-prefixed fields is recovered from the concatenation |
| Framing.FrameUnframe | crates/ext-authz-core/src/hash.rs:100-107 | only concatenations of fields parse, so framing and parsing are inverse |
| Framing.DecodePreimageOfPreimage | crates/ext-authz-core/src/hash.rs:7-17 | a decoder recovers the six canonical fields from the preimage |
| Framing.PreimageOfDecodePreimage | crates/ext-authz-core/src/hash.rs:7-17 | whatever decodes is the preimage of what it decodes to |
| Framing.CanonicalFields | crates/ext-authz-core/src/hash.rs:25-41 | the canonical form field by field: upper-case method, lower-case scheme, authority normalized under it, path, query and body hash as forwarded, `/` for no path |
| Framing.HashedBytes | crates/ext-authz-core/src/hash.rs:7-17 | what is hashed: `openshell-crh-v1`, a NUL, and the six fields in order behind big-endian lengths; these bytes decode to the fields |
| Framing.PreimageInjective | crates/ext-authz-core/src/hash.rs:21-24 | two requests share a preimage iff their canonical forms are equal |
| Framing.TruncatedLengthsCollide | crates/ext-authz-core/src/hash.rs:95-105 | with fields of 2^32 bytes two different actions have one hash, whatever the hash function |
| Framing.LengthBoundIsSharp | crates/ext-authz-core/src/hash.rs:95-105 | preimages tell actions with canonical fields shorter than a bound apart iff the bound is at most 2^32 |
| Framing.CanonicalizeRespelled | crates/ext-authz-middleware/src/lib.rs:266-271 | the wire's upper-case method and lower-case scheme do not change the canonical form |
| Framing.CanonicalizeIdempotent | crates/ext-authz-core/src/hash.rs:31-34 | canonical parts are their own canonical form |
| Framing.CanonicalFibres | crates/ext-authz-core/src/hash.rs:25-41 | equal canonical forms are exactly the spellings of one action: case, default port, empty path |
| Framing.HashBindsAction | crates/ext-authz-core/src/hash.rs:110-122 | equal hashes iff same action or the two preimages collide |
| Framing.Hasher.Put | crates/ext-authz-core/src/hash.rs:100-107 | feeds the four length bytes and the field |
| Framing.ComputeRequestHash | crates/ext-authz-core/src/hash.rs:110-122 | feeding the hasher field by field gives the digest of the decodable preimage |
| Base64Url.DecodeEncode | crates/ext-authz-demo/src/token.rs:76 | decoding undoes encoding for every length, and '.' never occurs in an encoding |
| Base64Url.EncodeDecode | crates/ext-authz-demo/src/token.rs:89-90 | decoding is strict: each byte string has one accepted spelling |
| Base64Url.EncodeOne | crates/ext-authz-demo/src/token.rs:76 | one byte is two symbols of the table in section 5 of RFC 4648, four zero bits at the end |
| Base64Url.EncodeTwo | crates/ext-authz-demo/src/token.rs:76 | two bytes, as one big-endian number, are three symbols, two zero bits at the end |
| Base64Url.EncodeThree | crates/ext-authz-demo/src/token.rs:76 | three bytes, as one big-endian number, are four symbols |
| Base64Url.EncodeCuts | crates/ext-authz-demo/src/token.rs:76 | groups of three bytes are encoded one after the other |
| Token.VerifyMint | crates/ext-authz-demo/src/token.rs:71-96 | a minted token verifies under its key and yields its claims |
| Token.VerifySpelled | crates/ext-authz-demo/src/token.rs:87-96 | for two encoded parts the verdict depends on the MAC and the codec alone, in that order |
| Token.SpelledParts | crates/ext-authz-demo/src/token.rs:76 | the claims come before the `.` and the MAC after it |
| Token.VerifyUnspelled | crates/ext-authz-demo/src/token.rs:87-90 | text that is not two encoded parts is malformed |
| Token.VerifyAccepts | crates/ext-authz-demo/src/token.rs:79-96 | exactly which tokens are accepted: the single spelling of a decodable body with its MAC |
| Wire.WireConstants | crates/ext-authz-core/src/config.rs:77 | the verifier's header is `x-hawcx-haap-token`, and the wire version is `1` |
| Verifier.VerifierState.constructor | crates/ext-authz-demo/src/verifier.rs:72-78 | starts with nothing consumed and nobody revoked |
| Verifier.VerifierState.RevokeAgent | crates/ext-authz-demo/src/verifier.rs:81-86 | adds the agent and changes nothing else |
| Verifier.VerifierState.Authorize | crates/ext-authz-demo/src/verifier.rs:123-253 | the early-return cascade over the mutable sets gives the response and new state of the sequential specification |
| Verifier.ComputeCrh | crates/ext-authz-demo/src/verifier.rs:259-272 | recomputes the hash of the descriptor, or nothing if either hash is not lower-case hex |
| Verifier.RecomputeMeaning | crates/ext-authz-demo/src/verifier.rs:159-177 | the two outcomes of step 4: both hashes spell digests; the sent hash is that of the descriptor |
| Verifier.DecideFollowsLadder | crates/ext-authz-demo/src/verifier.rs:10-20 | for a verified token the response is that of the first condition that fails, in the documented order |
| Verifier.AllowExactly | crates/ext-authz-demo/src/verifier.rs:132-242 | allowed iff the token verifies and all conditions hold |
| Verifier.UntrustedTokens | crates/ext-authz-demo/src/verifier.rs:132-144 | no header, no token text or an undecodable body: TOKEN_MALFORMED; a MAC that does not match: TOKEN_SIGNATURE_INVALID, ahead of every other check; no state change |
| Verifier.AnswersRead | crates/ext-authz-demo/src/verifier.rs:113-252 | an allow says OK, carries the receipt `rcpt-` and `jti` and the grant, and consumes the `jti`; a denial has no receipt and changes nothing |
| Verifier.InScopeCongruent | crates/ext-authz-demo/src/verifier.rs:207-220 | the scope checks factor through the canonical form that the hash uses |
| Verifier.DecideCongruent | crates/ext-authz-demo/src/verifier.rs:123-253 | indistinguishable requests get the same response and leave the same state |
| Concurrent.InvKept | crates/ext-authz-demo/src/verifier.rs:181-236 | every atomic step of any call keeps the invariant tying answers, consumed `jti`s and revocations |
| Concurrent.RunInv | crates/ext-authz-demo/src/verifier.rs:123-253 | the invariant holds in every interleaving |
| Schedules.WaitFree | crates/ext-authz-demo/src/verifier.rs:184-236 | no lock is held between steps: in every reachable configuration each call can finish by its own steps alone |
| Runs.ReplayLedger | crates/ext-authz-demo/src/verifier.rs:229-236 | the consumed `jti`s are those of the allowed calls, one for each |
| Runs.ReplayedIffAllowedEarlier | crates/ext-authz-demo/src/verifier.rs:231-236 | at the last step: TOKEN_REPLAYED iff an earlier call with that `jti` was allowed |
| Runs.DenialsLeaveNoTrace | crates/ext-authz-demo/src/verifier.rs:28-29 | erasing from a run every step of any calls that were not allowed leaves a run with the same shared state and, time stamps aside, the same answers of all other calls |
| Runs.SharedGrows | crates/ext-authz-demo/src/verifier.rs:81-86 | both shared sets only grow along a run |
| Runs.RevocationIsPermanent | crates/ext-authz-demo/src/verifier.rs:179-186 | an allow's check precedes every revocation of its agent, so calls started after one are denied, from any sandbox |
| Runs.RunCongruence | crates/ext-authz-demo/src/verifier.rs:123-253 | replacing requests of a whole interleaving by indistinguishable ones changes no answer and no state |
| Runs.SandboxNoninterference | crates/ext-authz-demo/src/verifier.rs:196-205 | without workload selectors, sandbox ids and advisory fields influence nothing over whole runs |
| Linearizability.EffectWithinCall | crates/ext-authz-demo/src/verifier.rs:184-236 | each call takes effect between its invocation and its answer |
| Linearizability.OrderLinearizes | crates/ext-authz-demo/src/verifier.rs:123-253 | a concrete order of the finished calls respects real time and reproduces decisions (and codes, if one agent per `jti`) and final state |
| Linearizability.RunsLinearize | crates/ext-authz-demo/src/verifier.rs:123-253 | every interleaving is linearizable with respect to decisions |
| ReasonCodes.UnexplainedRun | crates/ext-authz-demo/src/verifier.rs:184-236 | two passing requests of different agents that share a `jti`: a run whose codes no sequential order explains |
| Limits.CodesDoNotLinearize | crates/ext-authz-demo/src/verifier.rs:184-236 | for any two contexts of different agents and any requests such a run exists, built from minted tokens |
| ReasonCodes.CodesLinearizeExactly | crates/ext-authz-demo/src/verifier.rs:184-236 | codes of all runs over a pool of requests linearize iff passing requests with one `jti` act for one agent |
| Headers.FindTokenHeader | crates/ext-authz-middleware/src/lib.rs:484-498 | the early-exit loop answers by the count of case-insensitive matches: none, one, many |
| Headers.MatchesAt | crates/ext-authz-middleware/src/lib.rs:484-507 | the values considered are those of the headers of that name in any case, each once and in order |
| Headers.FindHeaderIsFirst | crates/ext-authz-middleware/src/lib.rs:502-507 | the advisory lookup returns the first match |
| Headers.RemoveAllMatches | crates/ext-authz-middleware/src/lib.rs:100-105 | removing all instances of names leaves every other header's values in order |
| Headers.KeptPositions | crates/ext-authz-middleware/src/lib.rs:100-105 | a position survives the removal exactly when its header matches none of the names in any case |
| Headers.RemoveAllKeepsOrder | crates/ext-authz-middleware/src/lib.rs:100-105 | what is left is exactly the headers at the surviving positions, unchanged and in their original order |
| Middleware.NormalizeConfig | crates/ext-authz-core/src/config.rs:91-97 | lower-cases the token header and, in place, every forward header |
| Middleware.BuildCredentials | crates/ext-authz-middleware/src/lib.rs:287-298 | the loop builds the map from configured names to values, with the token under its header |
| Middleware.CredentialsAgree | crates/ext-authz-middleware/src/lib.rs:216-298 | for any configuration as written: the unique token under the lower-case header, never overridden; other entries are first matches |
| Middleware.StrippingRemovesTheToken | crates/ext-authz-middleware/src/lib.rs:360-367 | stripping removes every instance of the token header and no other header |
| Middleware.DescriptorIsConsistent | crates/ext-authz-middleware/src/lib.rs:250-275 | the descriptor on the wire hashes to the hash sent with it |
| Middleware.WireCarries | crates/ext-authz-middleware/src/lib.rs:260-298 | what the verifier is told: version, every field of the request and its hash, every field of the context |
| Middleware.ResolveLocalDeny | crates/ext-authz-middleware/src/lib.rs:370-397 | follows the one resolution table for local denials |
| Middleware.ResolveVerdictDeny | crates/ext-authz-middleware/src/lib.rs:400-425 | follows the resolution table for deny verdicts, leaving the code and receipt of any audit line as they are |
| Middleware.ResolveVerifierFailure | crates/ext-authz-middleware/src/lib.rs:428-456 | follows the resolution table for failures under mode and fail policy, for any audit line |
| Middleware.Evaluate | crates/ext-authz-middleware/src/lib.rs:191-334 | the evaluation with its audit updates is the attempt followed by the resolution table |
| Middleware.EnforceDecides | crates/ext-authz-middleware/src/lib.rs:205-334 | enforce mode under either fail policy: 403 with its code for a missing or duplicate token or an oversized body, 403 with code and receipt for a denial, continue for an allow, and only a missing verdict is 503 or continue by the fail policy |
| Middleware.ObserveContinues | crates/ext-authz-middleware/src/lib.rs:370-456 | observe mode always continues |
| Middleware.AuditRecords | crates/ext-authz-middleware/src/lib.rs:191-334 | the whole audit line: principal, sandbox, rule, target, hash, enforced, would-deny, degraded, receipt and reason for every outcome |
| Middleware.ObservePredictsEnforce | crates/ext-authz-middleware/src/lib.rs:370-456 | observe never blocks, flags exactly what enforce/fail-closed blocks, and logs the same otherwise |
| Middleware.AuditTellsDecision | crates/ext-authz-middleware/src/lib.rs:301-456 | audit says allow iff continue; a block is 503 iff degraded |
| VerifierUrl.FlaggedIffNotLoopback | crates/ext-authz-middleware/src/lib.rs:530-552 | an http URL, its scheme in any case, whose authority is followed by nothing or by a path is flagged iff the scheme is spelled in lower case and the host is not loopback |
| VerifierUrl.FlaggedExactly | crates/ext-authz-middleware/src/lib.rs:530-552 | what is flagged of every well-formed http URL, its scheme in any case, with path, query or fragment after the authority |
| VerifierUrl.FlaggedByText | crates/ext-authz-middleware/src/lib.rs:530-552 | what is flagged of any text after `http://` |
| VerifierUrl.OnlyHttpFlagged | crates/ext-authz-middleware/src/lib.rs:531-534 | nothing else is flagged |
| VerifierUrl.HostOfExactly | crates/ext-authz-middleware/src/lib.rs:538-542 | the host read from any text: up to `]` after `[`, otherwise up to `:` |
| VerifierUrl.LoopbackHosts | crates/ext-authz-middleware/src/lib.rs:545-550 | loopback hosts are `localhost`, `::1` and loopback IPv4 addresses |
| VerifierUrl.MissedExactly | crates/ext-authz-middleware/src/lib.rs:528-552 | a non-loopback host of an http URL is missed iff the scheme is not spelled in lower case, or the tail before its first '/' holds an '@' and what follows its last '@' reads as a loopback host |
| VerifierUrl.AnyHostCanBeMissed | crates/ext-authz-middleware/src/lib.rs:528-552 | any URL with '?' or '#', '@' and a loopback name put after its authority is not flagged |
| VerifierUrl.MissedWarning | crates/ext-authz-middleware/src/lib.rs:528-552 | `http://evil.com?@127.0.0.1` is not flagged |
| VerifierUrl.MissedSpelling | crates/ext-authz-middleware/src/lib.rs:528-534 | `HTTP://evil.com` is not flagged |
| Protocol.SessionIsEvaluation | crates/ext-authz-middleware/src/lib.rs:191-334 | a session of the protocol ends as the evaluation on the outcome that reached it |
| Protocol.PlayInv | crates/ext-authz-middleware/src/lib.rs:301-333 | in every run, results of sessions are explained by answers of calls that served them |
| Protocol.VerifierRun | crates/ext-authz-demo/src/verifier.rs:123-253 | the verifier's part of a protocol run is an interleaving of the concurrent model |
| Guarantees.AtMostOnce | crates/ext-authz-demo/src/verifier.rs:229-236 | at most one request egresses per `jti`, and that `jti` is consumed |
| Guarantees.EnforcedEgress | crates/ext-authz-middleware/src/lib.rs:301-333 | under either fail policy, an enforced request that egresses was served by an allowed call, or it got no verdict and the middleware fails open |
| Limits.AtMostOnceExactly | crates/ext-authz-middleware/src/lib.rs:428-456 | a deployment lets each `jti` egress at most once in every run iff all its middlewares are enforce/fail-closed |
| Guarantees.EgressesBounded | crates/ext-authz-demo/src/verifier.rs:28-31 | egressed requests never outnumber consumed `jti`s |
| Revocation.RevokedNeverEgress | crates/ext-authz-demo/src/verifier.rs:25-28 | no request that had not reached the verifier when its agent was revoked egresses in any continuation, from any sandbox |
| Revocation.RevokedBeforeArrival | crates/ext-authz-demo/src/verifier.rs:25-28 | in particular no request that arrives after the revocation |
| Revocation.InFlightStillEgresses | crates/ext-authz-demo/src/verifier.rs:184-236 | a request already past its revocation check is not caught: a run in which its agent is revoked and it egresses afterwards |
| Guarantees.EgressIsAuthorized | crates/ext-authz-middleware/src/lib.rs:306-317 | an egressed request carried a verified, unexpired token whose agent, scope, workload and intent fit that very request |
| Guarantees.IntentBinding | crates/ext-authz-demo/src/verifier.rs:222-227 | with a hash minted for some parts and body, what egresses is that action and body, or a given pair collides |
| Guarantees.ForeignTokenHeader | crates/ext-authz-demo/src/verifier.rs:127-135 | with another token header: what the verifier judges, TOKEN_MALFORMED iff its own header is not forwarded and present or its first value is malformed, and that header is not stripped |
| Limits.AlwaysMalformedExactly | crates/ext-authz-demo/src/verifier.rs:127-135 | the documented promise that every such request is denied TOKEN_MALFORMED holds iff the configuration does not forward the verifier's header |
| Limits.ForeignGrantEgresses | crates/ext-authz-demo/src/verifier.rs:127-135 | otherwise, for every request, a run in which it egresses on a token in that header, duplicated or not, with the token still in it |
| Guarantees.NeverBlamed | crates/ext-authz-demo/src/verifier.rs:159-177 | no middleware is ever answered DESCRIPTOR_MALFORMED, CRH_MISMATCH or UNSUPPORTED_VERSION |
| Delivery.PresentsExactly | crates/ext-authz-middleware/src/lib.rs:216-298 | exactly which configurations and requests make the verifier judge a given token |
| Delivery.HonestGrantPasses | crates/ext-authz-demo/src/driver.rs:229-245 | a token minted for a request passes every check that reads no shared state |
| Delivery.AnsweredGrantEgresses | crates/ext-authz-middleware/src/lib.rs:306-314 | a run in which the honest grant egresses |
| Delivery.LostAnswerConsumesToken | crates/ext-authz-demo/src/verifier.rs:28-33 | a run in which the answer is lost: blocked with 503, token consumed |
| Delivery.NeverAgain | crates/ext-authz-demo/src/verifier.rs:30-31 | after that no request with the `jti` egresses in any continuation |
| Canary.CanaryPredicts | crates/ext-authz-core/src/config.rs:7-8 | a whole run of any middlewares with any choice of enforcing sessions switched to observe: same verifier history, same other sessions, each switched session predicts its twin |

## Left out

- HTTP transport, routing and body limits: only the four outcomes of the verifier call remain, chosen by the network.
- Internals of SHA-256, the keyed hash, JSON and IPv4 parsing: parameters.
- Time stamps and latency of the audit line, and the human-readable messages of responses and denials.
- UTF-8: strings are arbitrary bytes, a superset of what the program can hold.
- `i64` milliseconds are a bounded type; the clock reading of a call is an input, so clock behaviour is not modelled.
- Framing.HashBindsAction: fields are below 2^32 bytes, as the encoder documents; beyond it `TruncatedLengthsCollide` shows the failure.
- VerifierUrl.FlaggedExactly: covers the http URLs of RFC 3986; non-ASCII host names and text that only a lenient URL parser accepts are outside.
- The demo driver, story rendering and command line: scripts and user interface.
