/**
 How far the guarantees reach: for each documented promise that fails somewhere, the exact
 condition under which it holds, with runs that show the failure everywhere else.
 */
module Limits {
  import opened ByteStrings
  import opened Wire
  import opened Token
  import opened Headers
  import opened Middleware
  import opened Concurrent
  import opened Linearizability
  import opened ReasonCodes
  import opened Protocol
  import opened Schedules
  import opened Guarantees
  import opened Delivery
  import V = Verifier
  import Authority
  import PathScope

  // ---- A grant for any request -------------------------------------------------------------

  /** The narrowest grant for a request: its principal, sandbox, scope and hash. */
  function ExactGrant(sha: Bytes -> Digest, ctx: RequestContext, req: EgressRequest, jti: Bytes, exp: Millis): Claims {
    Claims(jti, ctx.agentId, ctx.onBehalfOf, Some(ctx.sandboxId),
           Scope(req.method_, req.authority, req.path), Some(EgressHash(sha, req)), exp)
  }

  /** It authorizes that request, whatever the headers. */
  lemma ExactGrantAuthorizes(
    env: Env, ctx: RequestContext, req: EgressRequest, jti: Bytes, exp: Millis, headers: seq<Header>)
    ensures Authorizes(env, ExactGrant(env.suite.sha, ctx, req, jti, exp), ctx, req.(headers := headers))
  {
    Authority.AuthorityInScopeEquivalence(req.scheme, req.authority, req.authority, req.authority);
    PathScope.PathInScopeReflexive(req.path);
  }

  /** A configuration with the default token header that lets this request through to the verifier. */
  function Plainly(mode: Mode, fail: FailPolicy, req: EgressRequest): Config {
    Config(mode, fail, DEFAULT_TOKEN_HEADER, [], true, |req.body|)
  }

  function WithToken(req: EgressRequest, token: Bytes): EgressRequest {
    req.(headers := [(DEFAULT_TOKEN_HEADER, token)])
  }

  lemma PlainlyPresents(mode: Mode, fail: FailPolicy, req: EgressRequest, token: Bytes)
    ensures Presents(Plainly(mode, fail, req), WithToken(req, token), token)
  {
    DefaultIsLower();
    var headers := WithToken(req, token).headers;
    assert headers[1..] == [];
    assert Matches(headers, DEFAULT_TOKEN_HEADER) == [token];
  }

  /** For every context and request, a wire request that passes and carries the given `jti`. */
  lemma PassingRequest(env: Env, ctx: RequestContext, req: EgressRequest, jti: Bytes, now: Millis)
    returns (wire: AuthorizeRequest)
    requires env.suite.CodecLaw()
    ensures Passes(env, wire, now)
    ensures V.Prefix(env, wire, now).claims.jti == jti && V.Prefix(env, wire, now).claims.agentId == ctx.agentId
  {
    var claims := ExactGrant(env.suite.sha, ctx, req, jti, now);
    var token := Mint(env.suite, claims, env.key);
    PlainlyPresents(Enforce, Closed, req, token);
    ExactGrantAuthorizes(env, ctx, req, jti, now, WithToken(req, token).headers);
    wire := HonestGrantPasses(env, claims, Plainly(Enforce, Closed, req), ctx, WithToken(req, token), 0, now);
  }

  // ---- Reason codes ------------------------------------------------------------------------

  /**
   Reason codes are not linearizable: for any two contexts of different agents, and any requests,
   there is a run of the verifier whose codes no sequential order explains.
   */
  lemma CodesDoNotLinearize(
    env: Env, ctxA: RequestContext, reqA: EgressRequest, ctxB: RequestContext, reqB: EgressRequest,
    jti: Bytes, now: Millis)
    requires env.suite.CodecLaw() && ctxA.agentId != ctxB.agentId
    ensures exists steps :: Exec(env, steps).Some? &&
              forall order :: !Linearization(env, Exec(env, steps).value, order, true)
  {
    var a := PassingRequest(env, ctxA, reqA, jti, now);
    var b := PassingRequest(env, ctxB, reqB, jti, now);
    var steps, c := UnexplainedRun(env, iset{(a, now), (b, now)}, (a, now), (b, now));
  }

  // ---- At most once ------------------------------------------------------------------------

  /** The request went to the verifier and, for whatever reason, egressed. */
  predicate Passed(s: Sys, sid: nat) {
    && sid in s.sessions && s.sessions[sid].wire.Some?
    && s.sessions[sid].result.Some? && s.sessions[sid].result.value.0.Continue?
  }

  type Policies = set<(Mode, FailPolicy)>

  predicate UsesPolicies(policies: Policies, s: Sys) {
    forall sid | sid in s.sessions :: (s.sessions[sid].cfg.mode, s.sessions[sid].cfg.fail) in policies
  }

  /** Not two different sessions passed with one verified `jti`. */
  predicate OnceIn(env: Env, s: Sys, a: nat, b: nat) {
    (&& Passed(s, a) && Passed(s, b)
     && PresentedClaims(env, s, a).Some? && PresentedClaims(env, s, b).Some?
     && PresentedClaims(env, s, a).value.jti == PresentedClaims(env, s, b).value.jti) ==> a == b
  }

  /** In every run of middlewares with these policies, each verified `jti` egresses at most once. */
  ghost predicate OncePerJti(env: Env, policies: Policies) {
    forall events, a, b | Play(env, events).Some? && UsesPolicies(policies, Play(env, events).value) ::
      OnceIn(env, Play(env, events).value, a, b)
  }

  /** Two sessions with the same passing request give up waiting. */
  lemma BothGiveUp(env: Env, written: Config, ctx: RequestContext, req: EgressRequest, wire: AuthorizeRequest)
    returns (events: seq<Event>, s: Sys)
    requires Begin(env.suite.sha, written.Normalized(), ctx, req, 0) == Asking(wire)
    ensures Play(env, events) == Some(s)
    ensures var x := Session(written.Normalized(), ctx, req, Some(wire), None);
            s.sessions == map[0 := Concluded(x, Timeout), 1 := Concluded(x, Timeout)]
  {
    var now := Arrive(0, written, ctx, req, 0);
    events := Then(env, [], START, now);
    s := Happen(env, START, now);
    now := Arrive(1, written, ctx, req, 0);
    events := Then(env, events, s, now);
    s := Happen(env, s, now);
    now := GiveUp(0, Timeout);
    events := Then(env, events, s, now);
    s := Happen(env, s, now);
    now := GiveUp(1, Timeout);
    events := Then(env, events, s, now);
    s := Happen(env, s, now);
  }

  const SOMEONE := RequestContext([], None, None, [], None, [], None, None)

  const SOMETHING := EgressRequest([], [], [], [], [], [], [])

  /** Unless it enforces and fails closed, a session that gives up lets its request egress. */
  lemma GivenUpPasses(env: Env, s: Sys, sid: nat, x: Session, claims: Claims)
    requires x.wire.Some? && !(x.cfg.mode.Enforce? && x.cfg.fail.Closed?)
    requires sid in s.sessions && s.sessions[sid] == Concluded(x, Timeout)
    requires DEFAULT_TOKEN_HEADER in x.wire.value.credentials
    requires Verify(env.suite, x.wire.value.credentials[DEFAULT_TOKEN_HEADER], env.key) == Ok(claims)
    ensures Passed(s, sid) && PresentedClaims(env, s, sid) == Some(claims)
    ensures s.sessions[sid].cfg == x.cfg
  {
  }

  /** Under any other policy, one token lets two requests egress: nobody waits for the verifier. */
  lemma TwiceWithout(env: Env, mode: Mode, fail: FailPolicy)
    returns (events: seq<Event>, s: Sys, claims: Claims)
    requires env.suite.CodecLaw() && !(mode.Enforce? && fail.Closed?)
    ensures Play(env, events) == Some(s) && UsesPolicies({(mode, fail)}, s)
    ensures Passed(s, 0) && PresentedClaims(env, s, 0) == Some(claims)
    ensures Passed(s, 1) && PresentedClaims(env, s, 1) == Some(claims)
  {
    claims := ExactGrant(env.suite.sha, SOMEONE, SOMETHING, [], 0);
    var token := Mint(env.suite, claims, env.key);
    var written, req := Plainly(mode, fail, SOMETHING), WithToken(SOMETHING, token);
    PlainlyPresents(mode, fail, SOMETHING, token);
    ExactGrantAuthorizes(env, SOMEONE, SOMETHING, [], 0, req.headers);
    var wire := HonestGrantPasses(env, claims, written, SOMEONE, req, 0, 0);
    events, s := BothGiveUp(env, written, SOMEONE, req, wire);
    var x := Session(written.Normalized(), SOMEONE, req, Some(wire), None);
    GivenUpPasses(env, s, 0, x, claims);
    GivenUpPasses(env, s, 1, x, claims);
  }

  lemma EnforcedOnce(env: Env, policies: Policies, events: seq<Event>, a: nat, b: nat)
    requires forall p | p in policies :: p == (Enforce, Closed)
    requires Play(env, events).Some? && UsesPolicies(policies, Play(env, events).value)
    ensures OnceIn(env, Play(env, events).value, a, b)
  {
    var s := Play(env, events).value;
    if Passed(s, a) && Passed(s, b) {
      assert (s.sessions[a].cfg.mode, s.sessions[a].cfg.fail) in policies;
      assert (s.sessions[b].cfg.mode, s.sessions[b].cfg.fail) in policies;
      AtMostOnce(env, events, a, b);
    }
  }

  lemma OtherwiseTwice(env: Env, policies: Policies, mode: Mode, fail: FailPolicy)
    requires env.suite.CodecLaw() && (mode, fail) in policies && (mode, fail) != (Enforce, Closed)
    ensures !OncePerJti(env, policies)
  {
    var events, s, claims := TwiceWithout(env, mode, fail);
    assert UsesPolicies(policies, s);
    assert !OnceIn(env, Play(env, events).value, 0, 1);
  }

  /** At most once is what enforce/fail-closed buys, and nothing else does. */
  lemma AtMostOnceExactly(env: Env, policies: Policies)
    requires env.suite.CodecLaw()
    ensures OncePerJti(env, policies) <==> forall p | p in policies :: p == (Enforce, Closed)
  {
    if p :| p in policies && p != (Enforce, Closed) {
      OtherwiseTwice(env, policies, p.0, p.1);
    } else {
      forall events, a, b | Play(env, events).Some? && UsesPolicies(policies, Play(env, events).value)
        ensures OnceIn(env, Play(env, events).value, a, b)
      {
        EnforcedOnce(env, policies, events, a, b);
      }
    }
  }

  // ---- Another token header ----------------------------------------------------------------

  /** The documented promise for a middleware with another token header. */
  ghost predicate AlwaysMalformed(env: Env, written: Config) {
    forall ctx, req, receivedAt, wire, st, now: Millis
      | Begin(env.suite.sha, written.Normalized(), ctx, req, receivedAt) == Asking(wire) ::
      V.Decide(env, st, wire, now).0 == V.Denied(TOKEN_MALFORMED)
  }

  /** One own token, then the token for the verifier and a duplicate of its header. */
  function WithForeignToken(
    written: Config, req: EgressRequest, own: Bytes, token: Bytes, other: Bytes
  ): EgressRequest {
    req.(headers := [(written.tokenHeader, own), (DEFAULT_TOKEN_HEADER, token), (DEFAULT_TOKEN_HEADER, other)])
  }

  lemma MatchesThree(a: Header, b: Header, c: Header, name: Bytes)
    ensures Matches([a, b, c], name) ==
            (if EqIgnoreCase(a.0, name) then [a.1] else []) + (if EqIgnoreCase(b.0, name) then [b.1] else [])
            + (if EqIgnoreCase(c.0, name) then [c.1] else [])
  {
    assert [c][1..] == [] && Matches([c], name) == if EqIgnoreCase(c.0, name) then [c.1] else [];
    assert [b, c][1..] == [c] && Matches([b, c], name) ==
           (if EqIgnoreCase(b.0, name) then [b.1] else []) + Matches([c], name);
    assert [a, b, c][1..] == [b, c];
  }

  lemma ForeignPresents(written: Config, req: EgressRequest, own: Bytes, token: Bytes, other: Bytes)
    requires Lower(written.tokenHeader) != DEFAULT_TOKEN_HEADER && Forwards(written, DEFAULT_TOKEN_HEADER)
    requires |req.body| <= written.maxBodyBytes
    ensures Matches(WithForeignToken(written, req, own, token, other).headers, DEFAULT_TOKEN_HEADER) == [token, other]
    ensures Presents(written, WithForeignToken(written, req, own, token, other), token)
  {
    var h := WithForeignToken(written, req, own, token, other).headers;
    DefaultIsLower();
    EqIgnoreCaseIsFolding(written.tokenHeader, DEFAULT_TOKEN_HEADER);
    MatchesThree(h[0], h[1], h[2], written.tokenHeader);
    MatchesThree(h[0], h[1], h[2], DEFAULT_TOKEN_HEADER);
  }

  /**
   If the verifier's header is forwarded, an enforcing middleware with another token header lets
   any request egress on a token for it in that header, duplicated or not, with the token in it.
   */
  lemma ForeignGrantEgresses(
    env: Env, written: Config, ctx: RequestContext, req: EgressRequest, own: Bytes, other: Bytes, jti: Bytes,
    now: Millis) returns (events: seq<Event>, s: Sys, token: Bytes)
    requires env.suite.CodecLaw() && written.mode.Enforce? && written.fail.Closed?
    requires Lower(written.tokenHeader) != DEFAULT_TOKEN_HEADER && Forwards(written, DEFAULT_TOKEN_HEADER)
    requires |req.body| <= written.maxBodyBytes
    ensures token == Mint(env.suite, ExactGrant(env.suite.sha, ctx, req, jti, now), env.key)
    ensures Play(env, events) == Some(s) && Egressed(s, 0)
    ensures s.sessions[0].ctx == ctx && s.sessions[0].req == WithForeignToken(written, req, own, token, other)
    ensures Matches(RemoveAll(s.sessions[0].req.headers, s.sessions[0].result.value.0.stripHeaders),
                    DEFAULT_TOKEN_HEADER) == [token, other]
  {
    var claims := ExactGrant(env.suite.sha, ctx, req, jti, now);
    token := Mint(env.suite, claims, env.key);
    var sent := WithForeignToken(written, req, own, token, other);
    ForeignPresents(written, req, own, token, other);
    ExactGrantAuthorizes(env, ctx, req, jti, now, sent.headers);
    events, s := AnsweredGrantEgresses(env, claims, written, ctx, sent, 0, now);
    ForeignHeaderKeepsDefault(written, sent.headers);
  }

  /** The documented promise holds exactly of the configurations that do not forward the verifier's header. */
  lemma AlwaysMalformedExactly(env: Env, written: Config)
    requires env.suite.CodecLaw() && Lower(written.tokenHeader) != DEFAULT_TOKEN_HEADER
    ensures AlwaysMalformed(env, written) <==> !Forwards(written, DEFAULT_TOKEN_HEADER)
  {
    if Forwards(written, DEFAULT_TOKEN_HEADER) {
      var claims := ExactGrant(env.suite.sha, SOMEONE, SOMETHING, [], 0);
      var token := Mint(env.suite, claims, env.key);
      var sent := WithForeignToken(written, SOMETHING, [], token, []);
      ForeignPresents(written, SOMETHING, [], token, []);
      ExactGrantAuthorizes(env, SOMEONE, SOMETHING, [], 0, sent.headers);
      var wire := HonestGrantPasses(env, claims, written, SOMEONE, sent, 0, 0);
      assert V.Decide(env, V.Shared({}, {}), wire, 0).0 == V.Allowed(claims);
    } else {
      forall ctx, req, receivedAt, wire, st, now: Millis
        | Begin(env.suite.sha, written.Normalized(), ctx, req, receivedAt) == Asking(wire)
        ensures V.Decide(env, st, wire, now).0 == V.Denied(TOKEN_MALFORMED)
      {
        ForeignTokenHeader(env, written, ctx, req, receivedAt, wire, st, now);
      }
    }
  }
}
