/** Authority normalization: lower-case the authority and strip the scheme's default port. */
module Authority {
  import opened ByteStrings

  const HTTPS: Bytes := [104, 116, 116, 112, 115]
  const HTTP: Bytes := [104, 116, 116, 112]
  const PORT_443: Bytes := [COLON, 52, 52, 51]
  const PORT_80: Bytes := [COLON, 56, 48]

  function DefaultPort(scheme: Bytes): Option<Bytes> {
    if scheme == HTTPS then Some(PORT_443)
    else if scheme == HTTP then Some(PORT_80)
    else None
  }

  /** A bracketed literal, or a non-empty host without any colon. */
  predicate WellFormedHost(host: Bytes) {
    host != [] && (EndsWith(host, [CLOSE_BRACKET]) || COLON !in host)
  }

  function Normalize(scheme: Bytes, authority: Bytes): Bytes {
    var a := Lower(authority);
    match DefaultPort(scheme)
    case None => a
    case Some(suffix) =>
      match StripSuffix(a, suffix)
      case None => a
      case Some(host) => if WellFormedHost(host) then host else a
  }

  /** A host that a port may follow: not empty, and ending in ']' or without any ':'. */
  predicate TakesPort(host: Bytes) {
    host != [] && (host[|host| - 1] == 93 || 58 !in host)
  }

  /** `long` is `short` with ":443" under "https" or ":80" under "http". */
  predicate AddsDefaultPort(scheme: Bytes, long: Bytes, short: Bytes) {
    && TakesPort(Lower(short))
    && (|| (scheme == [104, 116, 116, 112, 115] && Lower(long) == Lower(short) + [58, 52, 52, 51])
        || (scheme == [104, 116, 116, 112] && Lower(long) == Lower(short) + [58, 56, 48]))
  }

  lemma TakesPortIsWellFormed(host: Bytes)
    ensures WellFormedHost(host) <==> TakesPort(host)
  {
    if host != [] {
      assert host[|host| - 1..] == [host[|host| - 1]];
    }
  }

  /**
   What normalization does to every authority under every scheme: ":443" under "https" and ":80"
   under "http" go, after a host that takes a port; everything else is only lower-cased.
   */
  lemma NormalizeExactly(scheme: Bytes, authority: Bytes, host: Bytes)
    ensures TakesPort(host) && scheme == [104, 116, 116, 112, 115] && Lower(authority) == host + [58, 52, 52, 51] ==>
              Normalize(scheme, authority) == host
    ensures TakesPort(host) && scheme == [104, 116, 116, 112] && Lower(authority) == host + [58, 56, 48] ==>
              Normalize(scheme, authority) == host
    ensures Normalize(scheme, authority) != Lower(authority) ==>
              var n := Normalize(scheme, authority);
              && TakesPort(n)
              && (|| (scheme == [104, 116, 116, 112, 115] && Lower(authority) == n + [58, 52, 52, 51])
                  || (scheme == [104, 116, 116, 112] && Lower(authority) == n + [58, 56, 48]))
  {
    TakesPortIsWellFormed(host);
    TakesPortIsWellFormed(Normalize(scheme, authority));
    var a := Lower(authority);
    if a == host + [58, 52, 52, 51] {
      assert a[|a| - 4..] == [58, 52, 52, 51] && a[..|a| - 4] == host;
    }
    if a == host + [58, 56, 48] {
      assert a[|a| - 3..] == [58, 56, 48] && a[..|a| - 3] == host;
    }
  }

  predicate SameTarget(scheme: Bytes, a: Bytes, b: Bytes) {
    || Lower(a) == Lower(b)
    || AddsDefaultPort(scheme, a, b)
    || AddsDefaultPort(scheme, b, a)
  }

  lemma WellFormedHostHasNoPort(scheme: Bytes, host: Bytes)
    requires WellFormedHost(host)
    ensures DefaultPort(scheme).Some? ==> !EndsWith(host, DefaultPort(scheme).value)
  {
    var port := DefaultPort(scheme);
    if port.Some? && |port.value| <= |host| {
      var tail := host[|host| - |port.value|..];
      assert tail[0] == host[|host| - |port.value|];
      assert tail[|port.value| - 1] == host[|host| - 1];
      assert host[|host| - 1..] == [host[|host| - 1]];
    }
  }

  lemma NormalizeIsLower(scheme: Bytes, authority: Bytes)
    ensures Lower(Normalize(scheme, authority)) == Normalize(scheme, authority)
  {
  }

  lemma NormalizeIdempotent(scheme: Bytes, authority: Bytes)
    ensures Normalize(scheme, Normalize(scheme, authority)) == Normalize(scheme, authority)
  {
    var n := Normalize(scheme, authority);
    NormalizeIsLower(scheme, authority);
    CaseIdempotent(authority);
    if n != Lower(authority) {
      WellFormedHostHasNoPort(scheme, n);
    }
  }

  lemma NormalizeAddedPort(scheme: Bytes, long: Bytes, short: Bytes)
    requires AddsDefaultPort(scheme, long, short)
    ensures Normalize(scheme, long) == Lower(short) == Normalize(scheme, short)
  {
    TakesPortIsWellFormed(Lower(short));
    WellFormedHostHasNoPort(scheme, Lower(short));
    NormalizeExactly(scheme, long, Lower(short));
  }

  /** Exactly which spellings of an authority normalize to the same target. */
  lemma NormalizeFibres(scheme: Bytes, a: Bytes, b: Bytes)
    ensures Normalize(scheme, a) == Normalize(scheme, b) <==> SameTarget(scheme, a, b)
  {
    NormalizeExactly(scheme, a, []);
    NormalizeExactly(scheme, b, []);
    NormalizeIsLower(scheme, a);
    NormalizeIsLower(scheme, b);
    if AddsDefaultPort(scheme, a, b) {
      NormalizeAddedPort(scheme, a, b);
    }
    if AddsDefaultPort(scheme, b, a) {
      NormalizeAddedPort(scheme, b, a);
    }
  }

  /** The verifier's authority check, under the scheme as the request spells it. */
  predicate AuthorityInScope(requestScheme: Bytes, requestAuthority: Bytes, scopeAuthority: Bytes) {
    var scheme := Lower(requestScheme);
    Normalize(scheme, requestAuthority) == Normalize(scheme, scopeAuthority)
  }

  /** The check is an equivalence, so it may be read on either spelling of an authority. */
  lemma AuthorityInScopeEquivalence(scheme: Bytes, a: Bytes, b: Bytes, c: Bytes)
    ensures AuthorityInScope(scheme, a, a)
    ensures AuthorityInScope(scheme, a, b) ==> AuthorityInScope(scheme, b, a)
    ensures AuthorityInScope(scheme, a, b) && AuthorityInScope(scheme, b, c) ==> AuthorityInScope(scheme, a, c)
    ensures AuthorityInScope(scheme, a, b) <==> SameTarget(Lower(scheme), a, b)
  {
    NormalizeFibres(Lower(scheme), a, b);
  }
}
