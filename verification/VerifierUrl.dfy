/** The construction-time check for a plaintext verifier URL on a non-loopback host. */
module VerifierUrl {
  import opened ByteStrings

  /** "http" */
  const HTTP_SCHEME: Bytes := [104, 116, 116, 112]

  /** "://" */
  const SCHEME_END: Bytes := [58, 47, 47]

  /** "http://" */
  const HTTP_PREFIX: Bytes := [104, 116, 116, 112, 58, 47, 47]

  /** "localhost" */
  const LOCALHOST: Bytes := [108, 111, 99, 97, 108, 104, 111, 115, 116]

  /** "::1" */
  const IPV6_LOOPBACK: Bytes := [58, 58, 49]

  /** `ipv4Loopback` stands for parsing as an IPv4 address in 127.0.0.0/8. */
  predicate IsLoopback(ipv4Loopback: Bytes -> bool, host: Bytes) {
    host == LOCALHOST || host == IPV6_LOOPBACK || ipv4Loopback(host)
  }

  /** An IPv4 address is written in decimal digits and dots. */
  ghost predicate DottedDecimal(ipv4Loopback: Bytes -> bool) {
    forall host | ipv4Loopback(host) :: forall b | b in host :: b == DOT || 48 <= b <= 57
  }

  function First(pieces: seq<Bytes>): Bytes
    requires |pieces| >= 1
  {
    pieces[0]
  }

  function Last(pieces: seq<Bytes>): Bytes
    requires |pieces| >= 1
  {
    pieces[|pieces| - 1]
  }

  function HostOf(authority: Bytes): Bytes {
    match StripPrefix(authority, [OPEN_BRACKET])
    case Some(rest) => First(Split(rest, CLOSE_BRACKET))
    case None => First(Split(authority, COLON))
  }

  predicate IsPlaintextNonLoopback(ipv4Loopback: Bytes -> bool, url: Bytes) {
    match StripPrefix(url, HTTP_PREFIX)
    case None => false
    case Some(rest) =>
      var authority := Last(Split(First(Split(rest, SLASH)), AT));
      !IsLoopback(ipv4Loopback, HostOf(authority))
  }

  lemma UrlConstants()
    ensures HTTP_PREFIX == Ascii("http://") && HTTP_SCHEME == Ascii("http") && SCHEME_END == Ascii("://")
    ensures LOCALHOST == Ascii("localhost") && IPV6_LOOPBACK == Ascii("::1")
  {
  }

  /** Only text that starts with "http://" is ever flagged. */
  lemma OnlyHttpFlagged(ipv4Loopback: Bytes -> bool, url: Bytes)
    requires IsPlaintextNonLoopback(ipv4Loopback, url)
    ensures Ascii("http://") <= url
  {
    UrlConstants();
  }

  /** Which hosts count as loopback. */
  lemma LoopbackHosts(ipv4Loopback: Bytes -> bool, host: Bytes)
    ensures IsLoopback(ipv4Loopback, host) <==>
            host == Ascii("localhost") || host == Ascii("::1") || ipv4Loopback(host)
  {
    UrlConstants();
  }

  // ---- URLs as they are written -------------------------------------------------------

  datatype Host = Plain(name: Bytes) | Bracketed(literal: Bytes)

  /** `scheme` is as spelled; `tail` is what follows the authority: path, query and fragment. */
  datatype HttpUrl = HttpUrl(scheme: Bytes, userinfo: Option<Bytes>, host: Host, port: Option<Bytes>, tail: Bytes)

  predicate Digits(s: Bytes) {
    forall b | b in s :: 48 <= b <= 57
  }

  /** Section 3.2 of RFC 3986: '/', '?' and '#' end the authority. */
  predicate EndsAuthority(b: byte) {
    b == SLASH || b == QUESTION || b == HASH
  }

  /** Section 2 of RFC 3986: an unreserved character, a sub-delimiter, or '%' of an escape. */
  predicate UriByte(b: byte) {
    || 48 <= b <= 57 || 65 <= b <= 90 || 97 <= b <= 122
    || b == 45 || b == 46 || b == 95 || b == 126
    || b == 33 || b == 36 || 38 <= b <= 44 || b == 59 || b == 61
    || b == 37
  }

  /** Only what userinfo and address literals may hold. */
  predicate Clean(s: Bytes) {
    forall b | b in s :: UriByte(b) || b == COLON
  }

  predicate PlainName(s: Bytes) {
    Clean(s) && COLON !in s
  }

  /** The scheme counts in any case (section 3.1 of RFC 3986). */
  predicate WellFormed(u: HttpUrl) {
    && EqIgnoreCase(u.scheme, HTTP_SCHEME)
    && (u.userinfo.Some? ==> Clean(u.userinfo.value))
    && (match u.host
        case Plain(name) => PlainName(name)
        case Bracketed(literal) => Clean(literal))
    && (u.port.Some? ==> Digits(u.port.value))
    && (u.tail == [] || EndsAuthority(u.tail[0]))
  }

  function PortText(port: Option<Bytes>): Bytes {
    if port.Some? then [COLON] + port.value else []
  }

  function HostText(host: Host): Bytes {
    match host
    case Plain(name) => name
    case Bracketed(literal) => [OPEN_BRACKET] + literal + [CLOSE_BRACKET]
  }

  function HostPort(u: HttpUrl): Bytes {
    HostText(u.host) + PortText(u.port)
  }

  function AuthorityText(u: HttpUrl): Bytes {
    (if u.userinfo.Some? then u.userinfo.value + [AT] else []) + HostPort(u)
  }

  function UrlText(u: HttpUrl): Bytes {
    u.scheme + SCHEME_END + (AuthorityText(u) + u.tail)
  }

  function HostName(host: Host): Bytes {
    match host
    case Plain(name) => name
    case Bracketed(literal) => literal
  }

  /** The part of the tail that the check still takes for the authority: all before its first '/'. */
  function Overread(u: HttpUrl): Bytes {
    First(Split(u.tail, SLASH))
  }

  lemma {:induction false} FirstPiece(a: Bytes, b: Bytes, sep: byte)
    requires sep !in a
    ensures First(Split(a + b, sep)) == a + First(Split(b, sep))
  {
    if a == [] {
      assert a + b == b;
    } else {
      assert (a + b)[0] == a[0] && (a + b)[1..] == a[1..] + b;
      FirstPiece(a[1..], b, sep);
      assert [a[0]] + a[1..] == a;
    }
  }

  lemma LastPiece(a: Bytes, b: Bytes, sep: byte)
    requires sep !in b
    ensures Last(Split(a + [sep] + b, sep)) == b
  {
    SplitAtSeparator(a, b, sep);
    SplitWithoutSeparator(b, sep);
  }

  lemma LastPieceOfTail(a: Bytes, b: Bytes, sep: byte)
    requires sep in b
    ensures Last(Split(a + b, sep)) == Last(Split(b, sep))
  {
    var (p, q) := SplitOnce(b, sep).value;
    assert a + b == (a + p) + [sep] + q;
    SplitAtSeparator(a + p, q, sep);
    SplitAtSeparator(p, q, sep);
  }

  lemma OverreadStart(u: HttpUrl)
    requires WellFormed(u)
    ensures Overread(u) != [] ==> Overread(u)[0] == QUESTION || Overread(u)[0] == HASH
    ensures Overread(u) == [] <==> u.tail == [] || u.tail[0] == SLASH
  {
  }

  /** The text that the check takes for host and port. */
  function HostPortRead(u: HttpUrl): Bytes {
    if AT in Overread(u) then Last(Split(Overread(u), AT)) else HostPort(u) + Overread(u)
  }

  lemma CleanHasNoDelimiter(s: Bytes)
    requires Clean(s)
    ensures SLASH !in s && AT !in s && OPEN_BRACKET !in s && CLOSE_BRACKET !in s
  {
  }

  lemma HostPortIsClean(u: HttpUrl)
    requires WellFormed(u)
    ensures SLASH !in HostPort(u) && AT !in HostPort(u)
  {
    CleanHasNoDelimiter(HostName(u.host));
  }

  /** The part of the URL that the check cuts out before it looks for userinfo. */
  lemma AuthorityRead(u: HttpUrl)
    requires WellFormed(u)
    ensures First(Split(AuthorityText(u) + u.tail, SLASH)) == AuthorityText(u) + Overread(u)
  {
    HostPortIsClean(u);
    if u.userinfo.Some? {
      CleanHasNoDelimiter(u.userinfo.value);
    }
    FirstPiece(AuthorityText(u), u.tail, SLASH);
  }

  lemma UserinfoDropped(u: HttpUrl)
    requires WellFormed(u) && AT !in Overread(u)
    ensures Last(Split(AuthorityText(u) + Overread(u), AT)) == HostPort(u) + Overread(u)
  {
    var hostPort := HostPort(u) + Overread(u);
    HostPortIsClean(u);
    if u.userinfo.Some? {
      assert AuthorityText(u) + Overread(u) == u.userinfo.value + [AT] + hostPort;
      LastPiece(u.userinfo.value, hostPort, AT);
    } else {
      assert AuthorityText(u) + Overread(u) == hostPort;
      SplitWithoutSeparator(hostPort, AT);
    }
  }

  lemma HostPortOfUrl(u: HttpUrl)
    requires WellFormed(u)
    ensures Last(Split(First(Split(AuthorityText(u) + u.tail, SLASH)), AT)) == HostPortRead(u)
  {
    AuthorityRead(u);
    if AT in Overread(u) {
      LastPieceOfTail(AuthorityText(u), Overread(u), AT);
    } else {
      UserinfoDropped(u);
    }
  }

  /**
   What the check reports of any text at all: after "http://" it takes what comes before the first
   '/', drops everything up to the last '@', and looks at the host of the rest.
   */
  lemma FlaggedByText(ipv4Loopback: Bytes -> bool, userinfo: Option<Bytes>, hostPort: Bytes, tail: Bytes)
    requires userinfo.Some? ==> 47 !in userinfo.value
    requires 47 !in hostPort && 64 !in hostPort && (tail == [] || tail[0] == 47)
    ensures var authority := (if userinfo.Some? then userinfo.value + [64] else []) + hostPort;
            IsPlaintextNonLoopback(ipv4Loopback, Ascii("http://") + (authority + tail)) <==>
            !IsLoopback(ipv4Loopback, HostOf(hostPort))
  {
    var authority := (if userinfo.Some? then userinfo.value + [64] else []) + hostPort;
    UrlConstants();
    var text := HTTP_PREFIX + (authority + tail);
    assert StripPrefix(text, HTTP_PREFIX) == Some(authority + tail);
    assert SLASH !in authority;
    FirstPiece(authority, tail, SLASH);
    assert authority + [] == authority;
    if userinfo.Some? {
      LastPiece(userinfo.value, hostPort, AT);
    } else {
      assert authority == hostPort;
      SplitWithoutSeparator(hostPort, AT);
    }
  }

  /** A plain host without a port is read on until a ':'. */
  function HostRead(u: HttpUrl): Bytes {
    if u.host.Plain? && u.port.None? then u.host.name + First(Split(Overread(u), COLON)) else HostName(u.host)
  }

  lemma HostOfPlain(name: Bytes, rest: Bytes)
    requires PlainName(name) && (rest != [] ==> rest[0] != OPEN_BRACKET)
    ensures HostOf(name + rest) == name + First(Split(rest, COLON))
  {
    CleanHasNoDelimiter(name);
    FirstPiece(name, rest, COLON);
    var text := name + rest;
    if text != [] {
      assert text[0] == if name != [] then name[0] else rest[0];
    }
  }

  lemma HostOfBracketed(literal: Bytes, rest: Bytes)
    requires Clean(literal)
    ensures HostOf([OPEN_BRACKET] + literal + [CLOSE_BRACKET] + rest) == literal
  {
    CleanHasNoDelimiter(literal);
    var text := [OPEN_BRACKET] + literal + [CLOSE_BRACKET] + rest;
    var closed := [CLOSE_BRACKET] + rest;
    assert text == [OPEN_BRACKET] + (literal + closed);
    assert StripPrefix(text, [OPEN_BRACKET]) == Some(literal + closed);
    FirstPiece(literal, closed, CLOSE_BRACKET);
    assert literal + [] == literal;
  }

  /** The host of any text: after a '[' what comes before the first ']', otherwise before the first ':'. */
  lemma HostOfExactly(host: Bytes, rest: Bytes)
    ensures 93 !in host && (rest == [] || rest[0] == 93) ==> HostOf([91] + host + rest) == host
    ensures 58 !in host && !([91] <= host) && (rest == [] || rest[0] == 58) ==> HostOf(host + rest) == host
  {
    if 93 !in host && (rest == [] || rest[0] == 93) {
      var text := [91] + host + rest;
      assert text == [91] + (host + rest) && StripPrefix(text, [91]) == Some(host + rest);
      FirstPiece(host, rest, CLOSE_BRACKET);
      assert host + [] == host;
    }
    if 58 !in host && !([91] <= host) && (rest == [] || rest[0] == 58) {
      FirstPiece(host, rest, COLON);
      assert host + [] == host;
      var text := host + rest;
      assert text != [] ==> text[0] == if host != [] then host[0] else rest[0];
    }
  }

  lemma HostOfHostPort(u: HttpUrl)
    requires WellFormed(u)
    ensures HostOf(HostPort(u) + Overread(u)) == HostRead(u)
  {
    var rest := PortText(u.port) + Overread(u);
    OverreadStart(u);
    assert HostPort(u) + Overread(u) == HostText(u.host) + rest;
    match u.host
    case Plain(name) =>
      HostOfPlain(name, rest);
      assert name + [] == name;
      assert u.port.None? ==> rest == Overread(u);
    case Bracketed(literal) => HostOfBracketed(literal, rest);
  }

  /** Text that starts with a host and runs into a query or fragment is no loopback host. */
  lemma OverreadIsNotLoopback(ipv4Loopback: Bytes -> bool, u: HttpUrl)
    requires WellFormed(u) && DottedDecimal(ipv4Loopback)
    requires u.host.Plain? && u.port.None? && Overread(u) != []
    ensures !IsLoopback(ipv4Loopback, HostRead(u))
  {
    OverreadStart(u);
    var k, host := |u.host.name|, HostRead(u);
    assert First(Split(Overread(u), COLON))[0] == Overread(u)[0];
    assert host[k] == Overread(u)[0];
    assert host[k] in host;
    assert QUESTION !in LOCALHOST && HASH !in LOCALHOST && QUESTION !in IPV6_LOOPBACK && HASH !in IPV6_LOOPBACK;
  }

  /** Only the lower-case spelling of the scheme is recognized. */
  lemma SchemeRead(u: HttpUrl)
    requires WellFormed(u)
    ensures StripPrefix(UrlText(u), HTTP_PREFIX) ==
            if u.scheme == HTTP_SCHEME then Some(AuthorityText(u) + u.tail) else None
  {
    assert HTTP_PREFIX == HTTP_SCHEME + SCHEME_END;
    if HTTP_PREFIX <= UrlText(u) {
      assert u.scheme == UrlText(u)[..4] == HTTP_PREFIX[..4];
    }
  }

  /** What the check reports, in terms of the text that it takes for the host and port. */
  lemma FlaggedAsRead(ipv4Loopback: Bytes -> bool, u: HttpUrl)
    requires WellFormed(u)
    ensures IsPlaintextNonLoopback(ipv4Loopback, UrlText(u)) <==>
            u.scheme == HTTP_SCHEME && !IsLoopback(ipv4Loopback, HostOf(HostPortRead(u)))
  {
    SchemeRead(u);
    HostPortOfUrl(u);
  }

  /** What the check reports of every well-formed http URL. */
  lemma FlaggedExactly(ipv4Loopback: Bytes -> bool, u: HttpUrl)
    requires WellFormed(u) && DottedDecimal(ipv4Loopback)
    ensures IsPlaintextNonLoopback(ipv4Loopback, UrlText(u)) <==>
            && u.scheme == HTTP_SCHEME
            && if AT in Overread(u) then !IsLoopback(ipv4Loopback, HostOf(Last(Split(Overread(u), AT))))
               else
                 || !IsLoopback(ipv4Loopback, HostName(u.host))
                 || (u.host.Plain? && u.port.None? && Overread(u) != [])
  {
    FlaggedAsRead(ipv4Loopback, u);
    if AT !in Overread(u) {
      HostOfHostPort(u);
      if u.host.Plain? && u.port.None? {
        if Overread(u) == [] {
          assert u.host.name + [] == u.host.name;
        } else {
          OverreadIsNotLoopback(ipv4Loopback, u);
        }
      }
    }
  }

  /**
   Extraction undoes assembly when a path or nothing follows the authority: flagged iff the scheme
   is spelled in lower case and the host is not loopback.
   */
  lemma FlaggedIffNotLoopback(ipv4Loopback: Bytes -> bool, u: HttpUrl)
    requires WellFormed(u) && (u.tail == [] || u.tail[0] == SLASH)
    ensures IsPlaintextNonLoopback(ipv4Loopback, UrlText(u)) <==>
            u.scheme == HTTP_SCHEME && !IsLoopback(ipv4Loopback, HostName(u.host))
  {
    FlaggedAsRead(ipv4Loopback, u);
    OverreadStart(u);
    HostOfHostPort(u);
    assert HostName(u.host) + [] == HostName(u.host);
  }

  /**
   Exactly when the warning is missed: the scheme is not spelled in lower case, or a query or
   fragment directly after the authority holds an '@' before any '/', and what follows its last
   '@' reads as a loopback host.
   */
  lemma MissedExactly(ipv4Loopback: Bytes -> bool, u: HttpUrl)
    requires WellFormed(u) && DottedDecimal(ipv4Loopback)
    requires !IsLoopback(ipv4Loopback, HostName(u.host))
    ensures !IsPlaintextNonLoopback(ipv4Loopback, UrlText(u)) <==>
            || u.scheme != HTTP_SCHEME
            || (AT in Overread(u) && IsLoopback(ipv4Loopback, HostOf(Last(Split(Overread(u), AT)))))
  {
    FlaggedExactly(ipv4Loopback, u);
  }

  lemma ReadAfterMark(mark: byte, home: Bytes)
    requires PlainName(home) && (mark == QUESTION || mark == HASH)
    ensures var tail := [mark] + [AT] + home;
            && AT in tail && First(Split(tail, SLASH)) == tail
            && Last(Split(tail, AT)) == home && HostOf(home) == home
  {
    var tail := [mark] + [AT] + home;
    CleanHasNoDelimiter(home);
    assert tail[1] == AT;
    SplitWithoutSeparator(tail, SLASH);
    LastPiece([mark], home, AT);
    SplitWithoutSeparator(home, COLON);
  }

  /** Whatever the host, a '?' or '#' with '@' and a loopback name after the authority hides it. */
  lemma AnyHostCanBeMissed(ipv4Loopback: Bytes -> bool, u: HttpUrl, mark: byte, home: Bytes)
    requires WellFormed(u) && (mark == QUESTION || mark == HASH)
    requires PlainName(home) && IsLoopback(ipv4Loopback, home)
    ensures var v := u.(tail := [mark] + [AT] + home);
            WellFormed(v) && !IsPlaintextNonLoopback(ipv4Loopback, UrlText(v))
  {
    var v := u.(tail := [mark] + [AT] + home);
    ReadAfterMark(mark, home);
    FlaggedAsRead(ipv4Loopback, v);
  }

  /** "127.0.0.1" */
  const HOME: Bytes := [49, 50, 55, 46, 48, 46, 48, 46, 49]

  /** "evil.com" */
  const EVIL: Bytes := [101, 118, 105, 108, 46, 99, 111, 109]

  lemma PlainConstants(ipv4Loopback: Bytes -> bool)
    requires DottedDecimal(ipv4Loopback)
    ensures PlainName(HOME) && PlainName(EVIL) && !IsLoopback(ipv4Loopback, EVIL)
  {
    assert EVIL[0] in EVIL;
  }

  lemma HiddenText(host: Bytes, mark: byte, home: Bytes)
    ensures UrlText(HttpUrl(HTTP_SCHEME, None, Plain(host), None, [mark] + [AT] + home)) ==
            HTTP_PREFIX + host + [mark, AT] + home
  {
    assert HTTP_PREFIX == HTTP_SCHEME + SCHEME_END;
    assert [mark] + [AT] == [mark, AT];
  }

  /** "http://evil.com?@127.0.0.1" is not flagged, although its host is "evil.com". */
  lemma MissedWarning(ipv4Loopback: Bytes -> bool)
    requires DottedDecimal(ipv4Loopback) && ipv4Loopback(HOME)
    ensures var u := HttpUrl(HTTP_SCHEME, None, Plain(EVIL), None, [QUESTION] + [AT] + HOME);
            && UrlText(u) == HTTP_PREFIX + EVIL + [QUESTION, AT] + HOME
            && WellFormed(u) && !IsLoopback(ipv4Loopback, HostName(u.host))
            && !IsPlaintextNonLoopback(ipv4Loopback, UrlText(u))
  {
    PlainConstants(ipv4Loopback);
    HiddenText(EVIL, QUESTION, HOME);
    AnyHostCanBeMissed(ipv4Loopback, HttpUrl(HTTP_SCHEME, None, Plain(EVIL), None, []), QUESTION, HOME);
  }

  /** "HTTP" */
  const SHOUTED: Bytes := [72, 84, 84, 80]

  /** "HTTP://evil.com" is not flagged either. */
  lemma MissedSpelling(ipv4Loopback: Bytes -> bool)
    requires DottedDecimal(ipv4Loopback)
    ensures var u := HttpUrl(SHOUTED, None, Plain(EVIL), None, []);
            && UrlText(u) == SHOUTED + SCHEME_END + EVIL
            && WellFormed(u) && !IsLoopback(ipv4Loopback, HostName(u.host))
            && !IsPlaintextNonLoopback(ipv4Loopback, UrlText(u))
  {
    var u := HttpUrl(SHOUTED, None, Plain(EVIL), None, []);
    PlainConstants(ipv4Loopback);
    assert SHOUTED[0] != HTTP_SCHEME[0];
    FlaggedAsRead(ipv4Loopback, u);
    assert AuthorityText(u) + [] == EVIL;
  }
}
