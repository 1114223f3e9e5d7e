/**
 Strings of the modelled program, as byte sequences: ASCII case folding, prefix and
 suffix tests, and splitting at a separator.
 */
module ByteStrings {
  newtype byte = x: int | 0 <= x < 256
  type Bytes = seq<byte>

  /** A 32-byte hash value. */
  type Digest = s: Bytes | |s| == 32 witness seq(32, _ => 0)

  datatype Option<+T> = None | Some(value: T)

  datatype Result<+T, +E> = Ok(value: T) | Err(error: E)

  const SLASH: byte := 47
  const DOT: byte := 46
  const COLON: byte := 58
  const AT: byte := 64
  const OPEN_BRACKET: byte := 91
  const CLOSE_BRACKET: byte := 93
  const QUESTION: byte := 63
  const HASH: byte := 35

  // ---- ASCII case -------------------------------------------------------------

  function LowerByte(b: byte): byte {
    if 65 <= b <= 90 then b + 32 else b
  }

  function UpperByte(b: byte): byte {
    if 97 <= b <= 122 then b - 32 else b
  }

  function Lower(s: Bytes): Bytes {
    seq(|s|, i requires 0 <= i < |s| => LowerByte(s[i]))
  }

  function Upper(s: Bytes): Bytes {
    seq(|s|, i requires 0 <= i < |s| => UpperByte(s[i]))
  }

  predicate EqIgnoreCase(a: Bytes, b: Bytes) {
    && |a| == |b|
    && forall i | 0 <= i < |a| :: LowerByte(a[i]) == LowerByte(b[i])
  }

  lemma CaseIdempotent(s: Bytes)
    ensures Lower(Lower(s)) == Lower(s)
    ensures Upper(Upper(s)) == Upper(s)
  {
  }

  /** The case-insensitive comparison is equality of the upper-case (equally the lower-case) forms. */
  lemma EqIgnoreCaseIsFolding(a: Bytes, b: Bytes)
    ensures EqIgnoreCase(a, b) <==> Upper(a) == Upper(b)
    ensures EqIgnoreCase(a, b) <==> Lower(a) == Lower(b)
  {
    if Upper(a) == Upper(b) {
      assert |a| == |Upper(a)| == |Upper(b)| == |b|;
      forall i | 0 <= i < |a|
        ensures LowerByte(a[i]) == LowerByte(b[i])
      {
        assert Upper(a)[i] == Upper(b)[i];
      }
    }
    if Lower(a) == Lower(b) {
      assert |a| == |Lower(a)| == |Lower(b)| == |b|;
      forall i | 0 <= i < |a|
        ensures LowerByte(a[i]) == LowerByte(b[i])
      {
        assert Lower(a)[i] == Lower(b)[i];
      }
    }
  }

  /** `u` is `s` with the letters a to z in upper case. */
  predicate UpperOf(u: Bytes, s: Bytes) {
    && |u| == |s|
    && forall i | 0 <= i < |s| :: u[i] == if 97 <= s[i] <= 122 then s[i] - 32 else s[i]
  }

  /** `l` is `s` with the letters A to Z in lower case. */
  predicate LowerOf(l: Bytes, s: Bytes) {
    && |l| == |s|
    && forall i | 0 <= i < |s| :: l[i] == if 65 <= s[i] <= 90 then s[i] + 32 else s[i]
  }

  /** Which letters the two folds change, and into what. */
  lemma FoldsAreAscii(s: Bytes)
    ensures UpperOf(Upper(s), s) && LowerOf(Lower(s), s)
  {
  }

  /** The case-insensitive comparison, byte by byte. */
  lemma EqIgnoreCaseBytes(a: Bytes, b: Bytes)
    ensures EqIgnoreCase(a, b) <==>
            && |a| == |b|
            && forall i | 0 <= i < |a| ::
                 || a[i] == b[i]
                 || (65 <= a[i] <= 90 && b[i] == a[i] + 32)
                 || (65 <= b[i] <= 90 && a[i] == b[i] + 32)
  {
  }

  /** ASCII text as bytes. */
  function Ascii(s: string): Bytes
    requires forall i | 0 <= i < |s| :: s[i] as int < 128
  {
    seq(|s|, i requires 0 <= i < |s| => s[i] as int as byte)
  }

  // ---- Suffixes ---------------------------------------------------------------

  predicate EndsWith(s: Bytes, suffix: Bytes) {
    |suffix| <= |s| && s[|s| - |suffix|..] == suffix
  }

  function StripSuffix(s: Bytes, suffix: Bytes): (r: Option<Bytes>)
    ensures r.Some? <==> EndsWith(s, suffix)
    ensures r.Some? ==> s == r.value + suffix
  {
    if EndsWith(s, suffix) then Some(s[..|s| - |suffix|]) else None
  }

  function StripPrefix(s: Bytes, prefix: Bytes): (r: Option<Bytes>)
    ensures r.Some? <==> prefix <= s
    ensures r.Some? ==> s == prefix + r.value
  {
    if prefix <= s then Some(s[|prefix|..]) else None
  }

  // ---- Splitting --------------------------------------------------------------

  /** All pieces between separators; never empty. */
  function Split(s: Bytes, sep: byte): (r: seq<Bytes>)
    ensures |r| >= 1
  {
    if s == [] then [[]]
    else if s[0] == sep then [[]] + Split(s[1..], sep)
    else
      var rest := Split(s[1..], sep);
      [[s[0]] + rest[0]] + rest[1..]
  }

  function Join(parts: seq<Bytes>, sep: byte): Bytes
    requires |parts| >= 1
  {
    if |parts| == 1 then parts[0] else parts[0] + [sep] + Join(parts[1..], sep)
  }

  lemma JoinGrowHead(x: Bytes, parts: seq<Bytes>, sep: byte)
    requires |parts| >= 1
    ensures Join([x + parts[0]] + parts[1..], sep) == x + Join(parts, sep)
  {
  }

  lemma {:induction false} JoinSplit(s: Bytes, sep: byte)
    ensures Join(Split(s, sep), sep) == s
  {
    if s != [] {
      var rest := Split(s[1..], sep);
      JoinSplit(s[1..], sep);
      if s[0] == sep {
        JoinAppend([[]], rest, sep);
        assert [] + [sep] + s[1..] == s;
      } else {
        JoinGrowHead([s[0]], rest, sep);
      }
    }
  }

  lemma {:induction false} SplitAtSeparator(a: Bytes, b: Bytes, sep: byte)
    ensures Split(a + [sep] + b, sep) == Split(a, sep) + Split(b, sep)
  {
    var whole := a + [sep] + b;
    if a == [] {
      assert whole[1..] == b;
    } else {
      assert whole[0] == a[0];
      assert whole[1..] == a[1..] + [sep] + b;
      SplitAtSeparator(a[1..], b, sep);
    }
  }

  lemma {:induction false} JoinAppend(a: seq<Bytes>, b: seq<Bytes>, sep: byte)
    requires |a| >= 1 && |b| >= 1
    ensures Join(a + b, sep) == Join(a, sep) + [sep] + Join(b, sep)
  {
    assert (a + b)[0] == a[0];
    if |a| == 1 {
      assert (a + b)[1..] == b;
    } else {
      assert (a + b)[1..] == a[1..] + b;
      JoinAppend(a[1..], b, sep);
    }
  }

  lemma {:induction false} SplitWithoutSeparator(s: Bytes, sep: byte)
    requires sep !in s
    ensures Split(s, sep) == [s]
  {
    if s != [] {
      SplitWithoutSeparator(s[1..], sep);
      assert [s[0]] + s[1..] == s;
    }
  }

  lemma ExtensionSplits(q: Bytes, rest: Bytes, sep: byte)
    ensures Split(q, sep) < Split(q + [sep] + rest, sep)
  {
    SplitAtSeparator(q, rest, sep);
  }

  lemma SplitExtends(p: Bytes, q: Bytes, sep: byte)
    requires Split(q, sep) < Split(p, sep)
    ensures q + [sep] <= p
  {
    var sp, sq := Split(p, sep), Split(q, sep);
    var tail := sp[|sq|..];
    assert sp == sq + tail;
    JoinAppend(sq, tail, sep);
    JoinSplit(p, sep);
    JoinSplit(q, sep);
  }

  /** One list of pieces properly extends another exactly when the string continues with a separator. */
  lemma SplitProperPrefix(p: Bytes, q: Bytes, sep: byte)
    ensures Split(q, sep) < Split(p, sep) <==> q + [sep] <= p
  {
    if q + [sep] <= p {
      var rest := p[|q| + 1..];
      assert p == (q + [sep]) + rest;
      ExtensionSplits(q, rest, sep);
    } else if Split(q, sep) < Split(p, sep) {
      SplitExtends(p, q, sep);
    }
  }

  lemma SplitInjective(p: Bytes, q: Bytes, sep: byte)
    requires Split(p, sep) == Split(q, sep)
    ensures p == q
  {
    JoinSplit(p, sep);
    JoinSplit(q, sep);
  }

  lemma SplitPrefix(p: Bytes, q: Bytes, sep: byte)
    ensures Split(q, sep) <= Split(p, sep) <==> p == q || q + [sep] <= p
  {
    SplitProperPrefix(p, q, sep);
    if Split(q, sep) <= Split(p, sep) && |Split(q, sep)| == |Split(p, sep)| {
      SplitInjective(p, q, sep);
    }
  }

  /** The part before the first separator and the part after it. */
  function SplitOnce(s: Bytes, sep: byte): (r: Option<(Bytes, Bytes)>)
    ensures r.None? <==> sep !in s
    ensures r.Some? ==> sep !in r.value.0 && s == r.value.0 + [sep] + r.value.1
  {
    if s == [] then None
    else if s[0] == sep then Some(([], s[1..]))
    else
      match SplitOnce(s[1..], sep)
      case None => None
      case Some((a, b)) =>
        assert s == [s[0]] + s[1..];
        Some(([s[0]] + a, b))
  }

  lemma {:induction false} SplitOnceAt(a: Bytes, b: Bytes, sep: byte)
    requires sep !in a
    ensures SplitOnce(a + [sep] + b, sep) == Some((a, b))
  {
    var s := a + [sep] + b;
    if a == [] {
      assert s[1..] == b;
    } else {
      assert s[1..] == a[1..] + [sep] + b;
      SplitOnceAt(a[1..], b, sep);
      assert [a[0]] + a[1..] == a;
    }
  }
}
