/**
 The URL-safe base64 alphabet without padding (section 5 of RFC 4648). Decoding is strict:
 no padding, no other symbol, and the unused low bits of the last symbol must be zero.
 */
module Base64Url {
  import opened ByteStrings

  const HYPHEN: byte := 45
  const UNDERSCORE: byte := 95

  function Symbol(v: int): byte
    requires 0 <= v < 64
  {
    if v < 26 then (65 + v) as byte
    else if v < 52 then (71 + v) as byte
    else if v < 62 then (v - 4) as byte
    else if v == 62 then HYPHEN
    else UNDERSCORE
  }

  function Value(b: byte): (r: Option<int>)
    ensures r.Some? ==> 0 <= r.value < 64
  {
    if 65 <= b <= 90 then Some(b as int - 65)
    else if 97 <= b <= 122 then Some(b as int - 71)
    else if 48 <= b <= 57 then Some(b as int + 4)
    else if b == HYPHEN then Some(62)
    else if b == UNDERSCORE then Some(63)
    else None
  }

  lemma SymbolValue(v: int)
    requires 0 <= v < 64
    ensures Value(Symbol(v)) == Some(v)
    ensures Symbol(v) != DOT
  {
  }

  lemma ValueSymbol(b: byte)
    requires Value(b).Some?
    ensures Symbol(Value(b).value) == b
  {
  }

  function Encode(s: Bytes): Bytes {
    if |s| == 0 then []
    else if |s| == 1 then
      var a := s[0] as int;
      [Symbol(a / 4), Symbol(a % 4 * 16)]
    else if |s| == 2 then
      var a, b := s[0] as int, s[1] as int;
      [Symbol(a / 4), Symbol(a % 4 * 16 + b / 16), Symbol(b % 16 * 4)]
    else
      EncodeTriple(s[0], s[1], s[2]) + Encode(s[3..])
  }

  function EncodeTriple(x: byte, y: byte, z: byte): (r: Bytes)
    ensures |r| == 4
  {
    var a, b, c := x as int, y as int, z as int;
    [Symbol(a / 4), Symbol(a % 4 * 16 + b / 16), Symbol(b % 16 * 4 + c / 64), Symbol(c % 64)]
  }

  function DecodeQuad(s: Bytes): (r: Option<Bytes>)
    requires |s| == 4
    ensures r.Some? ==> |r.value| == 3
  {
    match (Value(s[0]), Value(s[1]), Value(s[2]), Value(s[3]))
    case (Some(p), Some(q), Some(r), Some(t)) =>
      Some([(p * 4 + q / 16) as byte, (q % 16 * 16 + r / 4) as byte, (r % 4 * 64 + t) as byte])
    case _ => None
  }

  function DecodePair(s: Bytes): (r: Option<Bytes>)
    requires |s| == 2
    ensures r.Some? ==> |r.value| == 1
  {
    match (Value(s[0]), Value(s[1]))
    case (Some(p), Some(q)) => if q % 16 != 0 then None else Some([(p * 4 + q / 16) as byte])
    case _ => None
  }

  function DecodeTriple(s: Bytes): (r: Option<Bytes>)
    requires |s| == 3
    ensures r.Some? ==> |r.value| == 2
  {
    match (Value(s[0]), Value(s[1]), Value(s[2]))
    case (Some(p), Some(q), Some(r)) =>
      if r % 4 != 0 then None
      else Some([(p * 4 + q / 16) as byte, (q % 16 * 16 + r / 4) as byte])
    case _ => None
  }

  function Decode(s: Bytes): Option<Bytes> {
    if |s| == 0 then Some([])
    else if |s| == 1 then None
    else if |s| == 2 then DecodePair(s)
    else if |s| == 3 then DecodeTriple(s)
    else
      match (DecodeQuad(s[..4]), Decode(s[4..]))
      case (Some(group), Some(rest)) => Some(group + rest)
      case _ => None
  }

  // ---- One group ------------------------------------------------------------------

  /** The bits of a byte are divided between two symbols; putting them together restores it. */
  lemma HalvesOfBytes(a: int, b: int)
    requires 0 <= a < 256 && 0 <= b < 256
    ensures a / 4 * 4 + (a % 4 * 16 + b / 16) / 16 == a
    ensures (a % 4 * 16 + b / 16) % 16 == b / 16
    ensures a / 16 * 16 + (a % 16 * 4 + b / 64) / 4 == a
    ensures (a % 16 * 4 + b / 64) % 4 == b / 64
    ensures a / 64 * 64 + a % 64 == a
  {
  }

  lemma HalvesOfSymbols(p: int, q: int, r: int, t: int)
    requires 0 <= p < 64 && 0 <= q < 64 && 0 <= r < 64 && 0 <= t < 64
    ensures (p * 4 + q / 16) / 4 == p && (p * 4 + q / 16) % 4 == q / 16
    ensures (q % 16 * 16 + r / 4) / 16 == q % 16 && (q % 16 * 16 + r / 4) % 16 == r / 4
    ensures (r % 4 * 64 + t) / 64 == r % 4 && (r % 4 * 64 + t) % 64 == t
    ensures q / 16 * 16 + q % 16 == q && r / 4 * 4 + r % 4 == r
  {
  }

  lemma QuadOfTriple(x: byte, y: byte, z: byte)
    ensures DecodeQuad(EncodeTriple(x, y, z)) == Some([x, y, z])
    ensures DOT !in EncodeTriple(x, y, z)
  {
    var a, b, c := x as int, y as int, z as int;
    var p, q, r, t := a / 4, a % 4 * 16 + b / 16, b % 16 * 4 + c / 64, c % 64;
    SymbolValue(p);
    SymbolValue(q);
    SymbolValue(r);
    SymbolValue(t);
    HalvesOfBytes(a, b);
    HalvesOfBytes(b, c);
    HalvesOfBytes(c, 0);
    assert p * 4 + q / 16 == a && q % 16 * 16 + r / 4 == b && r % 4 * 64 + t == c;
  }

  lemma TripleOfQuad(s: Bytes)
    requires |s| == 4 && DecodeQuad(s).Some?
    ensures var g := DecodeQuad(s).value; EncodeTriple(g[0], g[1], g[2]) == s
  {
    var p, q, r, t := Value(s[0]).value, Value(s[1]).value, Value(s[2]).value, Value(s[3]).value;
    ValueSymbol(s[0]);
    ValueSymbol(s[1]);
    ValueSymbol(s[2]);
    ValueSymbol(s[3]);
    HalvesOfSymbols(p, q, r, t);
    assert s == [s[0], s[1], s[2], s[3]];
  }

  lemma PairOfByte(s: Bytes)
    requires |s| == 1
    ensures DecodePair(Encode(s)) == Some(s)
    ensures |Encode(s)| == 2 && DOT !in Encode(s)
  {
    var a := s[0] as int;
    SymbolValue(a / 4);
    SymbolValue(a % 4 * 16);
    HalvesOfBytes(a, 0);
    assert s == [s[0]];
  }

  lemma TripleOfBytes(s: Bytes)
    requires |s| == 2
    ensures DecodeTriple(Encode(s)) == Some(s)
    ensures |Encode(s)| == 3 && DOT !in Encode(s)
  {
    var a, b := s[0] as int, s[1] as int;
    SymbolValue(a / 4);
    SymbolValue(a % 4 * 16 + b / 16);
    SymbolValue(b % 16 * 4);
    HalvesOfBytes(a, b);
    HalvesOfBytes(b, 0);
    assert s == [s[0], s[1]];
  }

  lemma PairSymbols(s: Bytes)
    requires |s| == 2 && DecodePair(s).Some?
    ensures Encode(DecodePair(s).value) == s
  {
  }

  lemma TripleSymbols(s: Bytes)
    requires |s| == 3 && DecodeTriple(s).Some?
    ensures Encode(DecodeTriple(s).value) == s
  {
    var p, q, r := Value(s[0]).value, Value(s[1]).value, Value(s[2]).value;
    ValueSymbol(s[0]);
    ValueSymbol(s[1]);
    ValueSymbol(s[2]);
    HalvesOfSymbols(p, q, r, 0);
    var a, b := p * 4 + q / 16, q % 16 * 16 + r / 4;
    assert a / 4 == p && a % 4 * 16 + b / 16 == q && b % 16 * 4 == r;
    assert s == [s[0], s[1], s[2]];
  }

  // ---- Whole strings ----------------------------------------------------------------

  lemma {:induction false} DecodeEncode(s: Bytes)
    ensures Decode(Encode(s)) == Some(s)
    ensures DOT !in Encode(s)
  {
    if |s| == 1 {
      PairOfByte(s);
    } else if |s| == 2 {
      TripleOfBytes(s);
    } else if |s| >= 3 {
      var group, rest := EncodeTriple(s[0], s[1], s[2]), Encode(s[3..]);
      QuadOfTriple(s[0], s[1], s[2]);
      DecodeEncode(s[3..]);
      assert (group + rest)[..4] == group;
      assert (group + rest)[4..] == rest;
      assert [s[0], s[1], s[2]] + s[3..] == s;
    }
  }

  lemma EncodeStep(group: Bytes, rest: Bytes)
    requires |group| == 3
    ensures Encode(group + rest) == EncodeTriple(group[0], group[1], group[2]) + Encode(rest)
  {
    var s := group + rest;
    assert s[0] == group[0] && s[1] == group[1] && s[2] == group[2] && s[3..] == rest;
  }

  /** Decoding is strict: each byte string has a single accepted spelling. */
  lemma {:induction false} EncodeDecode(s: Bytes)
    requires Decode(s).Some?
    ensures Encode(Decode(s).value) == s
  {
    if |s| == 2 {
      PairSymbols(s);
    } else if |s| == 3 {
      TripleSymbols(s);
    } else if |s| >= 4 {
      TripleOfQuad(s[..4]);
      EncodeDecode(s[4..]);
      EncodeStep(DecodeQuad(s[..4]).value, Decode(s[4..]).value);
      assert s == s[..4] + s[4..];
    }
  }

  // ---- The alphabet and the order of the bits ----------------------------------------

  /** Table 2 of RFC 4648: A to Z, a to z, 0 to 9, '-' and '_' in this order. */
  predicate InTable(b: byte, v: int) {
    var c := b as int;
    || ('A' as int <= c <= 'Z' as int && v == c - 'A' as int)
    || ('a' as int <= c <= 'z' as int && v == 26 + c - 'a' as int)
    || ('0' as int <= c <= '9' as int && v == 52 + c - '0' as int)
    || (c == '-' as int && v == 62)
    || (c == '_' as int && v == 63)
  }

  lemma SymbolsAreTheTable(v: int)
    requires 0 <= v < 64
    ensures InTable(Symbol(v), v)
  {
  }

  /** The text spells these six-bit values. */
  predicate Spells(text: Bytes, values: seq<int>) {
    && |text| == |values|
    && forall i | 0 <= i < |text| :: InTable(text[i], values[i])
  }

  /** One byte is cut into two six-bit values, the last with four zeros at the end. */
  lemma EncodeOne(s: Bytes) returns (v: seq<int>)
    requires |s| == 1
    ensures |v| == 2 && Spells(Encode(s), v)
    ensures v[0] * 64 + v[1] == s[0] as int * 16
  {
    var a := s[0] as int;
    v := [a / 4, a % 4 * 16];
    SymbolsAreTheTable(v[0]);
    SymbolsAreTheTable(v[1]);
  }

  /** Two bytes, as one big-endian number, are cut into three, the last with two zeros at the end. */
  lemma EncodeTwo(s: Bytes) returns (v: seq<int>)
    requires |s| == 2
    ensures |v| == 3 && Spells(Encode(s), v)
    ensures v[0] * 4096 + v[1] * 64 + v[2] == (s[0] as int * 256 + s[1] as int) * 4
  {
    var a, b := s[0] as int, s[1] as int;
    v := [a / 4, a % 4 * 16 + b / 16, b % 16 * 4];
    SymbolsAreTheTable(v[0]);
    SymbolsAreTheTable(v[1]);
    SymbolsAreTheTable(v[2]);
  }

  /** Three bytes, as one big-endian number, are cut into four six-bit values. */
  lemma EncodeThree(s: Bytes) returns (v: seq<int>)
    requires |s| == 3
    ensures |v| == 4 && Spells(Encode(s), v)
    ensures v[0] * 262144 + v[1] * 4096 + v[2] * 64 + v[3] ==
            s[0] as int * 65536 + s[1] as int * 256 + s[2] as int
  {
    var a, b, c := s[0] as int, s[1] as int, s[2] as int;
    v := [a / 4, a % 4 * 16 + b / 16, b % 16 * 4 + c / 64, c % 64];
    SymbolsAreTheTable(v[0]);
    SymbolsAreTheTable(v[1]);
    SymbolsAreTheTable(v[2]);
    SymbolsAreTheTable(v[3]);
    assert s[3..] == [] && Encode(s) == EncodeTriple(s[0], s[1], s[2]) + [];
  }

  /** Groups of three bytes are encoded one after the other. */
  lemma {:induction false} EncodeCuts(a: Bytes, b: Bytes)
    requires |a| % 3 == 0
    ensures Encode(a + b) == Encode(a) + Encode(b)
  {
    if a == [] {
      assert a + b == b;
    } else {
      assert (a + b)[3..] == a[3..] + b;
      EncodeCuts(a[3..], b);
    }
  }
}
