/** Lower-case hexadecimal, as the descriptor carries hashes. */
module Hex {
  import opened ByteStrings

  function Digit(n: int): byte
    requires 0 <= n < 16
  {
    if n < 10 then (48 + n) as byte else (87 + n) as byte
  }

  /** The value of a hexadecimal digit in either case. */
  function Value(b: byte): (r: Option<int>)
    ensures r.Some? ==> 0 <= r.value < 16
  {
    if 48 <= b <= 57 then Some(b as int - 48)
    else if 97 <= b <= 102 then Some(b as int - 87)
    else if 65 <= b <= 70 then Some(b as int - 55)
    else None
  }

  function Encode(s: Bytes): (r: Bytes)
    ensures |r| == 2 * |s|
  {
    seq(2 * |s|, k requires 0 <= k < 2 * |s| =>
      if k % 2 == 0 then Digit(s[k / 2] as int / 16) else Digit(s[k / 2] as int % 16))
  }

  lemma EncodeAt(s: Bytes, i: nat)
    requires i < |s|
    ensures Encode(s)[2 * i] == Digit(s[i] as int / 16)
    ensures Encode(s)[2 * i + 1] == Digit(s[i] as int % 16)
  {
  }

  lemma EncodeInjective(a: Bytes, b: Bytes)
    requires Encode(a) == Encode(b)
    ensures a == b
  {
    assert 2 * |a| == |Encode(a)| == |Encode(b)| == 2 * |b|;
    forall i | 0 <= i < |a|
      ensures a[i] == b[i]
    {
      EncodeAt(a, i);
      EncodeAt(b, i);
      assert Value(Encode(a)[2 * i]) == Some(a[i] as int / 16);
      assert Value(Encode(a)[2 * i + 1]) == Some(a[i] as int % 16);
      assert Value(Encode(b)[2 * i]) == Some(b[i] as int / 16);
      assert Value(Encode(b)[2 * i + 1]) == Some(b[i] as int % 16);
    }
  }

  predicate IsLowerHexDigit(b: byte) {
    48 <= b <= 57 || 97 <= b <= 102
  }

  function NibbleOf(b: byte): int {
    if b <= 57 then b as int - 48 else b as int - 87
  }

  /** Every byte is spelled by two digits 0 to 9 or a to f, the high half first. */
  lemma EncodeSpells(s: Bytes, i: nat)
    requires i < |s|
    ensures var hi, lo := Encode(s)[2 * i], Encode(s)[2 * i + 1];
            && IsLowerHexDigit(hi) && IsLowerHexDigit(lo)
            && NibbleOf(hi) * 16 + NibbleOf(lo) == s[i] as int
  {
    EncodeAt(s, i);
  }

  /** The digest whose lower-case hexadecimal spelling is `s`, if there is one. */
  ghost function DigestOf(s: Bytes): (r: Option<Digest>)
    ensures r.Some? ==> Encode(r.value) == s
    ensures r.None? ==> forall d: Digest :: Encode(d) != s
  {
    if d: Digest :| Encode(d) == s then Some(d) else None
  }

  lemma DigestOfEncode(d: Digest)
    ensures DigestOf(Encode(d)) == Some(d)
  {
    EncodeInjective(d, DigestOf(Encode(d)).value);
  }

  predicate LowerHex(s: Bytes) {
    forall k | 0 <= k < |s| :: IsLowerHexDigit(s[k])
  }

  lemma DigitOfNibble(b: byte)
    requires IsLowerHexDigit(b)
    ensures 0 <= NibbleOf(b) < 16 && Digit(NibbleOf(b)) == b
  {
  }

  function Byte(hi: byte, lo: byte): (r: byte)
    requires IsLowerHexDigit(hi) && IsLowerHexDigit(lo)
    ensures r as int / 16 == NibbleOf(hi) && r as int % 16 == NibbleOf(lo)
  {
    (NibbleOf(hi) * 16 + NibbleOf(lo)) as byte
  }

  function Decoded(s: Bytes): (d: Bytes)
    requires |s| == 64 && LowerHex(s)
    ensures |d| == 32
  {
    seq(32, i requires 0 <= i < 32 => Byte(s[2 * i], s[2 * i + 1]))
  }

  lemma EncodeDecoded(s: Bytes)
    requires |s| == 64 && LowerHex(s)
    ensures Encode(Decoded(s)) == s
  {
    var d := Decoded(s);
    forall k | 0 <= k < 64
      ensures Encode(d)[k] == s[k]
    {
      EncodeAt(d, k / 2);
      DigitOfNibble(s[k]);
    }
  }

  lemma EncodeIsLowerHex(s: Bytes)
    ensures LowerHex(Encode(s))
  {
    forall k | 0 <= k < |Encode(s)|
      ensures IsLowerHexDigit(Encode(s)[k])
    {
      EncodeSpells(s, k / 2);
    }
  }

  /** Exactly 64 digits 0 to 9 or a to f spell a digest. */
  lemma DigestOfExactly(s: Bytes)
    ensures DigestOf(s).Some? <==> |s| == 64 && LowerHex(s)
  {
    if |s| == 64 && LowerHex(s) {
      var d: Digest := Decoded(s);
      EncodeDecoded(s);
    }
    if DigestOf(s).Some? {
      EncodeIsLowerHex(DigestOf(s).value);
    }
  }

  /**
   Decodes into a 32-byte buffer, accepting either case, then requires the re-encoding to
   be the very same string: only the lower-case spelling of a digest is accepted.
   */
  method DecodeLowerHex32(s: Bytes) returns (r: Option<Digest>)
    ensures r == DigestOf(s)
  {
    if |s| % 2 != 0 || |s| / 2 != 32 {
      return None;
    }
    var out := new byte[32];
    var i := 0;
    while i < 32
      invariant 0 <= i <= 32
      invariant forall d: Digest | Encode(d) == s :: out[..i] == d[..i]
    {
      var hi, lo := Value(s[2 * i]), Value(s[2 * i + 1]);
      forall d: Digest | Encode(d) == s
        ensures hi == Some(d[i] as int / 16) && lo == Some(d[i] as int % 16)
      {
        EncodeAt(d, i);
      }
      if hi.None? || lo.None? {
        return None;
      }
      out[i] := (hi.value * 16 + lo.value) as byte;
      i := i + 1;
    }
    assert out[..] == out[..32];
    var bytes: Bytes := out[..];
    assert forall d: Digest | Encode(d) == s :: d == d[..32] == bytes;
    r := if Encode(bytes) == s then Some(bytes) else None;
    if r.Some? {
      DigestOfEncode(bytes);
    }
  }
}
