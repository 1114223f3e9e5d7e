/**
 The canonical request hash: six canonical fields, each behind a big-endian 32-bit length,
 after a NUL-terminated domain separator. SHA-256 (FIPS 180-4) is a parameter.
 */
module Framing {
  import opened ByteStrings
  import opened Authority
  import PathScope

  const TWO_32 := 0x1_0000_0000

  /** "openshell-crh-v1" and a NUL. */
  const CRH_DOMAIN: Bytes :=
    [111, 112, 101, 110, 115, 104, 101, 108, 108, 45, 99, 114, 104, 45, 118, 49, 0]

  /** The parts of a request that the hash covers, as they arrive. */
  datatype Parts = Parts(
    method_: Bytes, scheme: Bytes, authority: Bytes, path: Bytes, query: Bytes, bodySha256: Digest)

  /** The parts after normalization. */
  datatype Canonical = Canonical(
    method_: Bytes, scheme: Bytes, authority: Bytes, path: Bytes, query: Bytes, bodySha256: Digest)

  function Canonicalize(p: Parts): Canonical {
    var scheme := Lower(p.scheme);
    Canonical(Upper(p.method_), scheme, Normalize(scheme, p.authority),
              PathScope.OrRoot(p.path), p.query, p.bodySha256)
  }

  /**
   The canonical form field by field: the method in upper case, the scheme in lower case, the
   authority normalized under it, path, query and body hash as they are, and "/" for no path.
   */
  lemma CanonicalFields(p: Parts)
    ensures var c := Canonicalize(p);
            && UpperOf(c.method_, p.method_) && LowerOf(c.scheme, p.scheme)
            && c.authority == Normalize(c.scheme, p.authority)
            && c.path == (if p.path == [] then [47] else p.path)
            && c.query == p.query && c.bodySha256 == p.bodySha256
  {
    FoldsAreAscii(p.method_);
    FoldsAreAscii(p.scheme);
    PathScope.PathAsWritten(p.path);
  }

  function Fields(c: Canonical): (r: seq<Bytes>)
    ensures |r| == 6
  {
    [c.method_, c.scheme, c.authority, c.path, c.query, c.bodySha256]
  }

  // ---- Length prefixes ----------------------------------------------------------

  /** Big-endian bytes of a length; a length of 2^32 or more is truncated. */
  function U32(n: nat): (r: Bytes)
    ensures |r| == 4
  {
    [(n / 0x100_0000 % 256) as byte, (n / 0x1_0000 % 256) as byte,
     (n / 0x100 % 256) as byte, (n % 256) as byte]
  }

  function U32Value(s: Bytes): (n: nat)
    requires |s| == 4
    ensures n < TWO_32
  {
    s[0] as int * 0x100_0000 + s[1] as int * 0x1_0000 + s[2] as int * 0x100 + s[3] as int
  }

  lemma U32RoundTrip(n: nat)
    requires n < TWO_32
    ensures U32Value(U32(n)) == n
  {
    var b2, b1, b0 := n / 0x100, n / 0x1_0000, n / 0x100_0000;
    assert b1 == b2 / 0x100 && b0 == b1 / 0x100 && b0 < 0x100;
    assert n == b2 * 0x100 + n % 0x100;
    assert b2 == b1 * 0x100 + b2 % 0x100;
    assert b1 == b0 * 0x100 + b1 % 0x100;
  }

  lemma U32Unparse(s: Bytes)
    requires |s| == 4
    ensures U32(U32Value(s)) == s
  {
    var n := U32Value(s);
    assert n / 0x100 == s[0] as int * 0x1_0000 + s[1] as int * 0x100 + s[2] as int;
    assert n / 0x1_0000 == s[0] as int * 0x100 + s[1] as int;
    assert n / 0x100_0000 == s[0] as int;
  }

  function Field(bytes: Bytes): Bytes {
    U32(|bytes|) + bytes
  }

  function Frame(fields: seq<Bytes>): Bytes {
    if fields == [] then [] else Field(fields[0]) + Frame(fields[1..])
  }

  predicate Fits(fields: seq<Bytes>) {
    forall i | 0 <= i < |fields| :: |fields[i]| < TWO_32
  }

  /** Reads `n` fields and requires the input to end there. */
  function Unframe(n: nat, s: Bytes): Option<seq<Bytes>> {
    if n == 0 then
      if s == [] then Some([]) else None
    else if |s| < 4 then None
    else
      var len := U32Value(s[..4]);
      if |s| < 4 + len then None
      else
        match Unframe(n - 1, s[4 + len..])
        case None => None
        case Some(rest) => Some([s[4..4 + len]] + rest)
  }

  lemma FieldParses(first: Bytes, rest: Bytes)
    requires |first| < TWO_32
    ensures var s := Field(first) + rest;
            && |s| >= 4 + |first|
            && U32Value(s[..4]) == |first| && s[4..4 + |first|] == first && s[4 + |first|..] == rest
  {
    U32RoundTrip(|first|);
    var s := Field(first) + rest;
    assert s[..4] == U32(|first|);
  }

  lemma {:induction false} UnframeFrame(fields: seq<Bytes>)
    requires Fits(fields)
    ensures Unframe(|fields|, Frame(fields)) == Some(fields)
  {
    if fields != [] {
      var first, rest := fields[0], fields[1..];
      UnframeFrame(rest);
      FieldParses(first, Frame(rest));
      assert [first] + rest == fields;
    }
  }

  lemma FieldUnparses(s: Bytes, len: nat)
    requires |s| >= 4 + len && U32Value(s[..4]) == len
    ensures Field(s[4..4 + len]) + s[4 + len..] == s
  {
    U32Unparse(s[..4]);
    assert s == s[..4] + s[4..4 + len] + s[4 + len..];
  }

  lemma FrameCons(first: Bytes, rest: seq<Bytes>)
    ensures Frame([first] + rest) == Field(first) + Frame(rest)
    ensures Fits([first] + rest) <==> |first| < TWO_32 && Fits(rest)
  {
  }

  lemma {:induction false} FrameUnframe(n: nat, s: Bytes)
    requires Unframe(n, s).Some?
    ensures Frame(Unframe(n, s).value) == s
    ensures |Unframe(n, s).value| == n && Fits(Unframe(n, s).value)
  {
    if n > 0 {
      var len := U32Value(s[..4]);
      FrameUnframe(n - 1, s[4 + len..]);
      FieldUnparses(s, len);
      FrameCons(s[4..4 + len], Unframe(n - 1, s[4 + len..]).value);
    }
  }

  // ---- The preimage and its decoder ---------------------------------------------

  function Preimage(c: Canonical): Bytes {
    CRH_DOMAIN + Frame(Fields(c))
  }

  function DecodePreimage(s: Bytes): Option<Canonical> {
    match StripPrefix(s, CRH_DOMAIN)
    case None => None
    case Some(framed) =>
      match Unframe(6, framed)
      case None => None
      case Some(f) =>
        if |f| == 6 && |f[5]| == 32 then Some(Canonical(f[0], f[1], f[2], f[3], f[4], f[5])) else None
  }

  /** Every field is shorter than 2^32 bytes, as the encoder asks of its callers. */
  predicate FitsU32(c: Canonical) {
    Fits(Fields(c))
  }

  lemma DecodePreimageOfPreimage(c: Canonical)
    requires FitsU32(c)
    ensures DecodePreimage(Preimage(c)) == Some(c)
  {
    var f := Frame(Fields(c));
    assert Preimage(c)[|CRH_DOMAIN|..] == f;
    UnframeFrame(Fields(c));
  }

  /** Only preimages decode, so decoding and encoding are inverse to each other. */
  lemma PreimageOfDecodePreimage(s: Bytes)
    requires DecodePreimage(s).Some?
    ensures Preimage(DecodePreimage(s).value) == s
    ensures FitsU32(DecodePreimage(s).value)
  {
    var framed := StripPrefix(s, CRH_DOMAIN).value;
    FrameUnframe(6, framed);
    var f := Unframe(6, framed).value;
    assert Fields(DecodePreimage(s).value) == f;
  }

  /** Two requests share a preimage exactly when their canonical forms are equal. */
  lemma PreimageInjective(a: Parts, b: Parts)
    requires FitsU32(Canonicalize(a)) && FitsU32(Canonicalize(b))
    ensures Preimage(Canonicalize(a)) == Preimage(Canonicalize(b)) <==> Canonicalize(a) == Canonicalize(b)
  {
    DecodePreimageOfPreimage(Canonicalize(a));
    DecodePreimageOfPreimage(Canonicalize(b));
  }

  lemma WholeMultipleVanishes(a: int, k: int)
    ensures (a + 256 * k) % 256 == a % 256
  {
  }

  lemma LengthWraps(n: nat)
    ensures U32(n + TWO_32) == U32(n)
  {
    assert (n + TWO_32) / 0x100_0000 == n / 0x100_0000 + 256 * 1;
    assert (n + TWO_32) / 0x1_0000 == n / 0x1_0000 + 256 * 0x100;
    assert (n + TWO_32) / 0x100 == n / 0x100 + 256 * 0x1_0000;
    assert n + TWO_32 == n + 256 * 0x100_0000;
    WholeMultipleVanishes(n / 0x100_0000, 1);
    WholeMultipleVanishes(n / 0x1_0000, 0x100);
    WholeMultipleVanishes(n / 0x100, 0x1_0000);
    WholeMultipleVanishes(n, 0x100_0000);
  }

  lemma FrameSix(c: Canonical)
    ensures Frame(Fields(c)) ==
            Field(c.method_) + Field(c.scheme) + Field(c.authority) + Field(c.path) + Field(c.query)
            + Field(c.bodySha256)
  {
    var f := Fields(c);
    assert Frame(f[6..]) == [];
    assert Frame(f[5..]) == Field(f[5]) + Frame(f[5..][1..]) && f[5..][1..] == f[6..];
    assert Frame(f[4..]) == Field(f[4]) + Frame(f[4..][1..]) && f[4..][1..] == f[5..];
    assert Frame(f[3..]) == Field(f[3]) + Frame(f[3..][1..]) && f[3..][1..] == f[4..];
    assert Frame(f[2..]) == Field(f[2]) + Frame(f[2..][1..]) && f[2..][1..] == f[3..];
    assert Frame(f[1..]) == Field(f[1]) + Frame(f[1..][1..]) && f[1..][1..] == f[2..];
    assert Frame(f) == Field(f[0]) + Frame(f[1..]);
  }

  lemma PreimageFields(c: Canonical, fed: Bytes)
    requires fed == [] + CRH_DOMAIN + Field(c.method_) + Field(c.scheme) + Field(c.authority)
                    + Field(c.path) + Field(c.query) + Field(c.bodySha256)
    ensures fed == Preimage(c)
  {
    FrameSix(c);
  }

  // ---- Canonicalization is stable -----------------------------------------------

  /** The parts as the middleware spells them on the wire: upper-case method, lower-case scheme. */
  function Respelled(p: Parts): Parts {
    p.(method_ := Upper(p.method_), scheme := Lower(p.scheme))
  }

  lemma CanonicalizeRespelled(p: Parts)
    ensures Canonicalize(Respelled(p)) == Canonicalize(p)
  {
  }

  function AsParts(c: Canonical): Parts {
    Parts(c.method_, c.scheme, c.authority, c.path, c.query, c.bodySha256)
  }

  lemma CanonicalizeIdempotent(p: Parts)
    ensures Canonicalize(AsParts(Canonicalize(p))) == Canonicalize(p)
  {
    CaseIdempotent(p.method_);
    CaseIdempotent(p.scheme);
    NormalizeIdempotent(Lower(p.scheme), p.authority);
  }

  // ---- The hash -----------------------------------------------------------------

  function CanonicalRequestHash(sha: Bytes -> Digest, p: Parts): Digest {
    sha(Preimage(Canonicalize(p)))
  }

  ghost predicate Collision(sha: Bytes -> Digest, x: Bytes, y: Bytes) {
    x != y && sha(x) == sha(y)
  }

  /** Two spellings of one action: only case, the default port and the empty path may differ. */
  predicate SameAction(a: Parts, b: Parts) {
    && EqIgnoreCase(a.method_, b.method_)
    && EqIgnoreCase(a.scheme, b.scheme)
    && SameTarget(Lower(a.scheme), a.authority, b.authority)
    && PathScope.SamePath(a.path, b.path)
    && a.query == b.query
    && a.bodySha256 == b.bodySha256
  }

  /** Exactly which requests have the same canonical form. */
  lemma CanonicalFibres(a: Parts, b: Parts)
    ensures Canonicalize(a) == Canonicalize(b) <==> SameAction(a, b)
  {
    EqIgnoreCaseIsFolding(a.method_, b.method_);
    EqIgnoreCaseIsFolding(a.scheme, b.scheme);
    NormalizeFibres(Lower(a.scheme), a.authority, b.authority);
    PathScope.OrRootFibres(a.path, b.path);
  }

  /** Equal hashes mean the same action, or the two preimages are a collision. */
  lemma HashBindsAction(sha: Bytes -> Digest, a: Parts, b: Parts)
    requires FitsU32(Canonicalize(a)) && FitsU32(Canonicalize(b))
    ensures CanonicalRequestHash(sha, a) == CanonicalRequestHash(sha, b) <==>
            || SameAction(a, b)
            || Collision(sha, Preimage(Canonicalize(a)), Preimage(Canonicalize(b)))
  {
    PreimageInjective(a, b);
    CanonicalFibres(a, b);
  }

  // ---- What exactly is hashed -----------------------------------------------------

  /** Four bytes, most significant first. */
  predicate BigEndian(header: Bytes, n: nat) {
    && |header| == 4
    && header[0] as int * 16777216 + header[1] as int * 65536 + header[2] as int * 256 + header[3] as int == n
  }

  lemma LengthHeader(n: nat)
    requires n < TWO_32
    ensures BigEndian(U32(n), n)
  {
    U32RoundTrip(n);
  }

  lemma DomainText()
    ensures CRH_DOMAIN == Ascii("openshell-crh-v1") + [0]
  {
  }

  /**
   The hashed bytes: the domain text and a NUL, then method, scheme, authority, path, query and
   body hash in this order, each behind its big-endian length; and they decode to those fields.
   */
  lemma HashedBytes(sha: Bytes -> Digest, p: Parts) returns (text: Bytes, c: Canonical, h: seq<Bytes>)
    requires FitsU32(Canonicalize(p))
    ensures CanonicalRequestHash(sha, p) == sha(text) && DecodePreimage(text) == Some(c)
    ensures UpperOf(c.method_, p.method_) && LowerOf(c.scheme, p.scheme)
    ensures c.authority == Normalize(c.scheme, p.authority)
    ensures c.path == if p.path == [] then [47] else p.path
    ensures c.query == p.query && c.bodySha256 == p.bodySha256
    ensures |h| == 6
    ensures BigEndian(h[0], |c.method_|) && BigEndian(h[1], |c.scheme|) && BigEndian(h[2], |c.authority|)
    ensures BigEndian(h[3], |c.path|) && BigEndian(h[4], |c.query|) && BigEndian(h[5], 32)
    ensures text == Ascii("openshell-crh-v1") + [0] + h[0] + c.method_ + h[1] + c.scheme + h[2] + c.authority
                    + h[3] + c.path + h[4] + c.query + h[5] + c.bodySha256
  {
    c := Canonicalize(p);
    text := Preimage(c);
    CanonicalFields(p);
    DecodePreimageOfPreimage(c);
    h := HeadersOf(c);
    PreimageText(c, h);
    DomainText();
  }

  lemma AppendField(text: Bytes, header: Bytes, field: Bytes)
    requires header == U32(|field|)
    ensures text + header + field == text + Field(field)
  {
  }

  lemma PreimageText(c: Canonical, h: seq<Bytes>)
    requires h == [U32(|c.method_|), U32(|c.scheme|), U32(|c.authority|), U32(|c.path|), U32(|c.query|), U32(32)]
    ensures Preimage(c) == CRH_DOMAIN + h[0] + c.method_ + h[1] + c.scheme + h[2] + c.authority
                           + h[3] + c.path + h[4] + c.query + h[5] + c.bodySha256
  {
    var t0 := CRH_DOMAIN + h[0] + c.method_;
    var t1 := t0 + h[1] + c.scheme;
    var t2 := t1 + h[2] + c.authority;
    var t3 := t2 + h[3] + c.path;
    var t4 := t3 + h[4] + c.query;
    AppendField(CRH_DOMAIN, h[0], c.method_);
    AppendField(t0, h[1], c.scheme);
    AppendField(t1, h[2], c.authority);
    AppendField(t2, h[3], c.path);
    AppendField(t3, h[4], c.query);
    AppendField(t4, h[5], c.bodySha256);
    assert [] + CRH_DOMAIN == CRH_DOMAIN;
    PreimageFields(c, t4 + h[5] + c.bodySha256);
  }

  lemma HeadersOf(c: Canonical) returns (h: seq<Bytes>)
    requires FitsU32(c)
    ensures h == [U32(|c.method_|), U32(|c.scheme|), U32(|c.authority|), U32(|c.path|), U32(|c.query|), U32(32)]
    ensures BigEndian(h[0], |c.method_|) && BigEndian(h[1], |c.scheme|) && BigEndian(h[2], |c.authority|)
    ensures BigEndian(h[3], |c.path|) && BigEndian(h[4], |c.query|) && BigEndian(h[5], 32)
  {
    var f := Fields(c);
    assert |f[0]| < TWO_32 && |f[1]| < TWO_32 && |f[2]| < TWO_32 && |f[3]| < TWO_32 && |f[4]| < TWO_32;
    h := [U32(|c.method_|), U32(|c.scheme|), U32(|c.authority|), U32(|c.path|), U32(|c.query|), U32(32)];
    LengthHeader(|c.method_|);
    LengthHeader(|c.scheme|);
    LengthHeader(|c.authority|);
    LengthHeader(|c.path|);
    LengthHeader(|c.query|);
    LengthHeader(32);
  }

  // ---- The length bound is sharp --------------------------------------------------

  predicate Zeros(s: Bytes) {
    forall i | 0 <= i < |s| :: s[i] == 0
  }

  /** NULs have no case, and neither they nor the empty scheme has a default port. */
  lemma CanonicalZeros(p: Parts, zeros: Bytes)
    requires Zeros(zeros)
    ensures Canonicalize(p.(method_ := zeros, scheme := [])) ==
            Canonical(zeros, [], Lower(p.authority), PathScope.OrRoot(p.path), p.query, p.bodySha256)
    ensures Canonicalize(p.(method_ := [], scheme := zeros)) ==
            Canonical([], zeros, Lower(p.authority), PathScope.OrRoot(p.path), p.query, p.bodySha256)
  {
    assert Upper(zeros) == zeros == Lower(zeros);
    assert HTTP[0] != 0 && HTTPS[0] != 0;
  }

  /** The lengths 0 and 2^32 share their four bytes. */
  lemma ZeroFieldsSwap(zeros: Bytes)
    requires Zeros(zeros) && |zeros| == TWO_32
    ensures Field(zeros) + Field([]) == Field([]) + Field(zeros)
  {
    LengthWraps(0);
    assert U32(0) == [0, 0, 0, 0];
    var whole := Field(zeros) + Field([]);
    assert forall i | 0 <= i < |whole| :: whole[i] == 0;
    assert forall i | 0 <= i < |whole| :: (Field([]) + Field(zeros))[i] == 0;
  }

  lemma PreimageHead(c: Canonical, d: Canonical)
    requires c.(method_ := d.method_, scheme := d.scheme) == d
    requires Field(c.method_) + Field(c.scheme) == Field(d.method_) + Field(d.scheme)
    ensures Preimage(c) == Preimage(d)
  {
    FrameSix(c);
    FrameSix(d);
  }

  /**
   A run of 2^32 NULs may move between the method and the scheme, so two different actions
   have one hash, whatever the hash function.
   */
  lemma TruncatedLengthsCollide(sha: Bytes -> Digest, p: Parts, zeros: Bytes)
    requires Zeros(zeros) && |zeros| == TWO_32
    ensures var a, b := p.(method_ := zeros, scheme := []), p.(method_ := [], scheme := zeros);
            && !SameAction(a, b)
            && Preimage(Canonicalize(a)) == Preimage(Canonicalize(b))
            && CanonicalRequestHash(sha, a) == CanonicalRequestHash(sha, b)
  {
    CanonicalZeros(p, zeros);
    ZeroFieldsSwap(zeros);
    PreimageHead(Canonicalize(p.(method_ := zeros, scheme := [])), Canonicalize(p.(method_ := [], scheme := zeros)));
  }

  predicate FieldsBelow(c: Canonical, bound: nat) {
    forall i | 0 <= i < 6 :: |Fields(c)[i]| < bound
  }

  /** Requests whose canonical fields are all shorter than the bound are told apart by their preimages. */
  ghost predicate InjectiveBelow(bound: nat) {
    forall a: Parts, b: Parts
      | FieldsBelow(Canonicalize(a), bound) && FieldsBelow(Canonicalize(b), bound) ::
      Preimage(Canonicalize(a)) == Preimage(Canonicalize(b)) ==> SameAction(a, b)
  }

  /** The documented bound is exactly the right one: one byte more and the framing is ambiguous. */
  lemma LengthBoundIsSharp(bound: nat)
    ensures InjectiveBelow(bound) <==> bound <= TWO_32
  {
    if bound <= TWO_32 {
      forall a: Parts, b: Parts
        | FieldsBelow(Canonicalize(a), bound) && FieldsBelow(Canonicalize(b), bound)
          && Preimage(Canonicalize(a)) == Preimage(Canonicalize(b))
        ensures SameAction(a, b)
      {
        PreimageInjective(a, b);
        CanonicalFibres(a, b);
      }
    } else {
      var digest: Digest := seq(32, _ => 0);
      var zeros: Bytes := seq(TWO_32, _ => 0 as byte);
      var p := Parts([], [], [], [], [], digest);
      var a, b := p.(method_ := zeros), p.(scheme := zeros);
      TruncatedLengthsCollide(_ => digest, p, zeros);
      CanonicalZeros(p, zeros);
      assert a == p.(method_ := zeros, scheme := []) && b == p.(method_ := [], scheme := zeros);
      assert FieldsBelow(Canonicalize(a), bound) && FieldsBelow(Canonicalize(b), bound);
    }
  }

  /** The incremental hasher: bytes are fed in and the digest of all of them comes out. */
  class Hasher {
    const sha: Bytes -> Digest
    var fed: Bytes

    constructor (sha: Bytes -> Digest)
      ensures this.sha == sha && fed == []
    {
      this.sha := sha;
      fed := [];
    }

    method Update(bytes: Bytes)
      modifies this
      ensures fed == old(fed) + bytes
    {
      fed := fed + bytes;
    }

    method Finalize() returns (r: Digest)
      ensures r == sha(fed)
    {
      r := sha(fed);
    }

    /** Feeds a length-prefixed field. */
    method Put(bytes: Bytes)
      modifies this
      ensures fed == old(fed) + Field(bytes)
    {
      Update(U32(|bytes|));
      Update(bytes);
    }
  }

  /** Feeds the domain and the six fields one by one; the digest is that of the decodable preimage. */
  method ComputeRequestHash(sha: Bytes -> Digest, p: Parts) returns (r: Digest)
    ensures r == CanonicalRequestHash(sha, p)
  {
    var h := new Hasher(sha);
    h.Update(CRH_DOMAIN);
    h.Put(Upper(p.method_));
    var scheme := Lower(p.scheme);
    h.Put(scheme);
    h.Put(Normalize(scheme, p.authority));
    var path := if p.path == [] then PathScope.ROOT else p.path;
    h.Put(path);
    h.Put(p.query);
    h.Put(p.bodySha256);
    PreimageFields(Canonicalize(p), h.fed);
    r := h.Finalize();
  }
}
