/**
 The demo token: `base64url(claims) "." base64url(mac)`. The keyed hash, SHA-256 and the
 claims codec are parameters collected in a `Suite`; nothing is assumed of the hashes.
 */
module Token {
  import opened ByteStrings
  import Base64Url

  type Millis = x: int | -0x8000_0000_0000_0000 <= x < 0x8000_0000_0000_0000

  datatype Scope = Scope(method_: Bytes, authority: Bytes, pathPrefix: Bytes)

  datatype Claims = Claims(
    jti: Bytes,
    agentId: Bytes,
    onBehalfOf: Option<Bytes>,
    workloadSelector: Option<Bytes>,
    scope: Scope,
    crh: Option<Bytes>,
    expUnixMs: Millis)

  datatype Suite = Suite(
    sha: Bytes -> Digest,
    mac: (Bytes, Bytes) -> Digest,
    encode: Claims -> Bytes,
    decode: Bytes -> Option<Claims>)
  {
    /** The one law of the claims codec: what was serialized deserializes to itself. */
    ghost predicate CodecLaw() {
      forall c: Claims :: decode(encode(c)) == Some(c)
    }
  }

  datatype VerifyError = Malformed | BadSignature

  function Spell(body: Bytes, sig: Bytes): Bytes {
    Base64Url.Encode(body) + [DOT] + Base64Url.Encode(sig)
  }

  function Mint(suite: Suite, claims: Claims, key: Bytes): Bytes {
    var body := suite.encode(claims);
    Spell(body, suite.mac(key, body))
  }

  function Verify(suite: Suite, token: Bytes, key: Bytes): Result<Claims, VerifyError> {
    match SplitOnce(token, DOT)
    case None => Err(Malformed)
    case Some((bBody, bSig)) =>
      match Base64Url.Decode(bBody)
      case None => Err(Malformed)
      case Some(body) =>
        match Base64Url.Decode(bSig)
        case None => Err(Malformed)
        case Some(sig) =>
          if sig != suite.mac(key, body) then Err(BadSignature)
          else
            match suite.decode(body)
            case None => Err(Malformed)
            case Some(claims) => Ok(claims)
  }

  /** The verdict on any two byte strings spelled as a token: only the MAC and the codec decide. */
  lemma VerifySpelled(suite: Suite, body: Bytes, sig: Bytes, key: Bytes)
    ensures Verify(suite, Spell(body, sig), key) ==
            if sig != suite.mac(key, body) then Err(BadSignature)
            else if suite.decode(body).None? then Err(Malformed)
            else Ok(suite.decode(body).value)
  {
    Base64Url.DecodeEncode(body);
    Base64Url.DecodeEncode(sig);
    SplitOnceAt(Base64Url.Encode(body), Base64Url.Encode(sig), DOT);
  }

  /** A token is the claims part, a '.' (byte 46) and the signature part, in this order. */
  lemma SpelledParts(body: Bytes, sig: Bytes)
    ensures SplitOnce(Spell(body, sig), 46) == Some((Base64Url.Encode(body), Base64Url.Encode(sig)))
  {
    Base64Url.DecodeEncode(body);
    SplitOnceAt(Base64Url.Encode(body), Base64Url.Encode(sig), DOT);
  }

  ghost predicate IsSpelled(token: Bytes) {
    exists body, sig :: token == Spell(body, sig)
  }

  /** A text that spells no two parts is malformed. */
  lemma VerifyUnspelled(suite: Suite, token: Bytes, key: Bytes)
    ensures !IsSpelled(token) ==> Verify(suite, token, key) == Err(Malformed)
  {
    if Verify(suite, token, key) != Err(Malformed) {
      var (bBody, bSig) := SplitOnce(token, DOT).value;
      Base64Url.EncodeDecode(bBody);
      Base64Url.EncodeDecode(bSig);
      assert token == Spell(Base64Url.Decode(bBody).value, Base64Url.Decode(bSig).value);
    }
  }

  /** A minted token verifies under its key and yields its own claims. */
  lemma VerifyMint(suite: Suite, claims: Claims, key: Bytes)
    requires suite.CodecLaw()
    ensures Verify(suite, Mint(suite, claims, key), key) == Ok(claims)
  {
    VerifySpelled(suite, suite.encode(claims), suite.mac(key, suite.encode(claims)), key);
  }

  ghost predicate SignedBody(suite: Suite, token: Bytes, key: Bytes, body: Bytes) {
    token == Spell(body, suite.mac(key, body))
  }

  /**
   Exactly which tokens are accepted: the single spelling of a body with its MAC, when the
   body decodes. A token cannot be respelled and still verify.
   */
  lemma VerifyAccepts(suite: Suite, token: Bytes, key: Bytes, claims: Claims)
    ensures Verify(suite, token, key) == Ok(claims) <==>
            exists body :: SignedBody(suite, token, key, body) && suite.decode(body) == Some(claims)
  {
    if Verify(suite, token, key) == Ok(claims) {
      var (bBody, bSig) := SplitOnce(token, DOT).value;
      Base64Url.EncodeDecode(bBody);
      Base64Url.EncodeDecode(bSig);
      assert SignedBody(suite, token, key, Base64Url.Decode(bBody).value);
    }
    if body :| SignedBody(suite, token, key, body) && suite.decode(body) == Some(claims) {
      VerifySpelled(suite, body, suite.mac(key, body), key);
    }
  }
}
