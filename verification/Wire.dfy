/** Canonical bytes of inner frames. */
module Wire {
  import opened Common
  import opened ByteCoding

  const MAGIC: Bytes := [0x4D, 0x45, 0x46]
  const VERSION: byte := 1
  const FIXED_HEADER_LEN := 83
  const MAX_FRAME_LEN := MAX_CIPHERTEXT_LEN + FIXED_HEADER_LEN + 24

  datatype FrameHeader = FrameHeader(
    kind: FrameKind,
    sessionId: Bytes32,
    ratchetPublic: Bytes32,
    previousChainLen: u32,
    messageNumber: u32)

  /** A ciphertext as `from_parts` validates it. */
  datatype Ciphertext = Ciphertext(suite: AeadSuite, nonce: Bytes, body: Bytes) {
    predicate Valid() {
      |nonce| == suite.NonceLen() && AEAD_TAG_LEN <= |body| <= MAX_CIPHERTEXT_LEN
    }
  }

  datatype InnerFrame = InnerFrame(header: FrameHeader, ciphertext: Ciphertext)

  /** The associated data: every header field, at its fixed place. */
  function AadBytes(suite: AeadSuite, h: FrameHeader, bodyLen: u32): (b: Bytes)
    ensures |b| == FIXED_HEADER_LEN
  {
    MAGIC + [VERSION, suite.Id(), h.kind.Id()] + h.sessionId + h.ratchetPublic
    + U32Bytes(h.previousChainLen) + U32Bytes(h.messageNumber) + [suite.NonceLen()] + U32Bytes(bodyLen)
  }

  function AadOf(suite: AeadSuite, h: FrameHeader, bodyLen: nat): Result<Bytes> {
    if bodyLen > U32_MAX then Err(InvalidLength) else Ok(AadBytes(suite, h, bodyLen))
  }

  function Encoded(f: InnerFrame): Result<Bytes> {
    match AadOf(f.ciphertext.suite, f.header, |f.ciphertext.body|)
    case Err(e) => Err(e)
    case Ok(aad) => Ok(aad + f.ciphertext.nonce + f.ciphertext.body)
  }

  method EncodeAad(suite: AeadSuite, h: FrameHeader, bodyLen: nat) returns (r: Result<Bytes>)
    ensures r == AadOf(suite, h, bodyLen)
  {
    if bodyLen > U32_MAX {
      return Err(InvalidLength);
    }
    var output: Bytes := MAGIC;
    output := output + [VERSION];
    output := output + [suite.Id()];
    output := output + [h.kind.Id()];
    assert output == MAGIC + [VERSION, suite.Id(), h.kind.Id()];
    output := output + h.sessionId;
    output := output + h.ratchetPublic;
    output := output + U32Bytes(h.previousChainLen);
    output := output + U32Bytes(h.messageNumber);
    output := output + [suite.NonceLen()];
    output := output + U32Bytes(bodyLen);
    return Ok(output);
  }

  method Encode(f: InnerFrame) returns (r: Result<Bytes>)
    ensures r == Encoded(f)
  {
    r := EncodeAad(f.ciphertext.suite, f.header, |f.ciphertext.body|);
    if r.Err? {
      return;
    }
    var output := r.value;
    output := output + f.ciphertext.nonce;
    output := output + f.ciphertext.body;
    return Ok(output);
  }

  function HeaderAt(b: Bytes, kind: FrameKind): FrameHeader
    requires |b| >= FIXED_HEADER_LEN
  {
    FrameHeader(kind, b[6..38], b[38..70], U32At(b, 70), U32At(b, 74))
  }

  /** Parses one frame at the start of `b`, with the length it takes there. */
  function DecodePrefix(b: Bytes): (r: Result<(InnerFrame, nat)>)
    ensures r.Ok? ==> r.value.0.ciphertext.Valid() && r.value.1 <= |b| <= MAX_FRAME_LEN
  {
    if |b| < FIXED_HEADER_LEN || |b| > MAX_FRAME_LEN then Err(InvalidFrame)
    else if b[0..3] != MAGIC || b[3] != VERSION then Err(InvalidFrame)
    else
      match AeadSuite.FromId(b[4])
      case Err(e) => Err(e)
      case Ok(suite) =>
        match FrameKind.FromId(b[5])
        case Err(e) => Err(e)
        case Ok(kind) =>
          var nonceLen, bodyLen := b[78], U32At(b, 79);
          if nonceLen != suite.NonceLen() || !(AEAD_TAG_LEN <= bodyLen <= MAX_CIPHERTEXT_LEN)
          then Err(InvalidFrame)
          else
            var nonceEnd := FIXED_HEADER_LEN + nonceLen;
            var expected := nonceEnd + bodyLen;
            if |b| < expected then Err(InvalidFrame)
            else Ok((InnerFrame(HeaderAt(b, kind),
                                Ciphertext(suite, b[FIXED_HEADER_LEN..nonceEnd], b[nonceEnd..expected])),
                     expected))
  }

  /** Parses a complete frame; trailing bytes are refused. */
  function Decode(b: Bytes): Result<InnerFrame> {
    match DecodePrefix(b)
    case Err(e) => Err(e)
    case Ok((f, consumed)) => if consumed != |b| then Err(InvalidFrame) else Ok(f)
  }

  // ---- fields and bytes ---------------------------------------------------------------------

  lemma {:induction false} IdsRoundTrip(suite: AeadSuite, kind: FrameKind)
    ensures AeadSuite.FromId(suite.Id()) == Ok(suite) && FrameKind.FromId(kind.Id()) == Ok(kind)
  {
  }

  /** Where each field of the associated data is found, whatever follows it. */
  lemma {:induction false} AadFields(suite: AeadSuite, h: FrameHeader, n: u32, rest: Bytes)
    ensures var b := AadBytes(suite, h, n) + rest;
            && b[0..3] == MAGIC && b[3] == VERSION && b[4] == suite.Id() && b[5] == h.kind.Id()
            && b[6..38] == h.sessionId && b[38..70] == h.ratchetPublic
            && b[70..74] == U32Bytes(h.previousChainLen) && b[74..78] == U32Bytes(h.messageNumber)
            && b[78] == suite.NonceLen() && b[79..83] == U32Bytes(n)
  {
  }

  lemma {:induction false} FieldsDetermineHeader(suite: AeadSuite, h: FrameHeader, n: u32, rest: Bytes)
    ensures var b := AadBytes(suite, h, n) + rest;
            HeaderAt(b, h.kind) == h && U32At(b, 79) == n
  {
    AadFields(suite, h, n, rest);
    hide AadBytes;
    var b := AadBytes(suite, h, n) + rest;
    SameU32(U32At(b, 70), h.previousChainLen);
    SameU32(U32At(b, 74), h.messageNumber);
    SameU32(U32At(b, 79), n);
  }

  /** Bytes with the fixed fields in place are the associated data of the fields read from them. */
  lemma {:induction false} AadRebuilt(b: Bytes, suite: AeadSuite, kind: FrameKind)
    requires |b| >= FIXED_HEADER_LEN && b[0..3] == MAGIC && b[3] == VERSION
    requires b[4] == suite.Id() && b[5] == kind.Id() && b[78] == suite.NonceLen()
    ensures AadBytes(suite, HeaderAt(b, kind), U32At(b, 79)) == b[..FIXED_HEADER_LEN]
  {
    assert b[..6] == MAGIC + [VERSION, suite.Id(), kind.Id()];
    assert b[..38] == b[..6] + b[6..38];
    assert b[..70] == b[..38] + b[38..70];
    assert b[..74] == b[..70] + b[70..74];
    assert b[..78] == b[..74] + b[74..78];
    assert b[..79] == b[..78] + [suite.NonceLen()];
    assert b[..83] == b[..79] + b[79..83];
  }

  // ---- canonical and prefix-free ------------------------------------------------------------

  lemma {:induction false} EncodedShape(f: InnerFrame)
    requires f.ciphertext.Valid()
    ensures Encoded(f).Ok?
    ensures |Encoded(f).value| == FIXED_HEADER_LEN + |f.ciphertext.nonce| + |f.ciphertext.body| <= MAX_FRAME_LEN
  {
  }

  /**
   Followed by any bytes at all, an encoding decodes to its frame and its own
   length, as long as the whole is within the size limit; beyond it, it is refused.
   */
  lemma {:induction false} PrefixDecodes(f: InnerFrame, rest: Bytes)
    requires f.ciphertext.Valid()
    ensures Encoded(f).Ok?
    ensures var e := Encoded(f).value;
            DecodePrefix(e + rest) ==
            if |e| + |rest| <= MAX_FRAME_LEN then Ok((f, |e|)) else Err(InvalidFrame)
  {
    var c := f.ciphertext;
    EncodedShape(f);
    var e, n := Encoded(f).value, |c.body|;
    var tail := c.nonce + c.body + rest;
    var b := AadBytes(c.suite, f.header, n) + tail;
    assert e + rest == b;
    AadFields(c.suite, f.header, n, tail);
    FieldsDetermineHeader(c.suite, f.header, n, tail);
    IdsRoundTrip(c.suite, f.header.kind);
    hide AadBytes, HeaderAt;
    var nonceEnd := FIXED_HEADER_LEN + |c.nonce|;
    assert b[FIXED_HEADER_LEN..nonceEnd] == c.nonce;
    assert b[nonceEnd..nonceEnd + n] == c.body;
  }

  /** Whatever is accepted at the start of an input is the encoding of the frame returned. */
  lemma {:induction false} AcceptedPrefixIsCanonical(b: Bytes)
    requires DecodePrefix(b).Ok?
    ensures var (f, n) := DecodePrefix(b).value;
            f.ciphertext.Valid() && Encoded(f) == Ok(b[..n])
  {
    var (f, n) := DecodePrefix(b).value;
    var c := f.ciphertext;
    AadRebuilt(b, c.suite, f.header.kind);
    hide AadBytes, HeaderAt;
    var nonceEnd := FIXED_HEADER_LEN + |c.nonce|;
    assert b[..n] == b[..FIXED_HEADER_LEN] + b[FIXED_HEADER_LEN..nonceEnd] + b[nonceEnd..n];
  }

  /** A complete input is accepted as `f` exactly when it is the encoding of the valid frame `f`. */
  lemma {:induction false} DecodesExactlyEncodings(b: Bytes, f: InnerFrame)
    ensures Decode(b) == Ok(f) <==> f.ciphertext.Valid() && Encoded(f) == Ok(b)
  {
    if Decode(b) == Ok(f) {
      AcceptedPrefixIsCanonical(b);
      assert b[..|b|] == b;
    }
    if f.ciphertext.Valid() && Encoded(f) == Ok(b) {
      EncodedShape(f);
      PrefixDecodes(f, []);
      assert b + [] == b;
    }
  }

  /** No encoding is a proper prefix of another. */
  lemma {:induction false} PrefixFree(f: InnerFrame, g: InnerFrame)
    requires f.ciphertext.Valid() && g.ciphertext.Valid()
    requires Encoded(f).Ok? && Encoded(g).Ok? && Encoded(f).value <= Encoded(g).value
    ensures f == g
  {
    var e, b := Encoded(f).value, Encoded(g).value;
    EncodedShape(g);
    PrefixDecodes(f, b[|e|..]);
    PrefixDecodes(g, []);
    assert e + b[|e|..] == b && b + [] == b;
  }

  /** The associated data binds the suite, every header field and the body length. */
  lemma {:induction false} AadBinds(s1: AeadSuite, h1: FrameHeader, n1: nat, s2: AeadSuite, h2: FrameHeader, n2: nat)
    requires AadOf(s1, h1, n1).Ok? && AadOf(s1, h1, n1) == AadOf(s2, h2, n2)
    ensures s1 == s2 && h1 == h2 && n1 == n2
  {
    AadFields(s1, h1, n1, []);
    AadFields(s2, h2, n2, []);
    FieldsDetermineHeader(s1, h1, n1, []);
    FieldsDetermineHeader(s2, h2, n2, []);
    IdsRoundTrip(s1, h1.kind);
    IdsRoundTrip(s2, h2.kind);
  }
}
