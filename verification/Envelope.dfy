/** Outer delivery envelopes: sealing with padding, canonical bytes, opening. */
module Envelope {
  import opened Common
  import opened ByteCoding
  import opened Primitives
  import Wire

  const OUTER_MAGIC: Bytes := [0x4D, 0x45, 0x4F]
  const OUTER_VERSION: byte := 1
  const OUTER_FIXED_LEN := 98
  const OUTER_SUITE := XChaCha20Poly1305
  const MAX_PADDED_LEN := MAX_CIPHERTEXT_LEN - AEAD_TAG_LEN
  const LABEL := "outer-envelope-v1"

  datatype OuterEnvelope = OuterEnvelope(
    mailbox: Bytes32,
    messageId: Bytes16,
    expiresAt: u64,
    senderEphemeral: Bytes32,
    ciphertext: Wire.Ciphertext)
  {
    predicate Valid() {
      ciphertext.Valid() && ciphertext.suite == OUTER_SUITE
    }
  }

  /** What the generator delivers to one `seal`; a missing value is a failed draw. */
  datatype Randomness = Randomness(ephemeral: Option<Bytes32>, messageId: Option<Bytes16>, nonce: Option<Bytes>)

  function AadBytes(mailbox: Bytes32, messageId: Bytes16, expiresAt: u64, ephemeral: Bytes32, bodyLen: u32): (b: Bytes)
    ensures |b| == OUTER_FIXED_LEN
  {
    OUTER_MAGIC + [OUTER_VERSION, OUTER_SUITE.Id()] + mailbox + messageId + U64Bytes(expiresAt) + ephemeral
    + [OUTER_SUITE.NonceLen()] + U32Bytes(bodyLen)
  }

  function AadOf(mailbox: Bytes32, messageId: Bytes16, expiresAt: u64, ephemeral: Bytes32,
                 bodyLen: nat): Result<Bytes> {
    if bodyLen > U32_MAX then Err(InvalidLength)
    else Ok(AadBytes(mailbox, messageId, expiresAt, ephemeral, bodyLen))
  }

  function AadOfEnvelope(e: OuterEnvelope): Result<Bytes> {
    AadOf(e.mailbox, e.messageId, e.expiresAt, e.senderEphemeral, |e.ciphertext.body|)
  }

  function Encoded(e: OuterEnvelope): Result<Bytes> {
    match AadOfEnvelope(e)
    case Err(x) => Err(x)
    case Ok(aad) => Ok(aad + e.ciphertext.nonce + e.ciphertext.body)
  }

  method EncodeAad(mailbox: Bytes32, messageId: Bytes16, expiresAt: u64, ephemeral: Bytes32, bodyLen: nat)
    returns (r: Result<Bytes>)
    ensures r == AadOf(mailbox, messageId, expiresAt, ephemeral, bodyLen)
  {
    if bodyLen > U32_MAX {
      return Err(InvalidLength);
    }
    var aad: Bytes := OUTER_MAGIC;
    aad := aad + [OUTER_VERSION];
    aad := aad + [OUTER_SUITE.Id()];
    assert aad == OUTER_MAGIC + [OUTER_VERSION, OUTER_SUITE.Id()];
    aad := aad + mailbox;
    aad := aad + messageId;
    aad := aad + U64Bytes(expiresAt);
    aad := aad + ephemeral;
    aad := aad + [OUTER_SUITE.NonceLen()];
    aad := aad + U32Bytes(bodyLen);
    return Ok(aad);
  }

  method Encode(e: OuterEnvelope) returns (r: Result<Bytes>)
    ensures r == Encoded(e)
  {
    r := EncodeAad(e.mailbox, e.messageId, e.expiresAt, e.senderEphemeral, |e.ciphertext.body|);
    if r.Err? {
      return;
    }
    var output := r.value;
    output := output + e.ciphertext.nonce;
    output := output + e.ciphertext.body;
    return Ok(output);
  }

  /** `seal`: the inner frame's bytes and `padding` zero bytes, sealed to the recipient. */
  function Sealed(c: Primitives, recipient: Bytes32, mailbox: Bytes32, expiresAt: u64, inner: Wire.InnerFrame,
                  padding: nat, random: Randomness): Result<OuterEnvelope>
  {
    if random.ephemeral.None? then Err(RandomnessUnavailable)
    else
      var ephemeral := c.publicKey(random.ephemeral.value);
      match c.agree(random.ephemeral.value, recipient)
      case None => Err(NonContributoryKeyAgreement)
      case Some(shared) =>
        if random.messageId.None? then Err(RandomnessUnavailable)
        else
          match Wire.Encoded(inner)
          case Err(x) => Err(x)
          case Ok(innerBytes) =>
            var plaintext := innerBytes + Zeros(padding);
            if |plaintext| > MAX_PADDED_LEN then Err(InvalidLength)
            else
              var aad := AadBytes(mailbox, random.messageId.value, expiresAt, ephemeral, |plaintext| + AEAD_TAG_LEN);
              match SealedWith(c, c.derive(mailbox, LABEL, shared), OUTER_SUITE, aad, plaintext, random.nonce)
              case Err(x) => Err(x)
              case Ok(ciphertext) =>
                Ok(OuterEnvelope(mailbox, random.messageId.value, expiresAt, ephemeral, ciphertext))
  }

  method Seal(c: Primitives, recipient: Bytes32, mailbox: Bytes32, expiresAt: u64, inner: Wire.InnerFrame,
              padding: nat, random: Randomness) returns (r: Result<OuterEnvelope>)
    ensures r == Sealed(c, recipient, mailbox, expiresAt, inner, padding, random)
  {
    if random.ephemeral.None? {
      return Err(RandomnessUnavailable);
    }
    var senderEphemeral := c.publicKey(random.ephemeral.value);
    var shared := c.agree(random.ephemeral.value, recipient);
    if shared.None? {
      return Err(NonContributoryKeyAgreement);
    }
    var key := c.derive(mailbox, LABEL, shared.value);
    if random.messageId.None? {
      return Err(RandomnessUnavailable);
    }
    var innerBytes := Wire.Encode(inner);
    if innerBytes.Err? {
      return Err(innerBytes.error);
    }
    var plaintextLen := |innerBytes.value| + padding;
    if plaintextLen > MAX_PADDED_LEN {
      return Err(InvalidLength);
    }
    var plaintext := innerBytes.value;
    plaintext := plaintext + Zeros(plaintextLen - |plaintext|);
    var aad := EncodeAad(mailbox, random.messageId.value, expiresAt, senderEphemeral, plaintextLen + AEAD_TAG_LEN);
    var ciphertext := SealedWith(c, key, OUTER_SUITE, aad.value, plaintext, random.nonce);
    if ciphertext.Err? {
      return Err(ciphertext.error);
    }
    return Ok(OuterEnvelope(mailbox, random.messageId.value, expiresAt, senderEphemeral, ciphertext.value));
  }

  function Open(c: Primitives, e: OuterEnvelope, secret: Bytes32, now: u64): Result<Bytes> {
    if now > e.expiresAt then Err(EnvelopeExpired)
    else
      match c.agree(secret, e.senderEphemeral)
      case None => Err(NonContributoryKeyAgreement)
      case Some(shared) =>
        match AadOfEnvelope(e)
        case Err(x) => Err(x)
        case Ok(aad) => OpenedWith(c, c.derive(e.mailbox, LABEL, shared), e.ciphertext, aad)
  }

  /** `open_inner`: one canonical frame, then nothing but zero bytes. */
  function OpenInner(c: Primitives, e: OuterEnvelope, secret: Bytes32, now: u64): Result<Wire.InnerFrame> {
    match Open(c, e, secret, now)
    case Err(x) => Err(x)
    case Ok(plaintext) =>
      match Wire.DecodePrefix(plaintext)
      case Err(x) => Err(x)
      case Ok((frame, consumed)) =>
        if exists i :: consumed <= i < |plaintext| && plaintext[i] != 0 then Err(InvalidFrame)
        else Ok(frame)
  }

  function Decode(b: Bytes): (r: Result<OuterEnvelope>)
    ensures r.Ok? ==> r.value.Valid()
  {
    if |b| < OUTER_FIXED_LEN || |b| > MAX_CIPHERTEXT_LEN + OUTER_FIXED_LEN + 24 then Err(InvalidFrame)
    else if b[0..3] != OUTER_MAGIC || b[3] != OUTER_VERSION then Err(InvalidFrame)
    else
      match AeadSuite.FromId(b[4])
      case Err(x) => Err(x)
      case Ok(suite) =>
        if suite != OUTER_SUITE then Err(InvalidFrame)
        else
          var nonceLen, bodyLen := b[93], U32At(b, 94);
          if nonceLen != OUTER_SUITE.NonceLen() || !(AEAD_TAG_LEN <= bodyLen <= MAX_CIPHERTEXT_LEN)
          then Err(InvalidFrame)
          else
            var nonceEnd := OUTER_FIXED_LEN + nonceLen;
            if |b| != nonceEnd + bodyLen then Err(InvalidFrame)
            else
              Ok(OuterEnvelope(b[5..37], b[37..53], U64At(b, 53), b[61..93],
                               Wire.Ciphertext(OUTER_SUITE, b[OUTER_FIXED_LEN..nonceEnd], b[nonceEnd..])))
  }

  // ---- canonical bytes ----------------------------------------------------------------------

  lemma {:induction false} AadFields(e: OuterEnvelope, n: u32, rest: Bytes)
    ensures var b := AadBytes(e.mailbox, e.messageId, e.expiresAt, e.senderEphemeral, n) + rest;
            && b[0..3] == OUTER_MAGIC && b[3] == OUTER_VERSION && b[4] == OUTER_SUITE.Id()
            && b[5..37] == e.mailbox && b[37..53] == e.messageId && b[53..61] == U64Bytes(e.expiresAt)
            && b[61..93] == e.senderEphemeral && b[93] == OUTER_SUITE.NonceLen() && b[94..98] == U32Bytes(n)
            && U64At(b, 53) == e.expiresAt && U32At(b, 94) == n
  {
    var b := AadBytes(e.mailbox, e.messageId, e.expiresAt, e.senderEphemeral, n) + rest;
    assert b[53..61] == U64Bytes(e.expiresAt) && b[94..98] == U32Bytes(n);
    assert U64Bytes(U64At(b, 53)) == U64Bytes(e.expiresAt) && U32Bytes(U32At(b, 94)) == U32Bytes(n);
  }

  lemma {:induction false} AadRebuilt(b: Bytes)
    requires |b| >= OUTER_FIXED_LEN && b[0..3] == OUTER_MAGIC && b[3] == OUTER_VERSION
    requires b[4] == OUTER_SUITE.Id() && b[93] == OUTER_SUITE.NonceLen()
    ensures AadBytes(b[5..37], b[37..53], U64At(b, 53), b[61..93], U32At(b, 94)) == b[..OUTER_FIXED_LEN]
  {
    assert b[..5] == OUTER_MAGIC + [OUTER_VERSION, OUTER_SUITE.Id()];
    assert b[..37] == b[..5] + b[5..37];
    assert b[..53] == b[..37] + b[37..53];
    assert b[..61] == b[..53] + b[53..61];
    assert b[..93] == b[..61] + b[61..93];
    assert b[..94] == b[..93] + [OUTER_SUITE.NonceLen()];
    assert b[..98] == b[..94] + b[94..98];
  }

  lemma {:induction false} EncodingDecodes(e: OuterEnvelope)
    requires e.Valid()
    ensures Encoded(e).Ok? && Decode(Encoded(e).value) == Ok(e)
  {
    var n := |e.ciphertext.body|;
    var tail := e.ciphertext.nonce + e.ciphertext.body;
    AadFields(e, n, tail);
    var b := AadBytes(e.mailbox, e.messageId, e.expiresAt, e.senderEphemeral, n) + tail;
    hide AadBytes;
    assert Encoded(e).value == b;
    var nonceEnd := OUTER_FIXED_LEN + |e.ciphertext.nonce|;
    assert b[OUTER_FIXED_LEN..nonceEnd] == e.ciphertext.nonce;
    assert b[nonceEnd..] == e.ciphertext.body;
  }

  lemma {:induction false} AcceptedIsCanonical(b: Bytes)
    requires Decode(b).Ok?
    ensures Encoded(Decode(b).value) == Ok(b)
  {
    AadRebuilt(b);
    hide AadBytes;
    var nonceEnd := OUTER_FIXED_LEN + 24;
    assert b == b[..OUTER_FIXED_LEN] + b[OUTER_FIXED_LEN..nonceEnd] + b[nonceEnd..];
  }

  /** Bytes are accepted as `e` exactly when they are the encoding of the valid envelope `e`. */
  lemma {:induction false} DecodesExactlyEncodings(b: Bytes, e: OuterEnvelope)
    ensures Decode(b) == Ok(e) <==> e.Valid() && Encoded(e) == Ok(b)
  {
    if Decode(b) == Ok(e) {
      AcceptedIsCanonical(b);
    }
    if e.Valid() {
      EncodingDecodes(e);
    }
  }

  /** The associated data binds mailbox, identifier, expiry, ephemeral key and body length. */
  lemma {:induction false} AadBinds(e1: OuterEnvelope, e2: OuterEnvelope)
    requires AadOfEnvelope(e1).Ok? && AadOfEnvelope(e1) == AadOfEnvelope(e2)
    ensures e1.mailbox == e2.mailbox && e1.messageId == e2.messageId && e1.expiresAt == e2.expiresAt
    ensures e1.senderEphemeral == e2.senderEphemeral && |e1.ciphertext.body| == |e2.ciphertext.body|
  {
    AadFields(e1, |e1.ciphertext.body|, []);
    AadFields(e2, |e2.ciphertext.body|, []);
  }

  /**
   Integrity for the envelopes at hand: if both carry the same ciphertext, and it
   authenticates in both, then it does so over the same associated data.
   */
  predicate AuthenticatesOnce(c: Primitives, secret: Bytes32, e1: OuterEnvelope, e2: OuterEnvelope) {
    e1.ciphertext == e2.ciphertext && Open(c, e1, secret, 0).Ok? && Open(c, e2, secret, 0).Ok? ==>
      AadOfEnvelope(e1) == AadOfEnvelope(e2)
  }

  /** A ciphertext authenticates in one envelope only: no field of its header can be changed. */
  lemma {:induction false} CiphertextDeterminesEnvelope(c: Primitives, secret: Bytes32, e1: OuterEnvelope,
                                                        e2: OuterEnvelope, now1: u64, now2: u64)
    requires AuthenticatesOnce(c, secret, e1, e2) && e1.ciphertext == e2.ciphertext
    requires Open(c, e1, secret, now1).Ok? && Open(c, e2, secret, now2).Ok?
    ensures e1 == e2
  {
    AadBinds(e1, e2);
    hide AadBytes;
  }

  // ---- end to end ---------------------------------------------------------------------------

  /** The generator delivers everything, and agreement with the recipient is contributory. */
  predicate Ready(c: Primitives, recipient: Bytes32, random: Randomness) {
    && random.ephemeral.Some? && random.messageId.Some? && random.nonce.Some?
    && |random.nonce.value| == OUTER_SUITE.NonceLen()
    && c.agree(random.ephemeral.value, recipient).Some?
  }

  /**
   For every valid inner frame and every padding length: sealing succeeds exactly
   when frame and padding fit in 2^20 - 16 bytes, and then the envelope survives its
   wire encoding and opens, until it expires, to the very same frame.
   */
  lemma {:induction false} Transport(c: Primitives, secret: Bytes32, mailbox: Bytes32, expiresAt: u64,
                                     inner: Wire.InnerFrame, padding: nat, random: Randomness, now: u64)
    requires Sound(c) && inner.ciphertext.Valid() && Ready(c, c.publicKey(secret), random)
    ensures Wire.Encoded(inner).Ok?
    ensures var r := Sealed(c, c.publicKey(secret), mailbox, expiresAt, inner, padding, random);
            if |Wire.Encoded(inner).value| + padding > MAX_PADDED_LEN then r == Err(InvalidLength)
            else
              && r.Ok? && Encoded(r.value).Ok? && Decode(Encoded(r.value).value) == Ok(r.value)
              && r.value.mailbox == mailbox && r.value.messageId == random.messageId.value
              && r.value.expiresAt == expiresAt && r.value.senderEphemeral == c.publicKey(random.ephemeral.value)
              && r.value.ciphertext.nonce == random.nonce.value
              && OpenInner(c, r.value, secret, now) == if now <= expiresAt then Ok(inner) else Err(EnvelopeExpired)
  {
    Wire.EncodedShape(inner);
    var bytes := Wire.Encoded(inner).value;
    var plaintext := bytes + Zeros(padding);
    if |plaintext| <= MAX_PADDED_LEN {
      var ephemeral := c.publicKey(random.ephemeral.value);
      var shared := c.agree(random.ephemeral.value, c.publicKey(secret)).value;
      var aad := AadBytes(mailbox, random.messageId.value, expiresAt, ephemeral, |plaintext| + AEAD_TAG_LEN);
      SealThenOpen(c, c.derive(mailbox, LABEL, shared), OUTER_SUITE, aad, plaintext, random.nonce.value);
      var e := Sealed(c, c.publicKey(secret), mailbox, expiresAt, inner, padding, random).value;
      EncodingDecodes(e);
      assert AadOfEnvelope(e) == Ok(aad);
      assert now <= expiresAt ==> Open(c, e, secret, now) == Ok(plaintext);
      hide AadBytes;
      PaddedDecodes(inner, padding);
    }
  }

  lemma {:induction false} PaddedDecodes(inner: Wire.InnerFrame, padding: nat)
    requires inner.ciphertext.Valid() && Wire.Encoded(inner).Ok?
    requires |Wire.Encoded(inner).value| + padding <= MAX_PADDED_LEN
    ensures var bytes := Wire.Encoded(inner).value;
            var plaintext := bytes + Zeros(padding);
            && Wire.DecodePrefix(plaintext) == Ok((inner, |bytes|))
            && forall i :: |bytes| <= i < |plaintext| ==> plaintext[i] == 0
  {
    Wire.PrefixDecodes(inner, Zeros(padding));
  }

  /** What opens as `f` is the encoding of `f` followed by zero bytes, and nothing else. */
  lemma {:induction false} OpensExactlyPaddedEncodings(c: Primitives, e: OuterEnvelope, secret: Bytes32, now: u64,
                                                       f: Wire.InnerFrame)
    requires Open(c, e, secret, now).Ok?
    ensures var plaintext := Open(c, e, secret, now).value;
            OpenInner(c, e, secret, now) == Ok(f) <==>
            && f.ciphertext.Valid() && Wire.Encoded(f).Ok? && |plaintext| <= Wire.MAX_FRAME_LEN
            && exists n :: plaintext == Wire.Encoded(f).value + Zeros(n)
  {
    var plaintext := Open(c, e, secret, now).value;
    hide Open;
    if OpenInner(c, e, secret, now) == Ok(f) {
      Wire.AcceptedPrefixIsCanonical(plaintext);
      var n := Wire.DecodePrefix(plaintext).value.1;
      assert plaintext == plaintext[..n] + Zeros(|plaintext| - n);
    }
    if f.ciphertext.Valid() && Wire.Encoded(f).Ok? && |plaintext| <= Wire.MAX_FRAME_LEN {
      forall n: nat | plaintext == Wire.Encoded(f).value + Zeros(n)
        ensures OpenInner(c, e, secret, now) == Ok(f)
      {
        Wire.PrefixDecodes(f, Zeros(n));
      }
    }
  }
}
