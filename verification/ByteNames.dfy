/** The bytes that stand for the ideal terms of the ratchet, and the byte frames made of them. */
module ByteNames {
  import opened Common
  import opened ByteCoding
  import opened Primitives
  import opened KeyTerms
  import Ratchet
  import Wire

  /** The bytes of identifiers, keys and secrets. */
  datatype Naming = Naming(
    session: SessionId -> Bytes32,
    secret: Secret -> Bytes32,
    dhSecret: nat -> Bytes32,
    publicKey: PublicKey -> Bytes32,
    messageKey: AeadKey -> Bytes32)

  function HeaderOf(n: Naming, h: Ratchet.FrameHeader): Wire.FrameHeader {
    Wire.FrameHeader(h.kind, n.session(h.sessionId), n.publicKey(h.ratchetPublic), h.previousChainLen, h.messageNumber)
  }

  /** `InnerFrame::seal`, with the nonce that was drawn, if it was. */
  function FrameSealed(c: Primitives, key: Bytes32, suite: AeadSuite, h: Wire.FrameHeader, plaintext: Bytes,
                       nonce: Option<Bytes>): Result<Wire.InnerFrame>
  {
    match Wire.AadOf(suite, h, |plaintext| + AEAD_TAG_LEN)
    case Err(e) => Err(e)
    case Ok(aad) =>
      match SealedWith(c, key, suite, aad, plaintext, nonce)
      case Err(e) => Err(e)
      case Ok(ciphertext) => Ok(Wire.InnerFrame(h, ciphertext))
  }

  /** `InnerFrame::open`. */
  function FrameOpened(c: Primitives, key: Bytes32, f: Wire.InnerFrame): Result<Bytes> {
    match Wire.AadOf(f.ciphertext.suite, f.header, |f.ciphertext.body|)
    case Err(e) => Err(e)
    case Ok(aad) => OpenedWith(c, key, f.ciphertext, aad)
  }

  /** Sealing a byte frame succeeds exactly up to the plaintext limit, and the frame opens to the plaintext. */
  lemma {:induction false} SealedFrameOpens(c: Primitives, key: Bytes32, suite: AeadSuite, h: Wire.FrameHeader,
                                            plaintext: Bytes, nonce: Bytes)
    requires Sound(c) && |nonce| == suite.NonceLen()
    ensures var sealed := FrameSealed(c, key, suite, h, plaintext, Some(nonce));
            && (sealed.Ok? <==> |plaintext| <= Ratchet.MAX_PLAINTEXT_LEN)
            && (sealed.Err? ==> sealed.error == InvalidLength)
            && (sealed.Ok? ==>
                  && sealed.value.header == h && sealed.value.ciphertext.Valid()
                  && FrameOpened(c, key, sealed.value) == Ok(plaintext))
  {
    var length := |plaintext| + AEAD_TAG_LEN;
    hide Wire.AadBytes, SealedWith, OpenedWith;
    if length <= U32_MAX {
      SealThenOpen(c, key, suite, Wire.AadBytes(suite, h, length), plaintext, nonce);
    }
  }

  /** The byte frame of a sealed term frame. */
  function BytesOf(c: Primitives, n: Naming, f: Ratchet.Frame, nonce: Bytes): Result<Wire.InnerFrame>
    requires f.ciphertext.Sealed?
  {
    FrameSealed(c, n.messageKey(f.ciphertext.key), f.ciphertext.suite, HeaderOf(n, f.header), f.ciphertext.plaintext,
                Some(nonce))
  }
}
