/**
 From `encrypt` to `decrypt` over the wire: the byte frame of what one endpoint
 encrypts, sealed into an envelope, encoded, decoded and opened, yields the
 plaintext that the receiving endpoint returns.
 */
module SessionTransport {
  import opened Common
  import opened ByteCoding
  import opened Primitives
  import opened Ratchet
  import opened Session
  import opened SessionInvariant
  import opened SessionDelivery
  import opened SessionTheorems
  import opened ByteNames
  import Envelope
  import Wire

  /** One way through the delivery service: the recipient, the routing data, the padding and the draws. */
  datatype Route = Route(
    secret: Bytes32,
    mailbox: Bytes32,
    expiresAt: u64,
    padding: nat,
    nonce: Bytes,
    random: Envelope.Randomness)

  ghost predicate Usable(c: Primitives, route: Route, suite: AeadSuite) {
    && Sound(c) && |route.nonce| == suite.NonceLen()
    && Envelope.Ready(c, c.publicKey(route.secret), route.random)
  }

  function SealedOn(c: Primitives, route: Route, inner: Wire.InnerFrame): Result<Envelope.OuterEnvelope> {
    Envelope.Sealed(c, c.publicKey(route.secret), route.mailbox, route.expiresAt, inner, route.padding, route.random)
  }

  /** What arrives: the envelope's bytes are decoded, opened at `now`, and the frame in them is opened with `key`. */
  function Arrived(c: Primitives, route: Route, bytes: Bytes, now: u64, key: Bytes32)
    : Result<(Wire.FrameHeader, Bytes)>
  {
    match Envelope.Decode(bytes)
    case Err(x) => Err(x)
    case Ok(e) =>
      match Envelope.OpenInner(c, e, route.secret, now)
      case Err(x) => Err(x)
      case Ok(inner) =>
        match FrameOpened(c, key, inner)
        case Err(x) => Err(x)
        case Ok(plaintext) => Ok((inner.header, plaintext))
  }

  /** The length of the byte frame that carries `plaintext`. */
  function FrameLength(suite: AeadSuite, plaintext: seq<byte>): nat {
    Wire.FIXED_HEADER_LEN + suite.NonceLen() + |plaintext| + AEAD_TAG_LEN
  }

  /**
   A term frame with a plaintext within the limit, as bytes: it can be sent in one
   envelope exactly if frame and padding fit, and then, with the name of a key that
   opens the term frame, the same header and the same plaintext arrive.
   */
  lemma {:induction false} FrameArrives(c: Primitives, n: Naming, f: Frame, route: Route, now: u64)
    requires f.ciphertext.Sealed? && f.ciphertext.aad == f.header && |f.ciphertext.plaintext| <= MAX_PLAINTEXT_LEN
    requires Usable(c, route, f.ciphertext.suite) && now <= route.expiresAt
    ensures BytesOf(c, n, f, route.nonce).Ok?
    ensures var sealed := SealedOn(c, route, BytesOf(c, n, f, route.nonce).value);
            && (sealed.Ok? <==>
                  FrameLength(f.ciphertext.suite, f.ciphertext.plaintext) + route.padding <= Envelope.MAX_PADDED_LEN)
            && (sealed.Ok? ==>
                  && Envelope.Encoded(sealed.value).Ok?
                  && forall key :: f.Open(key).Ok? ==>
                       Arrived(c, route, Envelope.Encoded(sealed.value).value, now, n.messageKey(key))
                       == Ok((HeaderOf(n, f.header), f.Open(key).value)))
  {
    var t := f.ciphertext;
    SealedFrameOpens(c, n.messageKey(t.key), t.suite, HeaderOf(n, f.header), t.plaintext, route.nonce);
    SealedLength(c, n.messageKey(t.key), t.suite, HeaderOf(n, f.header), t.plaintext, route.nonce);
    hide FrameSealed, FrameOpened, Envelope.Sealed, Envelope.OpenInner, Envelope.Decode, Envelope.Encoded;
    var inner := BytesOf(c, n, f, route.nonce).value;
    Wire.EncodedShape(inner);
    hide Wire.Encoded;
    Envelope.Transport(c, route.secret, route.mailbox, route.expiresAt, inner, route.padding, route.random, now);
  }

  lemma {:induction false} SealedLength(c: Primitives, key: Bytes32, suite: AeadSuite, h: Wire.FrameHeader,
                                        plaintext: Bytes, nonce: Bytes)
    requires Sound(c) && |nonce| == suite.NonceLen() && |plaintext| <= MAX_PLAINTEXT_LEN
    ensures var sealed := FrameSealed(c, key, suite, h, plaintext, Some(nonce));
            sealed.Ok? ==>
              && |sealed.value.ciphertext.nonce| == suite.NonceLen()
              && |sealed.value.ciphertext.body| == |plaintext| + AEAD_TAG_LEN
  {
    SealThenOpen(c, key, suite, Wire.AadBytes(suite, h, |plaintext| + AEAD_TAG_LEN), plaintext, nonce);
    hide Wire.AadBytes;
  }

  // ---- in a run -----------------------------------------------------------------------------

  ghost predicate PlaintextsFit(sent: seq<SentFrame>) {
    forall k :: 0 <= k < |sent| ==> |sent[k].plaintext| <= MAX_PLAINTEXT_LEN
  }

  lemma {:induction false} FitStep(w: World, e: Event)
    requires PlaintextsFit(w.sent)
    ensures PlaintextsFit(Step(w, e).sent)
  {
    hide Decrypted, Rotated;
  }

  lemma {:induction false} FitRun(w: World, events: seq<Event>, end: World)
    requires PlaintextsFit(w.sent) && Reaches(w, events, end)
    ensures PlaintextsFit(end.sent)
    decreases |events|
  {
    hide Step, Allowed, PlaintextsFit;
    if |events| > 0 {
      FitStep(w, events[0]);
      FitRun(Step(w, events[0]), events[1..], end);
    }
  }

  /** A frame sent in a run is a sealed one, of the common suite, over its own header, and within the limit. */
  lemma {:induction false} SentBody(w: World, k: nat)
    requires Reachable(w) && k < |w.sent|
    ensures var t := w.sent[k].frame.ciphertext;
            && t.Sealed? && t.aad == w.sent[k].frame.header && t.plaintext == w.sent[k].plaintext
            && t.suite == w.alice.suite && |t.plaintext| <= MAX_PLAINTEXT_LEN
            && t.aad.sessionId == w.alice.sessionId == w.bob.sessionId
  {
    var es := ReachableInv(w);
    assert Honest(w.At(w.sent[k].sender), es, w.sent[k]);
    HonestBody(w, es, w.sent[k]);
    var start, events :| IsStart(start) && Reaches(start, events, w);
    assert w.At(Alice) == w.alice;
    hide Inv, Honest, Reaches;
    FitRun(start, events, w);
  }

  /**
   End to end, in every run: a sent frame that the receiver can open is put into
   bytes, sealed, encoded, decoded and opened with the name of its message key; what
   arrives is its header, with the kind that was passed to `encrypt`, and the plaintext
   that `decrypt` returns, which is the one that was encrypted.
   */
  lemma {:induction false} SentFrameArrives(w: World, p: Party, k: nat, generated: Option<nat>,
                                            c: Primitives, n: Naming, route: Route, now: u64)
    requires Reachable(w) && k < |w.sent| && Openable(w, p, w.sent[k], generated)
    requires Usable(c, route, w.alice.suite) && now <= route.expiresAt
    requires FrameLength(w.alice.suite, w.sent[k].plaintext) + route.padding <= Envelope.MAX_PADDED_LEN
    ensures var f := w.sent[k].frame;
            && f.ciphertext.Sealed? && BytesOf(c, n, f, route.nonce).Ok?
            && var sealed := SealedOn(c, route, BytesOf(c, n, f, route.nonce).value);
            && sealed.Ok? && Envelope.Encoded(sealed.value).Ok?
            && Decrypted(w.At(p), f, generated).1 == Ok(w.sent[k].plaintext)
            && Arrived(c, route, Envelope.Encoded(sealed.value).value, now, n.messageKey(f.ciphertext.key))
               == Ok((Wire.FrameHeader(w.sent[k].kind, n.session(w.At(p).sessionId),
                                       n.publicKey(f.header.ratchetPublic), f.header.previousChainLen,
                                       f.header.messageNumber),
                      w.sent[k].plaintext))
  {
    var f := w.sent[k].frame;
    DeliveryAccepts(w, p, k, generated);
    SentBody(w, k);
    ExactlyOnce(w);
    hide Reachable, Openable, Decrypted, BytesOf, SealedOn, Arrived, Usable, Envelope.Encoded;
    FrameArrives(c, n, f, route, now);
    assert f.Open(f.ciphertext.key).Ok?;
  }
}
