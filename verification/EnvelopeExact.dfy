/** What sealing and opening do with bytes, for any input: every field, the key, the associated data, each error. */
module EnvelopeExact {
  import opened Common
  import opened ByteCoding
  import opened Primitives
  import opened Envelope
  import opened ByteNames
  import Layouts
  import Wire

  // ---- the AEAD wrapper ---------------------------------------------------------------------------

  /** Sizes are checked before the nonce is drawn. */
  lemma {:induction false} SealWithOutcome(c: Primitives, key: Bytes32, suite: AeadSuite, aad: Bytes, plaintext: Bytes,
                                           nonce: Option<Bytes>)
    requires Sound(c) && (nonce.Some? ==> |nonce.value| == Layouts.NonceLength(suite))
    ensures SealedWith(c, key, suite, aad, plaintext, nonce) ==
            if |aad| > 65536 || |plaintext| > 0x10_0000 - 16 then Err(InvalidLength)
            else if nonce.None? then Err(RandomnessUnavailable)
            else Ok(Wire.Ciphertext(suite, nonce.value, c.seal(key, suite, nonce.value, aad, plaintext)))
  {
    if nonce.Some? {
      SealThenOpen(c, key, suite, aad, plaintext, nonce.value);
    }
  }

  // ---- sealing an envelope ------------------------------------------------------------------------

  /** The bytes of an envelope before nonce and body. */
  function HeaderOnWire(e: OuterEnvelope): Bytes
    requires e.Valid()
  {
    Layouts.EnvelopeLayout(e);
    Envelope.Encoded(e).value[..98]
  }

  /**
   The outcome of `seal`: the envelope goes to the mailbox it was given, and its body
   is the padded frame, sealed with the key derived for that mailbox over the header
   that goes on the wire.
   */
  lemma {:induction false} SealOutcome(c: Primitives, recipient: Bytes32, mailbox: Bytes32, expiresAt: u64,
                                       inner: Wire.InnerFrame, padding: nat, random: Randomness)
    requires Sound(c) && inner.ciphertext.Valid() && (random.nonce.Some? ==> |random.nonce.value| == 24)
    ensures Wire.Encoded(inner).Ok?
    ensures var r := Sealed(c, recipient, mailbox, expiresAt, inner, padding, random);
            if random.ephemeral.None? then r == Err(RandomnessUnavailable)
            else
              var shared := c.agree(random.ephemeral.value, recipient);
              if shared.None? then r == Err(NonContributoryKeyAgreement)
              else if random.messageId.None? then r == Err(RandomnessUnavailable)
              else if |Wire.Encoded(inner).value| + padding > 0x10_0000 - 16 then r == Err(InvalidLength)
              else if random.nonce.None? then r == Err(RandomnessUnavailable)
              else
                && r.Ok? && r.value.Valid()
                && r.value.mailbox == mailbox && r.value.messageId == random.messageId.value
                && r.value.expiresAt == expiresAt && r.value.senderEphemeral == c.publicKey(random.ephemeral.value)
                && r.value.ciphertext.nonce == random.nonce.value
                && r.value.ciphertext.body ==
                   c.seal(c.derive(mailbox, "outer-envelope-v1", shared.value), XChaCha20Poly1305, random.nonce.value,
                          HeaderOnWire(r.value), Wire.Encoded(inner).value + Zeros(padding))
  {
    Wire.EncodedShape(inner);
    var plaintext := Wire.Encoded(inner).value + Zeros(padding);
    hide Wire.Encoded;
    if random.ephemeral.Some? && random.messageId.Some? && |plaintext| <= MAX_PADDED_LEN {
      var ephemeral := c.publicKey(random.ephemeral.value);
      var shared := c.agree(random.ephemeral.value, recipient);
      if shared.Some? {
        var aad := AadBytes(mailbox, random.messageId.value, expiresAt, ephemeral, |plaintext| + AEAD_TAG_LEN);
        var key := c.derive(mailbox, "outer-envelope-v1", shared.value);
        SealWithOutcome(c, key, XChaCha20Poly1305, aad, plaintext, random.nonce);
        hide SealedWith, AadBytes;
        if random.nonce.Some? {
          var body := c.seal(key, XChaCha20Poly1305, random.nonce.value, aad, plaintext);
          assert |body| == |plaintext| + 16;
          var e := OuterEnvelope(mailbox, random.messageId.value, expiresAt, ephemeral,
                                 Wire.Ciphertext(XChaCha20Poly1305, random.nonce.value, body));
          HeaderIsAad(e);
        }
      }
    }
  }

  /** The associated data of an envelope is its header on the wire. */
  lemma {:induction false} HeaderIsAad(e: OuterEnvelope)
    requires e.Valid()
    ensures AadOfEnvelope(e) == Ok(HeaderOnWire(e))
  {
    var aad := AadBytes(e.mailbox, e.messageId, e.expiresAt, e.senderEphemeral, |e.ciphertext.body|);
    hide AadBytes;
    assert (aad + e.ciphertext.nonce + e.ciphertext.body)[..98] == aad;
  }

  // ---- opening an envelope ------------------------------------------------------------------------

  /** The outcome of `open`. */
  lemma {:induction false} OpenOutcome(c: Primitives, e: OuterEnvelope, secret: Bytes32, now: u64)
    requires e.Valid()
    ensures Open(c, e, secret, now) ==
            if now > e.expiresAt then Err(EnvelopeExpired)
            else
              var shared := c.agree(secret, e.senderEphemeral);
              if shared.None? then Err(NonContributoryKeyAgreement)
              else
                var plaintext := c.open(c.derive(e.mailbox, "outer-envelope-v1", shared.value), XChaCha20Poly1305,
                                        e.ciphertext.nonce, HeaderOnWire(e), e.ciphertext.body);
                if plaintext.None? then Err(AuthenticationFailed) else Ok(plaintext.value)
  {
    HeaderIsAad(e);
    hide AadOfEnvelope;
  }

  /** The outcome of `open_inner`, given what was opened. */
  lemma {:induction false} OpenInnerOutcome(c: Primitives, e: OuterEnvelope, secret: Bytes32, now: u64)
    ensures var r := OpenInner(c, e, secret, now);
            match Open(c, e, secret, now)
            case Err(x) => r == Err(x)
            case Ok(plaintext) =>
              (match Wire.DecodePrefix(plaintext)
               case Err(x) => r == Err(x)
               case Ok((frame, n)) =>
                 && (plaintext[n..] == Zeros(|plaintext| - n) ==> r == Ok(frame))
                 && (plaintext[n..] != Zeros(|plaintext| - n) ==> r == Err(InvalidFrame)))
  {
    hide Open, Wire.DecodePrefix;
    var plaintext := Open(c, e, secret, now);
    if plaintext.Ok? && Wire.DecodePrefix(plaintext.value).Ok? {
      var p, n := plaintext.value, Wire.DecodePrefix(plaintext.value).value.1;
      if forall i :: n <= i < |p| ==> p[i] == 0 {
        assert p[n..] == Zeros(|p| - n);
      } else {
        var i :| n <= i < |p| && p[i] != 0;
        assert p[n..][i - n] != 0;
      }
    }
  }

  /**
   The header is authenticated: take a valid envelope, keep nonce and body, and change
   any field of the header, the mailbox for instance. If its body opens over no other
   header than its own, nothing is opened, and in time the error is the unauthentic one.
   */
  lemma {:induction false} ChangedHeaderFails(c: Primitives, e: OuterEnvelope, changed: OuterEnvelope, secret: Bytes32,
                                              now: u64)
    requires e.Valid() && changed.Valid() && changed.ciphertext == e.ciphertext && changed != e
    requires forall key ::
               c.open(key, XChaCha20Poly1305, e.ciphertext.nonce, HeaderOnWire(changed), e.ciphertext.body).Some? ==>
                 HeaderOnWire(changed) == HeaderOnWire(e)
    ensures Open(c, changed, secret, now).Err?
    ensures now <= changed.expiresAt && c.agree(secret, changed.senderEphemeral).Some? ==>
              Open(c, changed, secret, now) == Err(AuthenticationFailed)
  {
    OpenOutcome(c, changed, secret, now);
    hide Open, Envelope.Encoded;
    if HeaderOnWire(changed) == HeaderOnWire(e) {
      SameHeaderSameFields(e, changed);
    }
  }

  lemma {:induction false} SameHeaderSameFields(e1: OuterEnvelope, e2: OuterEnvelope)
    requires e1.Valid() && e2.Valid() && HeaderOnWire(e1) == HeaderOnWire(e2)
    ensures e1.mailbox == e2.mailbox && e1.messageId == e2.messageId && e1.expiresAt == e2.expiresAt
    ensures e1.senderEphemeral == e2.senderEphemeral
  {
    HeaderIsAad(e1);
    HeaderIsAad(e2);
    AadBinds(e1, e2);
  }

  // ---- inner frames -------------------------------------------------------------------------------

  /** The bytes of a frame before nonce and body. */
  function FrameHeaderOnWire(f: Wire.InnerFrame): Bytes
    requires f.ciphertext.Valid()
  {
    Layouts.FrameLayout(f);
    Wire.Encoded(f).value[..83]
  }

  lemma {:induction false} FrameHeaderIsAad(f: Wire.InnerFrame)
    requires f.ciphertext.Valid()
    ensures Wire.AadOf(f.ciphertext.suite, f.header, |f.ciphertext.body|) == Ok(FrameHeaderOnWire(f))
  {
    var aad := Wire.AadBytes(f.ciphertext.suite, f.header, |f.ciphertext.body|);
    hide Wire.AadBytes;
    assert (aad + f.ciphertext.nonce + f.ciphertext.body)[..83] == aad;
  }

  /** The outcome of sealing an inner frame: the body is sealed over the header that goes on the wire. */
  lemma {:induction false} FrameSealOutcome(c: Primitives, key: Bytes32, suite: AeadSuite, h: Wire.FrameHeader,
                                            plaintext: Bytes, nonce: Option<Bytes>)
    requires Sound(c) && (nonce.Some? ==> |nonce.value| == Layouts.NonceLength(suite))
    ensures var r := FrameSealed(c, key, suite, h, plaintext, nonce);
            if |plaintext| > 0x10_0000 - 16 then r == Err(InvalidLength)
            else if nonce.None? then r == Err(RandomnessUnavailable)
            else
              && r.Ok? && r.value.header == h && r.value.ciphertext.suite == suite
              && r.value.ciphertext.nonce == nonce.value && r.value.ciphertext.Valid()
              && r.value.ciphertext.body == c.seal(key, suite, nonce.value, FrameHeaderOnWire(r.value), plaintext)
  {
    if |plaintext| + 16 <= U32_MAX {
      var aad := Wire.AadBytes(suite, h, |plaintext| + 16);
      SealWithOutcome(c, key, suite, aad, plaintext, nonce);
      hide SealedWith, Wire.AadBytes;
      if |plaintext| <= 0x10_0000 - 16 && nonce.Some? {
        var body := c.seal(key, suite, nonce.value, aad, plaintext);
        assert |body| == |plaintext| + 16;
        FrameHeaderIsAad(Wire.InnerFrame(h, Wire.Ciphertext(suite, nonce.value, body)));
      }
    }
  }

  /** The outcome of opening an inner frame. */
  lemma {:induction false} FrameOpenOutcome(c: Primitives, key: Bytes32, f: Wire.InnerFrame)
    requires f.ciphertext.Valid()
    ensures FrameOpened(c, key, f) ==
            var t := f.ciphertext;
            var plaintext := c.open(key, t.suite, t.nonce, FrameHeaderOnWire(f), t.body);
            if plaintext.None? then Err(AuthenticationFailed) else Ok(plaintext.value)
  {
    FrameHeaderIsAad(f);
    hide Wire.AadOf;
  }

  /** No field of a frame's header, and no suite, can be changed either. */
  lemma {:induction false} ChangedFrameFails(c: Primitives, f: Wire.InnerFrame, changed: Wire.InnerFrame, key: Bytes32)
    requires f.ciphertext.Valid() && changed.ciphertext.Valid() && changed.header != f.header
    requires changed.ciphertext == f.ciphertext
    requires var t := f.ciphertext;
             c.open(key, t.suite, t.nonce, FrameHeaderOnWire(changed), t.body).Some? ==>
               FrameHeaderOnWire(changed) == FrameHeaderOnWire(f)
    ensures FrameOpened(c, key, changed) == Err(AuthenticationFailed)
  {
    FrameOpenOutcome(c, key, changed);
    FrameHeaderIsAad(f);
    FrameHeaderIsAad(changed);
    hide FrameOpened;
    if FrameHeaderOnWire(changed) == FrameHeaderOnWire(f) {
      Wire.AadBinds(f.ciphertext.suite, f.header, |f.ciphertext.body|,
                    f.ciphertext.suite, changed.header, |f.ciphertext.body|);
    }
  }
}
