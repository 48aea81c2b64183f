/** What each parser makes of any bytes: the first check that fails and its error, or every field and its place. */
module ParsersExact {
  import opened Common
  import opened ByteCoding
  import opened Layouts
  import opened StateExact
  import Envelope
  import HandshakeCodec
  import Wire

  predicate InRange(n: nat) {
    16 <= n <= 0x10_0000
  }

  /** The nonce length of a suite number. */
  function NonceLengthOf(number: byte): nat {
    if number == 4 then 24 else 12
  }

  /** `decode_prefix` of an inner frame. */
  lemma {:induction false} FramePrefixOutcome(b: Bytes)
    ensures var r := Wire.DecodePrefix(b);
            if |b| < 83 || |b| > 0x10_0000 + 107 || b[..4] != [0x4D, 0x45, 0x46, 1] then r == Err(InvalidFrame)
            else if !(1 <= b[4] <= 4) then r == Err(UnsupportedSuite)
            else if !(1 <= b[5] <= 5) then r == Err(InvalidFrame)
            else
              var n, m := NonceLengthOf(b[4]), Four(b, 79);
              if b[78] != n || !InRange(m) || |b| < 83 + n + m then r == Err(InvalidFrame)
              else
                && r.Ok? && r.value.1 == 83 + n + m
                && var (h, c) := (r.value.0.header, r.value.0.ciphertext);
                && KindNumber(h.kind) == b[5] && h.sessionId == b[6..38] && h.ratchetPublic == b[38..70]
                && h.previousChainLen == Four(b, 70) && h.messageNumber == Four(b, 74)
                && SuiteNumber(c.suite) == b[4] && c.nonce == b[83..83 + n] && c.body == b[83 + n..83 + n + m]
  {
    if |b| >= 83 {
      FourRead(b, 70);
      FourRead(b, 74);
      FourRead(b, 79);
      FirstFour(b);
    }
    hide Four;
  }

  lemma {:induction false} FirstFour(b: Bytes)
    requires |b| >= 4
    ensures forall x: byte, y: byte, z: byte, v: byte :: b[..4] == [x, y, z, v] <==> b[0..3] == [x, y, z] && b[3] == v
    ensures b[0..3] == b[..3]
  {
    assert b[..4] == b[0..3] + [b[3]];
    forall x: byte, y: byte, z: byte, v: byte
      ensures b[..4] == [x, y, z, v] <==> b[0..3] == [x, y, z] && b[3] == v
    {
      var w := [x, y, z, v];
      assert w == [x, y, z] + [v];
      if b[..4] == w {
        assert b[0] == w[0] && b[1] == w[1] && b[2] == w[2] && b[3] == w[3];
      }
    }
  }

  /** `decode` of an inner frame refuses what follows. */
  lemma {:induction false} FrameOutcome(b: Bytes)
    ensures Wire.Decode(b) ==
            match Wire.DecodePrefix(b)
            case Err(e) => Err(e)
            case Ok((f, n)) => if n < |b| then Err(InvalidFrame) else Ok(f)
  {
    hide Wire.DecodePrefix;
  }

  /** `decode` of an outer envelope. */
  lemma {:induction false} EnvelopeOutcome(b: Bytes)
    ensures var r := Envelope.Decode(b);
            if |b| < 98 || |b| > 0x10_0000 + 122 || b[..4] != [0x4D, 0x45, 0x4F, 1] then r == Err(InvalidFrame)
            else if !(1 <= b[4] <= 4) then r == Err(UnsupportedSuite)
            else if b[4] != 4 || b[93] != 24 || !InRange(Four(b, 94)) || |b| != 122 + Four(b, 94) then
              r == Err(InvalidFrame)
            else
              && r.Ok? && r.value.mailbox == b[5..37] && r.value.messageId == b[37..53]
              && r.value.expiresAt == Eight(b, 53) && r.value.senderEphemeral == b[61..93]
              && r.value.ciphertext == Wire.Ciphertext(XChaCha20Poly1305, b[98..122], b[122..])
  {
    if |b| >= 98 {
      EightRead(b, 53);
      FourRead(b, 94);
      FirstFour(b);
    }
    hide Four, Eight;
  }

  /** `decode` of a handshake message. */
  lemma {:induction false} MessageOutcome(v: HandshakeCodec.Verifier, b: Bytes)
    ensures var r := HandshakeCodec.Decoded(v, b);
            if |b| != 205 || b[..4] != [0x4D, 0x45, 0x48, 1] || !v.isKey(b[4..36]) then r == Err(InvalidFrame)
            else if b[200] > 1 || (b[200] == 0 && b[201..205] != [0, 0, 0, 0]) then r == Err(InvalidFrame)
            else if !v.binds(HandshakeCodec.IdentityRecord(b[4..36], b[36..68], b[68..132])) then
              r == Err(AuthenticationFailed)
            else
              && r.Ok? && r.value.identity == HandshakeCodec.IdentityRecord(b[4..36], b[36..68], b[68..132])
              && r.value.ephemeral == b[132..164] && r.value.ratchet == b[164..196]
              && r.value.signedPrekeyId == Four(b, 196)
              && r.value.oneTimePrekeyId == if b[200] == 0 then None else Some(Four(b, 201))
  {
    if |b| == 205 {
      FourRead(b, 196);
      FourRead(b, 201);
      FirstFour(b);
      assert Zeros(4) == [0, 0, 0, 0];
    }
    hide Four;
  }

  /** `decode` of a prekey bundle: the identity record is checked before the optional prekey. */
  lemma {:induction false} BundleOutcome(v: HandshakeCodec.Verifier, b: Bytes)
    ensures var r := HandshakeCodec.BundleDecoded(v, b);
            if |b| != 277 || b[..4] != [0x4D, 0x45, 0x42, 1] || !v.isKey(b[4..36]) then r == Err(InvalidFrame)
            else if !v.binds(HandshakeCodec.IdentityRecord(b[4..36], b[36..68], b[68..132])) then
              r == Err(AuthenticationFailed)
            else if b[240] > 1 || (b[240] == 0 && b[241..277] != Zeros(36)) then r == Err(InvalidFrame)
            else
              && r.Ok? && r.value.identity == HandshakeCodec.IdentityRecord(b[4..36], b[36..68], b[68..132])
              && r.value.prekeyId == Four(b, 132) && r.value.prekey == b[136..168]
              && r.value.expiresAt == Eight(b, 168) && r.value.prekeySignature == b[176..240]
              && r.value.oneTime ==
                 if b[240] == 0 then None else Some(HandshakeCodec.OneTime(Four(b, 241), b[245..277]))
  {
    if |b| == 277 {
      FourRead(b, 132);
      EightRead(b, 168);
      FourRead(b, 241);
      FirstFour(b);
    }
    hide Four, Eight;
  }
}
