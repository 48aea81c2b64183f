/**
 Where every byte of every format stands, as literal offsets and literal values. The
 other modules prove that parsing undoes printing; this one fixes what is printed.
 */
module Layouts {
  import opened Common
  import opened ByteCoding
  import Wire
  import Envelope
  import Persistence
  import HandshakeCodec
  import Kdf

  // ---- integers, most significant byte first ------------------------------------------------------

  function Two(b: Bytes, at: nat): nat
    requires at + 2 <= |b|
  {
    (b[at] as nat) * 0x100 + b[at + 1]
  }

  function Four(b: Bytes, at: nat): nat
    requires at + 4 <= |b|
  {
    (b[at] as nat) * 0x100_0000 + (b[at + 1] as nat) * 0x1_0000 + (b[at + 2] as nat) * 0x100 + b[at + 3]
  }

  function Eight(b: Bytes, at: nat): nat
    requires at + 8 <= |b|
  {
    Four(b, at) * 0x1_0000_0000 + Four(b, at + 4)
  }

  lemma {:induction false} Prefix(b: Bytes, k: nat)
    requires 0 < k <= |b|
    ensures FromBytes(b[..k]) == FromBytes(b[..k - 1]) * 0x100 + b[k - 1]
  {
    assert b[..k][..k - 1] == b[..k - 1];
  }

  /** What the integer encodings write. */
  lemma {:induction false} BigEndian(a: u16, b: u32, c: u64)
    ensures Two(U16Bytes(a), 0) == a && Four(U32Bytes(b), 0) == b && Eight(U64Bytes(c), 0) == c
  {
    var x, y, z := U16Bytes(a), U32Bytes(b), U64Bytes(c);
    hide U16Bytes, U32Bytes, U64Bytes, FromBytes;
    Nothing();
    Prefix(x, 1);
    Prefix(x, 2);
    assert x[..2] == x && x[..0] == [];
    Prefix(y, 1);
    Prefix(y, 2);
    Prefix(y, 3);
    Prefix(y, 4);
    assert y[..4] == y && y[..0] == [];
    Prefix(z, 1);
    Prefix(z, 2);
    Prefix(z, 3);
    Prefix(z, 4);
    Prefix(z, 5);
    Prefix(z, 6);
    Prefix(z, 7);
    Prefix(z, 8);
    assert z[..8] == z && z[..0] == [];
  }

  lemma {:induction false} Nothing()
    ensures FromBytes([]) == 0
  {
  }

  /** An encoded integer somewhere in other bytes. */
  lemma {:induction false} FourIn(b: Bytes, at: nat, n: u32)
    requires at + 4 <= |b| && b[at..at + 4] == U32Bytes(n)
    ensures Four(b, at) == n
  {
    hide U16Bytes, U32Bytes, U64Bytes;
    BigEndian(0, n, 0);
    var x := b[at..at + 4];
    assert x[0] == b[at] && x[1] == b[at + 1] && x[2] == b[at + 2] && x[3] == b[at + 3];
  }

  lemma {:induction false} TwoIn(b: Bytes, at: nat, n: u16)
    requires at + 2 <= |b| && b[at..at + 2] == U16Bytes(n)
    ensures Two(b, at) == n
  {
    hide U16Bytes, U32Bytes, U64Bytes;
    BigEndian(n, 0, 0);
    var x := b[at..at + 2];
    assert x[0] == b[at] && x[1] == b[at + 1];
  }

  lemma {:induction false} EightIn(b: Bytes, at: nat, n: u64)
    requires at + 8 <= |b| && b[at..at + 8] == U64Bytes(n)
    ensures Eight(b, at) == n
  {
    hide U16Bytes, U32Bytes, U64Bytes;
    BigEndian(0, 0, n);
    var x := b[at..at + 8];
    assert forall i :: 0 <= i < 8 ==> x[i] == b[at + i];
  }

  function SuiteNumber(suite: AeadSuite): nat {
    match suite
    case Aes256Gcm => 1
    case Aes256GcmSiv => 2
    case ChaCha20Poly1305 => 3
    case XChaCha20Poly1305 => 4
  }

  function NonceLength(suite: AeadSuite): nat {
    match suite
    case Aes256Gcm => 12
    case Aes256GcmSiv => 12
    case ChaCha20Poly1305 => 12
    case XChaCha20Poly1305 => 24
  }

  function KindNumber(kind: FrameKind): nat {
    match kind
    case Init => 1
    case Message => 2
    case Ack => 3
    case Control => 4
    case Reset => 5
  }

  // ---- frames -------------------------------------------------------------------------------------

  /** An inner frame: `MEF`, version 1, and its fields. */
  lemma {:induction false} FrameLayout(f: Wire.InnerFrame)
    requires f.ciphertext.Valid()
    ensures Wire.Encoded(f).Ok? && |Wire.Encoded(f).value| == 83 + |f.ciphertext.nonce| + |f.ciphertext.body|
    ensures var b, h := Wire.Encoded(f).value, f.header;
            && b[..4] == [0x4D, 0x45, 0x46, 1]
            && b[4] == SuiteNumber(f.ciphertext.suite) && b[5] == KindNumber(h.kind)
            && b[6..38] == h.sessionId && b[38..70] == h.ratchetPublic
            && Four(b, 70) == h.previousChainLen && Four(b, 74) == h.messageNumber
            && b[78] == NonceLength(f.ciphertext.suite) == |f.ciphertext.nonce|
            && Four(b, 79) == |f.ciphertext.body|
            && b[83..83 + |f.ciphertext.nonce|] == f.ciphertext.nonce
            && b[83 + |f.ciphertext.nonce|..] == f.ciphertext.body
  {
    var c, n := f.ciphertext, |f.ciphertext.body|;
    Wire.EncodedShape(f);
    Wire.AadFields(c.suite, f.header, n, c.nonce + c.body);
    var b := Wire.AadBytes(c.suite, f.header, n) + (c.nonce + c.body);
    hide Wire.AadBytes;
    assert Wire.Encoded(f).value == b;
    FourIn(b, 70, f.header.previousChainLen);
    FourIn(b, 74, f.header.messageNumber);
    FourIn(b, 79, n);
    assert b[..4] == b[0..3] + [b[3]];
  }

  // ---- envelopes ----------------------------------------------------------------------------------

  /** An outer envelope: `MEO`, version 1, suite 4, and its fields. */
  lemma {:induction false} EnvelopeLayout(e: Envelope.OuterEnvelope)
    requires e.Valid()
    ensures Envelope.Encoded(e).Ok? && |Envelope.Encoded(e).value| == 98 + 24 + |e.ciphertext.body|
    ensures var b := Envelope.Encoded(e).value;
            && b[..5] == [0x4D, 0x45, 0x4F, 1, 4]
            && b[5..37] == e.mailbox && b[37..53] == e.messageId && Eight(b, 53) == e.expiresAt
            && b[61..93] == e.senderEphemeral && b[93] == 24 && Four(b, 94) == |e.ciphertext.body|
            && b[98..122] == e.ciphertext.nonce && b[122..] == e.ciphertext.body
  {
    var c, n := e.ciphertext, |e.ciphertext.body|;
    Envelope.AadFields(e, n, c.nonce + c.body);
    var b := Envelope.AadBytes(e.mailbox, e.messageId, e.expiresAt, e.senderEphemeral, n) + (c.nonce + c.body);
    hide Envelope.AadBytes;
    assert Envelope.Encoded(e).value == b;
    EightIn(b, 53, e.expiresAt);
    FourIn(b, 94, n);
    assert b[..5] == b[0..3] + [b[3], b[4]];
  }

  // ---- sealed states ------------------------------------------------------------------------------

  /** The plaintext of a state record, up to its entries. */
  lemma {:induction false} StateLayout(s: Persistence.StateRecord)
    requires |s.skipped| <= MAX_SKIPPED_KEYS
    ensures Persistence.EncodedState(s).Ok? && |Persistence.EncodedState(s).value| == 207 + 68 * |s.skipped|
    ensures var b := Persistence.EncodedState(s).value;
            && b[0..32] == s.sessionId && b[32..64] == s.rootKey && b[64..96] == s.sendingChain
            && b[96..128] == s.receivingChain && b[128..160] == s.dhSecret && b[160..192] == s.remoteDh
            && Four(b, 192) == s.previousSendingChainLen && Four(b, 196) == s.sendingCount
            && Four(b, 200) == s.receivingCount && b[204] == SuiteNumber(s.suite) && Two(b, 205) == |s.skipped|
  {
    Persistence.EncodingIsSmall(s);
    var n := |s.skipped|;
    var rest := [s.suite.Id()] + U16Bytes(n) + Persistence.EntriesBytes(s.skipped);
    Persistence.FieldSlices(s, rest);
    var b := Persistence.FieldBytes(s) + rest;
    hide Persistence.FieldBytes, Persistence.EntriesBytes;
    assert Persistence.EncodedState(s).value == b;
    FourIn(b, 192, s.previousSendingChainLen);
    FourIn(b, 196, s.sendingCount);
    FourIn(b, 200, s.receivingCount);
    assert b[205..207] == U16Bytes(n);
    TwoIn(b, 205, n);
  }

  /** Entry `k` of a state record. */
  lemma {:induction false} StateEntryLayout(s: Persistence.StateRecord, k: nat)
    requires k < |s.skipped| <= MAX_SKIPPED_KEYS
    ensures Persistence.EncodedState(s).Ok? && |Persistence.EncodedState(s).value| == 207 + 68 * |s.skipped|
    ensures var b, at := Persistence.EncodedState(s).value, 207 + 68 * k;
            && b[at..at + 32] == s.skipped[k].remoteDh && Four(b, at + 32) == s.skipped[k].messageNumber
            && b[at + 36..at + 68] == s.skipped[k].key
  {
    Persistence.EncodingIsSmall(s);
    var entries := Persistence.EntriesBytes(s.skipped);
    EntrySlice(s.skipped, k);
    var front := Persistence.FieldBytes(s) + [s.suite.Id()] + U16Bytes(|s.skipped|);
    hide Persistence.FieldBytes, Persistence.EntriesBytes;
    var b, at := Persistence.EncodedState(s).value, 207 + 68 * k;
    assert b == front + entries;
    Shifted(front, entries, 68 * k, 32);
    Shifted(front, entries, 68 * k + 32, 4);
    Shifted(front, entries, 68 * k + 36, 32);
    FourIn(b, at + 32, s.skipped[k].messageNumber);
  }

  lemma {:induction false} Shifted(front: Bytes, back: Bytes, i: nat, n: nat)
    requires i + n <= |back|
    ensures (front + back)[|front| + i..|front| + i + n] == back[i..i + n]
  {
    var x, y := (front + back)[|front| + i..|front| + i + n], back[i..i + n];
    assert forall j :: 0 <= j < n ==> x[j] == y[j];
  }

  lemma {:induction false} EntrySlice(entries: seq<Persistence.Entry>, k: nat)
    requires k < |entries|
    ensures var b := Persistence.EntriesBytes(entries);
            && b[68 * k..68 * k + 32] == entries[k].remoteDh
            && b[68 * k + 32..68 * k + 36] == U32Bytes(entries[k].messageNumber)
            && b[68 * k + 36..68 * k + 68] == entries[k].key
    decreases |entries|
  {
    var n := |entries| - 1;
    var init, last := Persistence.EntriesBytes(entries[..n]), Persistence.EntryBytes(entries[n]);
    var b := Persistence.EntriesBytes(entries);
    assert b == init + last;
    if k < n {
      EntrySlice(entries[..n], k);
      hide Persistence.EntriesBytes, Persistence.EntryBytes;
      InFront(init, last, 68 * k, 32);
      InFront(init, last, 68 * k + 32, 4);
      InFront(init, last, 68 * k + 36, 32);
    } else {
      EntrySlices(entries[n]);
      hide Persistence.EntriesBytes, Persistence.EntryBytes;
      Shifted(init, last, 0, 32);
      Shifted(init, last, 32, 4);
      Shifted(init, last, 36, 32);
    }
  }

  lemma {:induction false} EntrySlices(e: Persistence.Entry)
    ensures var b := Persistence.EntryBytes(e);
            && |b| == 68 && b[0..32] == e.remoteDh && b[32..36] == U32Bytes(e.messageNumber) && b[36..68] == e.key
  {
    hide U32Bytes;
  }

  lemma {:induction false} InFront(front: Bytes, back: Bytes, i: nat, n: nat)
    requires i + n <= |front|
    ensures (front + back)[i..i + n] == front[i..i + n]
  {
  }

  /** `MEF-26/ratchet-state-v`, a digit, and a zero byte. */
  function StateLabel(digit: byte): Bytes {
    [0x4D, 0x45, 0x46, 0x2D, 0x32, 0x36, 0x2F, 0x72, 0x61, 0x74, 0x63, 0x68, 0x65, 0x74, 0x2D,
     0x73, 0x74, 0x61, 0x74, 0x65, 0x2D, 0x76, digit, 0]
  }

  /** The label with the digit of the version, before the context. */
  lemma {:induction false} StateAadLayout(context: Bytes, version: byte)
    requires version == 1 || version == 2
    ensures Persistence.AadOf(context, version) ==
            if |context| > 65512 then Err(InvalidLength)
            else Ok(StateLabel(if version == 1 then 0x31 else 0x32) + context)
  {
    assert Persistence.AAD_LABEL + [0x31, 0] == StateLabel(0x31);
    assert Persistence.AAD_LABEL + [0x32, 0] == StateLabel(0x32);
  }

  // ---- handshake messages and bundles -------------------------------------------------------------

  /** A handshake message: `MEH`, version 1, and its fields. */
  lemma {:induction false} MessageLayout(m: HandshakeCodec.HandshakeMessage)
    ensures var b := HandshakeCodec.Encoded(m);
            && |b| == 205 && b[..4] == [0x4D, 0x45, 0x48, 1]
            && b[4..36] == m.identity.signing && b[36..68] == m.identity.dh && b[68..132] == m.identity.signature
            && b[132..164] == m.ephemeral && b[164..196] == m.ratchet && Four(b, 196) == m.signedPrekeyId
            && b[200] == (if m.oneTimePrekeyId.Some? then 1 else 0)
            && Four(b, 201) == (if m.oneTimePrekeyId.Some? then m.oneTimePrekeyId.value else 0)
  {
    var b, id := HandshakeCodec.Encoded(m), m.oneTimePrekeyId;
    MessageSlices(m);
    hide HandshakeCodec.Encoded;
    FourIn(b, 196, m.signedPrekeyId);
    var tail := HandshakeCodec.OptionalId(id);
    assert b[200..205][0] == b[200] && b[200..205][1..5] == b[201..205];
    assert tail[1..5] == U32Bytes(if id.Some? then id.value else 0);
    FourIn(b, 201, if id.Some? then id.value else 0);
  }

  lemma {:induction false} MessageSlices(m: HandshakeCodec.HandshakeMessage)
    ensures var b := HandshakeCodec.Encoded(m);
            && b[..4] == [0x4D, 0x45, 0x48, 1]
            && b[4..36] == m.identity.signing && b[36..68] == m.identity.dh && b[68..132] == m.identity.signature
            && b[132..164] == m.ephemeral && b[164..196] == m.ratchet && b[196..200] == U32Bytes(m.signedPrekeyId)
            && b[200..205] == HandshakeCodec.OptionalId(m.oneTimePrekeyId)
  {
    hide HandshakeCodec.OptionalId;
  }

  /** A prekey bundle: `MEB`, version 1, and its fields. */
  lemma {:induction false} BundleLayout(p: HandshakeCodec.Bundle)
    ensures var b := HandshakeCodec.BundleEncoded(p);
            && |b| == 277 && b[..4] == [0x4D, 0x45, 0x42, 1]
            && b[4..36] == p.identity.signing && b[36..68] == p.identity.dh && b[68..132] == p.identity.signature
            && Four(b, 132) == p.prekeyId && b[136..168] == p.prekey && Eight(b, 168) == p.expiresAt
            && b[176..240] == p.prekeySignature && b[240] == (if p.oneTime.Some? then 1 else 0)
            && Four(b, 241) == (if p.oneTime.Some? then p.oneTime.value.id else 0)
            && b[245..277] == (if p.oneTime.Some? then p.oneTime.value.public else Zeros(32))
  {
    var b := HandshakeCodec.BundleEncoded(p);
    HandshakeCodec.BundleSlices(p);
    hide HandshakeCodec.BundleEncoded;
    assert b[..4] == b[..3] + [b[3]];
    FourIn(b, 132, p.prekeyId);
    EightIn(b, 168, p.expiresAt);
    var tail := b[240..277];
    var id := if p.oneTime.Some? then p.oneTime.value.id else 0;
    assert |b| == 277 && b[240..] == tail;
    assert tail[0] == b[240];
    assert tail[1..5] == U32Bytes(id) && tail[5..] == (if p.oneTime.Some? then p.oneTime.value.public else Zeros(32));
    SliceOfTail(b, 240, 1, 4);
    SliceOfTail(b, 240, 5, 32);
    assert b[241..245] == U32Bytes(id);
    FourIn(b, 241, id);
  }

  lemma {:induction false} SliceOfTail(b: Bytes, at: nat, i: nat, n: nat)
    requires at + i + n <= |b|
    ensures b[at..][i..i + n] == b[at + i..at + i + n]
  {
    var x, y := b[at..][i..i + n], b[at + i..at + i + n];
    assert forall j :: 0 <= j < n ==> x[j] == y[j];
  }

  // ---- hash inputs --------------------------------------------------------------------------------

  /** `MEF-26`, 0, `blake3-id`, 0 and the label; then each part after its length. */
  lemma {:induction false} HashLayout(text: Bytes, parts: seq<Bytes>)
    ensures Kdf.HashInput(text, parts).Ok? <==>
            1 <= |text| <= 255 && forall i :: 0 <= i < |parts| ==> |parts[i]| <= 0x10_0000
    ensures Kdf.HashInput(text, parts).Err? ==> Kdf.HashInput(text, parts).error == InvalidLength
    ensures Kdf.HashInput(text, parts).Ok? ==>
              var stem := [0x4D, 0x45, 0x46, 0x2D, 0x32, 0x36, 0,
                           0x62, 0x6C, 0x61, 0x6B, 0x65, 0x33, 0x2D, 0x69, 0x64, 0];
              Kdf.HashInput(text, parts).value == stem + text + Framed(parts)
    decreases |parts|
  {
    if Kdf.HashInput(text, parts).Ok? {
      FramedIsPartsBytes(parts);
    }
  }

  /** Each part after its 64-bit length, from the front. */
  function Framed(parts: seq<Bytes>): Bytes
    requires forall i :: 0 <= i < |parts| ==> |parts[i]| <= MAX_CIPHERTEXT_LEN
  {
    if |parts| == 0 then [] else U64Bytes(|parts[0]|) + parts[0] + Framed(parts[1..])
  }

  lemma {:induction false} FramedIsPartsBytes(parts: seq<Bytes>)
    requires Kdf.PartsFit(parts)
    ensures Kdf.PartsBytes(parts) == Framed(parts)
  {
    if |parts| > 0 {
      Kdf.PartsFromFront(parts);
      FramedIsPartsBytes(parts[1..]);
    }
  }

  /** The session identifier hashes the message, after its length, and the responder's record, after its own. */
  lemma {:induction false} SessionInputLayout(m: HandshakeCodec.HandshakeMessage, r: HandshakeCodec.IdentityRecord)
    ensures var text := [0x68, 0x61, 0x6E, 0x64, 0x73, 0x68, 0x61, 0x6B, 0x65, 0x2D,
                         0x73, 0x65, 0x73, 0x73, 0x69, 0x6F, 0x6E, 0x2D, 0x76, 0x31];
            var stem := [0x4D, 0x45, 0x46, 0x2D, 0x32, 0x36, 0,
                         0x62, 0x6C, 0x61, 0x6B, 0x65, 0x33, 0x2D, 0x69, 0x64, 0];
            HandshakeCodec.SessionInput(m, r) ==
            Ok(stem + text + (Zeros(7) + [205] + HandshakeCodec.Encoded(m)
                              + (Zeros(7) + [128] + r.signing + r.dh + r.signature)))
  {
    var text, parts := HandshakeCodec.SESSION_LABEL, [HandshakeCodec.Encoded(m), HandshakeCodec.IdentityBytes(r)];
    HashLayout(text, parts);
    SmallLength(205);
    SmallLength(128);
    hide U64Bytes, Kdf.HashInput, HandshakeCodec.Encoded;
    assert parts[1..] == [parts[1]] && Framed(parts[1..][1..]) == [];
    assert Framed(parts[1..]) == U64Bytes(128) + parts[1] + [];
    assert Framed(parts) == U64Bytes(205) + parts[0] + Framed(parts[1..]);
    hide Framed, Zeros;
    var first, second := Zeros(7) + [205] + parts[0], Zeros(7) + [128] + parts[1];
    assert Framed(parts) == first + second;
    assert second == Zeros(7) + [128] + r.signing + r.dh + r.signature;
  }

  lemma {:induction false} SmallLength(n: byte)
    ensures U64Bytes(n) == Zeros(7) + [n]
  {
    BigEndian(0, 0, n);
    hide U64Bytes;
    LastByteOnly(U64Bytes(n), n);
  }

  lemma {:induction false} LastByteOnly(b: Bytes, n: byte)
    requires |b| == 8 && Eight(b, 0) == n
    ensures b == Zeros(7) + [n]
  {
    assert b[0] == b[1] == b[2] == b[3] == 0;
    assert b[4] == b[5] == b[6] == 0 && b[7] == n;
  }

  /** The domain string of a key derivation. */
  lemma {:induction false} DomainLayout(kind: Bytes, text: Bytes)
    ensures Kdf.DomainBytes(kind, text) == [0x4D, 0x45, 0x46, 0x2D, 0x32, 0x36, 0] + kind + [0] + text
  {
  }
}
