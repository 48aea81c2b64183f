/** Canonical bytes of handshake messages and prekey bundles, and what the session identifier hashes. */
module HandshakeCodec {
  import opened Common
  import opened ByteCoding
  import Kdf

  const MAGIC: Bytes := [0x4D, 0x45, 0x48]
  const BUNDLE_MAGIC: Bytes := [0x4D, 0x45, 0x42]
  const VERSION: byte := 1
  const MESSAGE_LEN := 205
  const BUNDLE_LEN := 277

  /** `handshake-session-v1` */
  const SESSION_LABEL: Bytes := [0x68, 0x61, 0x6E, 0x64, 0x73, 0x68, 0x61, 0x6B, 0x65, 0x2D,
                                 0x73, 0x65, 0x73, 0x73, 0x69, 0x6F, 0x6E, 0x2D, 0x76, 0x31]

  datatype IdentityRecord = IdentityRecord(signing: Bytes32, dh: Bytes32, signature: Bytes64)

  datatype HandshakeMessage = HandshakeMessage(
    identity: IdentityRecord,
    ephemeral: Bytes32,
    ratchet: Bytes32,
    signedPrekeyId: u32,
    oneTimePrekeyId: Option<u32>)

  datatype OneTime = OneTime(id: u32, public: Bytes32)

  datatype Bundle = Bundle(
    identity: IdentityRecord,
    prekeyId: u32,
    prekey: Bytes32,
    expiresAt: u64,
    prekeySignature: Bytes64,
    oneTime: Option<OneTime>)

  /** Which bytes are Ed25519 public keys, and which identity records carry a valid binding signature. */
  datatype Verifier = Verifier(isKey: Bytes32 -> bool, binds: IdentityRecord -> bool)

  predicate Trusted(v: Verifier, i: IdentityRecord) {
    v.isKey(i.signing) && v.binds(i)
  }

  function IdentityBytes(i: IdentityRecord): (b: Bytes)
    ensures |b| == 128
  {
    i.signing + i.dh + i.signature
  }

  function IdentityAt(b: Bytes): IdentityRecord
    requires |b| >= 132
  {
    IdentityRecord(b[4..36], b[36..68], b[68..132])
  }

  // ---- handshake messages -------------------------------------------------------------------

  function OptionalId(id: Option<u32>): (b: Bytes)
    ensures |b| == 5
  {
    if id.Some? then [1] + U32Bytes(id.value) else [0] + U32Bytes(0)
  }

  function Encoded(m: HandshakeMessage): (b: Bytes)
    ensures |b| == MESSAGE_LEN
  {
    MAGIC + [VERSION] + IdentityBytes(m.identity) + m.ephemeral + m.ratchet
    + U32Bytes(m.signedPrekeyId) + OptionalId(m.oneTimePrekeyId)
  }

  method Encode(m: HandshakeMessage) returns (output: Bytes)
    ensures output == Encoded(m)
  {
    output := MAGIC;
    output := output + [VERSION];
    output := output + m.identity.signing;
    output := output + m.identity.dh;
    output := output + m.identity.signature;
    assert output == MAGIC + [VERSION] + IdentityBytes(m.identity);
    output := output + m.ephemeral;
    output := output + m.ratchet;
    output := output + U32Bytes(m.signedPrekeyId);
    ghost var fixed := output;
    if m.oneTimePrekeyId.Some? {
      output := output + [1];
      output := output + U32Bytes(m.oneTimePrekeyId.value);
    } else {
      output := output + [0];
      output := output + U32Bytes(0);
    }
    assert output == fixed + OptionalId(m.oneTimePrekeyId);
  }

  /** The optional one-time prekey id at offset 200; absence is written in one way only. */
  function OptionalIdAt(b: Bytes): Result<Option<u32>>
    requires |b| == MESSAGE_LEN
  {
    if b[200] == 0 then if b[201..205] != Zeros(4) then Err(InvalidFrame) else Ok(None)
    else if b[200] == 1 then Ok(Some(U32At(b, 201)))
    else Err(InvalidFrame)
  }

  function Decoded(v: Verifier, b: Bytes): Result<HandshakeMessage> {
    if |b| != MESSAGE_LEN || b[..3] != MAGIC || b[3] != VERSION then Err(InvalidFrame)
    else
      var identity := IdentityAt(b);
      if !v.isKey(identity.signing) then Err(InvalidFrame)
      else
        match OptionalIdAt(b)
        case Err(e) => Err(e)
        case Ok(oneTime) =>
          if !v.binds(identity) then Err(AuthenticationFailed)
          else Ok(HandshakeMessage(identity, b[132..164], b[164..196], U32At(b, 196), oneTime))
  }

  lemma {:induction false} ZeroU32()
    ensures U32Bytes(0) == Zeros(4)
  {
    Kdf.ZeroBytes(4);
  }

  lemma {:induction false} IdentityFound(i: IdentityRecord, before: Bytes, rest: Bytes)
    requires |before| == 4
    ensures IdentityAt(before + IdentityBytes(i) + rest) == i
  {
    var b := before + IdentityBytes(i) + rest;
    assert b[4..36] == i.signing && b[36..68] == i.dh && b[68..132] == i.signature;
  }

  lemma {:induction false} IdentityRebuilt(b: Bytes)
    requires |b| >= 132
    ensures IdentityBytes(IdentityAt(b)) == b[4..132]
  {
    assert b[4..132] == b[4..36] + b[36..68] + b[68..132];
  }

  lemma {:induction false} OptionalIdFound(b: Bytes, id: Option<u32>)
    requires |b| == MESSAGE_LEN
    ensures OptionalIdAt(b) == Ok(id) <==> b[200..205] == OptionalId(id)
  {
    ZeroU32();
    var tail, encoded := b[200..205], OptionalId(id);
    assert tail[0] == b[200] && tail[1..] == b[201..205] && tail == [tail[0]] + tail[1..];
    assert encoded[1..] == U32Bytes(if id.Some? then id.value else 0);
    if tail == encoded && id.Some? {
      SameU32(U32At(b, 201), id.value);
    }
  }

  lemma {:induction false} EncodingFields(m: HandshakeMessage)
    ensures var b := Encoded(m);
            && b[..3] == MAGIC && b[3] == VERSION && IdentityAt(b) == m.identity
            && b[132..164] == m.ephemeral && b[164..196] == m.ratchet
            && U32At(b, 196) == m.signedPrekeyId && b[200..205] == OptionalId(m.oneTimePrekeyId)
  {
    var b := Encoded(m);
    var rest := m.ephemeral + m.ratchet + U32Bytes(m.signedPrekeyId) + OptionalId(m.oneTimePrekeyId);
    IdentityFound(m.identity, MAGIC + [VERSION], rest);
    assert b == MAGIC + [VERSION] + IdentityBytes(m.identity) + rest;
    assert b[196..200] == U32Bytes(m.signedPrekeyId);
    SameU32(U32At(b, 196), m.signedPrekeyId);
  }

  /** Bytes are accepted as `m` exactly when they are the encoding of `m` and its identity record verifies. */
  lemma {:induction false} DecodesExactlyEncodings(v: Verifier, b: Bytes, m: HandshakeMessage)
    ensures Decoded(v, b) == Ok(m) <==> Encoded(m) == b && Trusted(v, m.identity)
  {
    if Encoded(m) == b {
      EncodingFields(m);
      OptionalIdFound(b, m.oneTimePrekeyId);
      hide Encoded, OptionalIdAt, IdentityAt;
    }
    if Decoded(v, b) == Ok(m) {
      AcceptedIsCanonical(v, b, m);
    }
  }

  lemma {:induction false} AcceptedIsCanonical(v: Verifier, b: Bytes, m: HandshakeMessage)
    requires Decoded(v, b) == Ok(m)
    ensures Encoded(m) == b && Trusted(v, m.identity)
  {
    OptionalIdFound(b, m.oneTimePrekeyId);
    IdentityRebuilt(b);
    hide OptionalIdAt, OptionalId, IdentityBytes, IdentityAt;
    assert b == b[..3] + [b[3]] + b[4..132] + b[132..164] + b[164..196] + b[196..200] + b[200..205];
  }

  // ---- prekey bundles -----------------------------------------------------------------------

  function OptionalPrekey(p: Option<OneTime>): (b: Bytes)
    ensures |b| == 37
  {
    if p.Some? then [1] + U32Bytes(p.value.id) + p.value.public else [0] + U32Bytes(0) + Zeros(32)
  }

  function BundleEncoded(p: Bundle): (b: Bytes)
    ensures |b| == BUNDLE_LEN
  {
    BUNDLE_MAGIC + [VERSION] + IdentityBytes(p.identity) + U32Bytes(p.prekeyId) + p.prekey
    + U64Bytes(p.expiresAt) + p.prekeySignature + OptionalPrekey(p.oneTime)
  }

  method EncodeBundle(p: Bundle) returns (output: Bytes)
    ensures output == BundleEncoded(p)
  {
    output := BUNDLE_MAGIC;
    output := output + [VERSION];
    output := output + p.identity.signing;
    output := output + p.identity.dh;
    output := output + p.identity.signature;
    assert output == BUNDLE_MAGIC + [VERSION] + IdentityBytes(p.identity);
    output := output + U32Bytes(p.prekeyId);
    output := output + p.prekey;
    output := output + U64Bytes(p.expiresAt);
    output := output + p.prekeySignature;
    ghost var fixed := output;
    if p.oneTime.Some? {
      output := output + [1];
      output := output + U32Bytes(p.oneTime.value.id);
      output := output + p.oneTime.value.public;
    } else {
      output := output + [0];
      output := output + U32Bytes(0);
      output := output + Zeros(32);
    }
    assert output == fixed + OptionalPrekey(p.oneTime);
  }

  function OptionalPrekeyAt(b: Bytes): Result<Option<OneTime>>
    requires |b| == BUNDLE_LEN
  {
    if b[240] == 0 then if b[241..277] != Zeros(36) then Err(InvalidFrame) else Ok(None)
    else if b[240] == 1 then Ok(Some(OneTime(U32At(b, 241), b[245..277])))
    else Err(InvalidFrame)
  }

  function BundleDecoded(v: Verifier, b: Bytes): Result<Bundle> {
    if |b| != BUNDLE_LEN || b[..3] != BUNDLE_MAGIC || b[3] != VERSION then Err(InvalidFrame)
    else
      var identity := IdentityAt(b);
      if !v.isKey(identity.signing) then Err(InvalidFrame)
      else if !v.binds(identity) then Err(AuthenticationFailed)
      else
        match OptionalPrekeyAt(b)
        case Err(e) => Err(e)
        case Ok(oneTime) =>
          Ok(Bundle(identity, U32At(b, 132), b[136..168], U64At(b, 168), b[176..240], oneTime))
  }

  lemma {:induction false} OptionalPrekeyFound(b: Bytes, p: Option<OneTime>)
    requires |b| == BUNDLE_LEN
    ensures OptionalPrekeyAt(b) == Ok(p) <==> b[240..277] == OptionalPrekey(p)
  {
    ZeroU32();
    var tail, encoded := b[240..277], OptionalPrekey(p);
    var id, key := b[241..245], b[245..277];
    assert tail == [b[240]] + id + key && b[241..277] == id + key;
    assert tail[0] == b[240] && tail[1..5] == id && tail[5..] == key && tail[1..] == id + key;
    assert Zeros(36) == Zeros(4) + Zeros(32);
    if p.Some? {
      assert encoded[1..5] == U32Bytes(p.value.id) && encoded[5..] == p.value.public;
      if tail == encoded {
        SameU32(U32At(b, 241), p.value.id);
      }
    }
  }

  lemma {:induction false} BundleFields(p: Bundle)
    ensures var b := BundleEncoded(p);
            && b[..3] == BUNDLE_MAGIC && b[3] == VERSION && IdentityAt(b) == p.identity
            && U32At(b, 132) == p.prekeyId && b[136..168] == p.prekey && U64At(b, 168) == p.expiresAt
            && b[176..240] == p.prekeySignature && b[240..277] == OptionalPrekey(p.oneTime)
  {
    BundleSlices(p);
    hide BundleEncoded, OptionalPrekey;
    var b := BundleEncoded(p);
    SameU32(U32At(b, 132), p.prekeyId);
    assert U64Bytes(U64At(b, 168)) == U64Bytes(p.expiresAt);
  }

  /** Where each field of a bundle is found. */
  lemma {:induction false} BundleSlices(p: Bundle)
    ensures var b := BundleEncoded(p);
            && b[..3] == BUNDLE_MAGIC && b[3] == VERSION
            && b[4..36] == p.identity.signing && b[36..68] == p.identity.dh && b[68..132] == p.identity.signature
            && b[132..136] == U32Bytes(p.prekeyId) && b[136..168] == p.prekey
            && b[168..176] == U64Bytes(p.expiresAt) && b[176..240] == p.prekeySignature
            && b[240..277] == OptionalPrekey(p.oneTime)
  {
    hide OptionalPrekey;
  }

  /** Bytes are accepted as bundle `p` exactly when they are its encoding and its identity record verifies. */
  lemma {:induction false} BundleDecodesExactlyEncodings(v: Verifier, b: Bytes, p: Bundle)
    ensures BundleDecoded(v, b) == Ok(p) <==> BundleEncoded(p) == b && Trusted(v, p.identity)
  {
    if BundleEncoded(p) == b {
      BundleFields(p);
      OptionalPrekeyFound(b, p.oneTime);
      hide BundleEncoded, OptionalPrekeyAt, IdentityAt;
    }
    if BundleDecoded(v, b) == Ok(p) {
      AcceptedBundleIsCanonical(v, b, p);
    }
  }

  lemma {:induction false} AcceptedBundleIsCanonical(v: Verifier, b: Bytes, p: Bundle)
    requires BundleDecoded(v, b) == Ok(p)
    ensures BundleEncoded(p) == b && Trusted(v, p.identity)
  {
    OptionalPrekeyFound(b, p.oneTime);
    IdentityRebuilt(b);
    hide OptionalPrekeyAt, OptionalPrekey, IdentityBytes, IdentityAt;
    assert b == b[..3] + [b[3]] + b[4..132] + b[132..136] + b[136..168] + b[168..176] + b[176..240] + b[240..277];
  }

  // ---- the session identifier ---------------------------------------------------------------

  /** What the session identifier hashes. */
  function SessionInput(m: HandshakeMessage, responder: IdentityRecord): Result<Bytes> {
    Kdf.HashInput(SESSION_LABEL, [Encoded(m), IdentityBytes(responder)])
  }

  /** The session identifier hashes a string that determines the whole message and the responder's identity record. */
  lemma {:induction false} SessionInputBinds(m1: HandshakeMessage, r1: IdentityRecord, m2: HandshakeMessage,
                                             r2: IdentityRecord)
    requires SessionInput(m1, r1) == SessionInput(m2, r2)
    ensures m1 == m2 && r1 == r2
  {
    hide Encoded, IdentityBytes, Kdf.PartsBytes, Kdf.DomainBytes;
    var p1, p2 := [Encoded(m1), IdentityBytes(r1)], [Encoded(m2), IdentityBytes(r2)];
    Kdf.HashInputInjective(SESSION_LABEL, p1, SESSION_LABEL, p2);
    assert p1[0] == p2[0] && p1[1] == p2[1];
    var v := Verifier(k => true, i => true);
    DecodesExactlyEncodings(v, Encoded(m1), m1);
    DecodesExactlyEncodings(v, Encoded(m1), m2);
    IdentityFound(r1, Zeros(4), []);
    IdentityFound(r2, Zeros(4), []);
  }
}
