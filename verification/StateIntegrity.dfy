/**
 What a restoring caller can meet, if the AEAD is not broken for the bytes at hand:
 the sealed snapshots under that key and context, and nothing else.
 */
module StateIntegrity {
  import opened Common
  import opened ByteCoding
  import opened Primitives
  import opened Persistence
  import Wire

  /** One record that was sealed, and the nonce that was drawn for it. */
  datatype Snapshot = Snapshot(state: StateRecord, nonce: Bytes)

  ghost predicate Sealable(s: Snapshot) {
    |s.nonce| == NONCE_LEN && Storable(s.state)
  }

  function BlobOf(c: Primitives, key: Bytes32, context: Bytes, s: Snapshot): Result<Bytes> {
    SealedState(c, s.state, key, context, Some(s.nonce))
  }

  /** The AEAD body inside the blob of `s`. */
  function BodyOf(c: Primitives, key: Bytes32, context: Bytes, s: Snapshot): Bytes
    requires |s.state.skipped| <= MAX_SKIPPED_KEYS
  {
    c.seal(key, STATE_SUITE, s.nonce, AadBytes(context, VERSION), EncodedState(s.state).value)
  }

  /** The parts of a sealed blob. */
  lemma {:induction false} BlobParts(c: Primitives, key: Bytes32, context: Bytes, s: Snapshot)
    requires Sound(c) && Sealable(s) && |context| + 24 <= MAX_AAD_LEN
    ensures var body := BodyOf(c, key, context, s);
            && AEAD_TAG_LEN <= |body| <= MAX_CIPHERTEXT_LEN
            && BlobOf(c, key, context, s)
               == Ok(HeaderBytes(VERSION, s.state.generation, NONCE_LEN, |body|) + (s.nonce + body))
            && c.open(key, STATE_SUITE, s.nonce, AadBytes(context, VERSION), body) == Some(EncodedState(s.state).value)
  {
    EncodingIsSmall(s.state);
    hide EncodedState, AadBytes, HeaderBytes, Unique;
    var aad, plaintext := AadBytes(context, VERSION), EncodedState(s.state).value;
    assert |aad| == |context| + 24 by { AadLength(context, VERSION); }
    SealThenOpen(c, key, STATE_SUITE, aad, plaintext, s.nonce);
    var body := BodyOf(c, key, context, s);
    var header := HeaderBytes(VERSION, s.state.generation, NONCE_LEN, |body|);
    assert header + s.nonce + body == header + (s.nonce + body);
  }

  lemma {:induction false} AadLength(context: Bytes, version: byte)
    ensures |AadBytes(context, version)| == |context| + 24
  {
  }

  /** `blob` passes every check of `restore_state` that comes before opening, but the floor. */
  predicate WellFormed(blob: Bytes) {
    && HEADER_LEN + NONCE_LEN + 16 <= |blob| <= HEADER_LEN + NONCE_LEN + MAX_CIPHERTEXT_LEN
    && blob[..3] == MAGIC && (blob[3] == LEGACY_VERSION || blob[3] == VERSION)
    && blob[12] == NONCE_LEN && |blob| == HEADER_LEN + NONCE_LEN + U32At(blob, 13)
  }

  function NonceIn(blob: Bytes): Bytes
    requires WellFormed(blob)
  {
    blob[HEADER_LEN..HEADER_LEN + NONCE_LEN]
  }

  function BodyIn(blob: Bytes): Bytes
    requires WellFormed(blob)
  {
    blob[HEADER_LEN + NONCE_LEN..]
  }

  /**
   Integrity for the bytes at hand: if nonce and body of `blob` open under this key
   and context at all, they and the associated data are those of one of the snapshots.
   */
  ghost predicate NotForged(c: Primitives, key: Bytes32, context: Bytes, snapshots: seq<Snapshot>, blob: Bytes)
    requires forall i :: 0 <= i < |snapshots| ==> Sealable(snapshots[i])
  {
    WellFormed(blob) && c.open(key, STATE_SUITE, NonceIn(blob), AadBytes(context, blob[3]), BodyIn(blob)).Some? ==>
      exists i :: 0 <= i < |snapshots| && SealedParts(c, key, context, snapshots[i], blob)
  }

  ghost predicate SealedParts(c: Primitives, key: Bytes32, context: Bytes, s: Snapshot, blob: Bytes)
    requires WellFormed(blob) && Sealable(s)
  {
    && AadBytes(context, blob[3]) == AadBytes(context, VERSION)
    && NonceIn(blob) == s.nonce && BodyIn(blob) == BodyOf(c, key, context, s)
  }

  /** `blob` is the blob of `s` with generation `g` in its header. */
  ghost predicate IsSnapshot(c: Primitives, key: Bytes32, context: Bytes, s: Snapshot, g: u64, blob: Bytes) {
    BlobOf(c, key, context, s).Ok? && |BlobOf(c, key, context, s).value| >= HEADER_LEN
    && blob == WithGeneration(BlobOf(c, key, context, s).value, g)
  }

  /** With the parts of a snapshot, a well-formed blob is its blob, up to the generation. */
  lemma {:induction false} PartsMakeSnapshot(c: Primitives, key: Bytes32, context: Bytes, s: Snapshot, blob: Bytes)
    requires Sound(c) && Sealable(s) && |context| + 24 <= MAX_AAD_LEN
    requires WellFormed(blob) && SealedParts(c, key, context, s, blob)
    ensures IsSnapshot(c, key, context, s, U64At(blob, 4), blob)
  {
    AadLength(context, VERSION);
    AadBinds(context, blob[3], context, VERSION);
    BlobParts(c, key, context, s);
    HeaderRebuilt(blob);
    hide AadBytes, HeaderBytes, BodyOf, WithGeneration, BlobOf;
    var body := BodyOf(c, key, context, s);
    HeaderWithGeneration(VERSION, s.state.generation, U64At(blob, 4), NONCE_LEN, |body|, s.nonce + body);
    assert blob == blob[..HEADER_LEN] + (NonceIn(blob) + BodyIn(blob));
  }

  /** A snapshot restores under every generation in its header that is not below the floor. */
  lemma {:induction false} SnapshotRestores(c: Primitives, key: Bytes32, context: Bytes, s: Snapshot, g: u64,
                                            floor: u64, blob: Bytes)
    requires Sound(c) && Sealable(s) && |context| + 24 <= MAX_AAD_LEN && IsSnapshot(c, key, context, s, g, blob)
    ensures RestoredState(c, key, context, floor, blob) ==
            if g < floor then Err(StateRollbackDetected) else Ok(s.state.(generation := g))
  {
    hide SealedState, RestoredState, WithGeneration;
    SealThenRestoreWithGeneration(c, s.state, key, context, s.nonce, floor, g);
  }

  /** What does not open fails as unauthentic, once its form and the floor are passed. */
  lemma {:induction false} ClosedFails(c: Primitives, key: Bytes32, context: Bytes, floor: u64, blob: Bytes)
    requires |context| + 24 <= MAX_AAD_LEN && WellFormed(blob) && floor <= U64At(blob, 4)
    requires c.open(key, STATE_SUITE, NonceIn(blob), AadBytes(context, blob[3]), BodyIn(blob)).None?
    ensures RestoredState(c, key, context, floor, blob) == Err(AuthenticationFailed)
  {
    AadLength(context, blob[3]);
    hide AadBytes, DecodedState;
  }

  lemma {:induction false} OnlyWellFormedRestores(c: Primitives, key: Bytes32, context: Bytes, floor: u64, blob: Bytes)
    requires RestoredState(c, key, context, floor, blob).Ok?
    ensures WellFormed(blob) && floor <= U64At(blob, 4)
    ensures c.open(key, STATE_SUITE, NonceIn(blob), AadBytes(context, blob[3]), BodyIn(blob)).Some?
  {
    hide AadBytes, DecodedState;
  }

  /**
   Of all bytes that are not forged, exactly the sealed snapshots restore, each under
   any generation in its header that is not below the floor, and each as the record
   that was sealed with that generation; whatever else has the form of a blob, and a
   generation not below the floor, fails as unauthentic.
   */
  lemma {:induction false} RestoresOnlySnapshots(c: Primitives, key: Bytes32, context: Bytes, floor: u64,
                                                 snapshots: seq<Snapshot>, blob: Bytes, t: StateRecord)
    requires Sound(c) && |context| + 24 <= MAX_AAD_LEN
    requires forall i :: 0 <= i < |snapshots| ==> Sealable(snapshots[i])
    requires NotForged(c, key, context, snapshots, blob)
    ensures RestoredState(c, key, context, floor, blob) == Ok(t) <==>
            exists i :: 0 <= i < |snapshots| && floor <= t.generation
                        && IsSnapshot(c, key, context, snapshots[i], t.generation, blob)
                        && t == snapshots[i].state.(generation := t.generation)
    ensures WellFormed(blob) && floor <= U64At(blob, 4)
            && (forall i, g :: 0 <= i < |snapshots| ==> !IsSnapshot(c, key, context, snapshots[i], g, blob)) ==>
            RestoredState(c, key, context, floor, blob) == Err(AuthenticationFailed)
  {
    hide RestoredState, IsSnapshot, SealedParts, AadBytes;
    if WellFormed(blob) && floor <= U64At(blob, 4) {
      if c.open(key, STATE_SUITE, NonceIn(blob), AadBytes(context, blob[3]), BodyIn(blob)).None? {
        ClosedFails(c, key, context, floor, blob);
      } else {
        var i :| 0 <= i < |snapshots| && SealedParts(c, key, context, snapshots[i], blob);
        PartsMakeSnapshot(c, key, context, snapshots[i], blob);
        SnapshotRestores(c, key, context, snapshots[i], U64At(blob, 4), floor, blob);
      }
    }
    if RestoredState(c, key, context, floor, blob).Ok? {
      OnlyWellFormedRestores(c, key, context, floor, blob);
    }
    forall i | 0 <= i < |snapshots| && floor <= t.generation
               && IsSnapshot(c, key, context, snapshots[i], t.generation, blob)
      ensures RestoredState(c, key, context, floor, blob) == Ok(snapshots[i].state.(generation := t.generation))
    {
      SnapshotRestores(c, key, context, snapshots[i], t.generation, floor, blob);
    }
  }

  /**
   The wrong key or the wrong context: if the sealed body does not open under another
   key or other associated data, the untouched blob, and any other generation in its
   header, restores exactly under the key and the context it was sealed with.
   */
  lemma {:induction false} WrongKeyOrContextFails(c: Primitives, s: Snapshot, key: Bytes32, context: Bytes,
                                                  otherKey: Bytes32, otherContext: Bytes, floor: u64, g: u64)
    requires Sound(c) && Sealable(s) && |context| + 24 <= MAX_AAD_LEN
    requires var aad := AadBytes(otherContext, VERSION);
             c.open(otherKey, STATE_SUITE, s.nonce, aad, BodyOf(c, key, context, s)).Some? ==>
               otherKey == key && aad == AadBytes(context, VERSION)
    ensures BlobOf(c, key, context, s).Ok? && |BlobOf(c, key, context, s).value| >= HEADER_LEN
    ensures RestoredState(c, otherKey, otherContext, floor, WithGeneration(BlobOf(c, key, context, s).value, g)) ==
            if g < floor then Err(StateRollbackDetected)
            else if |otherContext| + 24 > MAX_AAD_LEN then Err(InvalidLength)
            else if otherKey == key && otherContext == context then Ok(s.state.(generation := g))
            else Err(AuthenticationFailed)
  {
    BlobParts(c, key, context, s);
    var body := BodyOf(c, key, context, s);
    var rest := s.nonce + body;
    var blob := HeaderBytes(VERSION, g, NONCE_LEN, |body|) + rest;
    HeaderWithGeneration(VERSION, s.state.generation, g, NONCE_LEN, |body|, rest);
    HeaderFound(VERSION, g, NONCE_LEN, |body|, rest);
    AadLength(otherContext, VERSION);
    AadLength(context, VERSION);
    if AadBytes(otherContext, VERSION) == AadBytes(context, VERSION) {
      SameContext(otherContext, context);
    }
    hide AadBytes, HeaderBytes, WithGeneration, BodyOf, DecodedState, BlobOf;
    if otherKey == key && otherContext == context {
      SnapshotRestores(c, key, context, s, g, floor, blob);
    }
    var nonceEnd := HEADER_LEN + NONCE_LEN;
    assert blob[HEADER_LEN..nonceEnd] == s.nonce && blob[nonceEnd..] == body;
  }

  lemma {:induction false} SameContext(a: Bytes, b: Bytes)
    requires AadBytes(a, VERSION) == AadBytes(b, VERSION)
    ensures a == b
  {
    assert a == AadBytes(a, VERSION)[24..] && b == AadBytes(b, VERSION)[24..];
  }
}
