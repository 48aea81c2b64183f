/** What sealing and restoring a state does with bytes, for any input, and which error each refusal gives. */
module StateExact {
  import opened Common
  import opened ByteCoding
  import opened Primitives
  import opened Persistence
  import opened Layouts
  import EnvelopeExact
  import Wire

  /** The outcome of `seal_state`, and every byte of the blob. */
  lemma {:induction false} SealStateOutcome(c: Primitives, s: StateRecord, key: Bytes32, context: Bytes,
                                            nonce: Option<Bytes>)
    requires Sound(c) && (nonce.Some? ==> |nonce.value| == 24)
    ensures var r := SealedState(c, s, key, context, nonce);
            if |context| > 65512 then r == Err(InvalidLength)
            else if |s.skipped| > 1024 then r == Err(InvalidState)
            else if nonce.None? then r == Err(RandomnessUnavailable)
            else
              && r.Ok? && EncodedState(s).Ok?
              && var aad, plaintext := StateLabel(0x32) + context, EncodedState(s).value;
              var body := c.seal(key, XChaCha20Poly1305, nonce.value, aad, plaintext);
              && |r.value| == 41 + |body|
              && r.value[..4] == [0x4D, 0x52, 0x53, 2] && Eight(r.value, 4) == s.generation
              && r.value[12] == 24 && Four(r.value, 13) == |body|
              && r.value[17..41] == nonce.value && r.value[41..] == body
  {
    StateAadLayout(context, 2);
    hide AadOf, AadBytes, StateLabel;
    if |context| <= 65512 && |s.skipped| <= 1024 {
      EncodingIsSmall(s);
      var aad, plaintext := StateLabel(0x32) + context, EncodedState(s).value;
      hide EncodedState;
      EnvelopeExact.SealWithOutcome(c, key, XChaCha20Poly1305, aad, plaintext, nonce);
      hide SealedWith;
      if nonce.Some? {
        var body := c.seal(key, XChaCha20Poly1305, nonce.value, aad, plaintext);
        assert |body| == |plaintext| + 16;
        BlobBytes(s.generation, nonce.value, body);
      }
    }
  }

  lemma {:induction false} BlobBytes(generation: u64, nonce: Bytes, body: Bytes)
    requires |nonce| == 24 && |body| <= U32_MAX
    ensures var b := HeaderBytes(2, generation, 24, |body|) + nonce + body;
            && |b| == 41 + |body|
            && b[..4] == [0x4D, 0x52, 0x53, 2] && Eight(b, 4) == generation
            && b[12] == 24 && Four(b, 13) == |body|
            && b[17..41] == nonce && b[41..] == body
  {
    var b := HeaderBytes(2, generation, 24, |body|) + nonce + body;
    assert b[4..12] == U64Bytes(generation) && b[13..17] == U32Bytes(|body|);
    EightIn(b, 4, generation);
    FourIn(b, 13, |body|);
  }

  lemma {:induction false} FourRead(b: Bytes, at: nat)
    requires at + 4 <= |b|
    ensures U32At(b, at) == Four(b, at)
  {
    FourIn(b, at, U32At(b, at));
  }

  lemma {:induction false} EightRead(b: Bytes, at: nat)
    requires at + 8 <= |b|
    ensures U64At(b, at) == Eight(b, at)
  {
    EightIn(b, at, U64At(b, at));
  }

  lemma {:induction false} TwoRead(b: Bytes, at: nat)
    requires at + 2 <= |b|
    ensures U16At(b, at) == Two(b, at)
  {
    TwoIn(b, at, U16At(b, at));
  }

  /** The outcome of `restore_state`, down to what the opened bytes decode to. */
  lemma {:induction false} RestoreStateOutcome(c: Primitives, key: Bytes32, context: Bytes, floor: u64, blob: Bytes)
    ensures var r := RestoredState(c, key, context, floor, blob);
            if |blob| < 57 || blob[..3] != [0x4D, 0x52, 0x53] || (blob[3] != 1 && blob[3] != 2) then
              r == Err(InvalidFrame)
            else if Eight(blob, 4) < floor then r == Err(StateRollbackDetected)
            else if blob[12] != 24 || |blob| != 41 + Four(blob, 13) then r == Err(InvalidFrame)
            else if Four(blob, 13) > 0x10_0000 || |context| > 65512 then r == Err(InvalidLength)
            else
              var aad := StateLabel(if blob[3] == 1 then 0x31 else 0x32) + context;
              var plaintext := c.open(key, XChaCha20Poly1305, blob[17..41], aad, blob[41..]);
              if plaintext.None? then r == Err(AuthenticationFailed)
              else r == DecodedState(plaintext.value, Eight(blob, 4), blob[3])
  {
    StateAadLayout(context, 1);
    StateAadLayout(context, 2);
    hide AadOf, AadBytes, DecodedState, StateLabel;
    if |blob| >= 57 {
      EightRead(blob, 4);
      FourRead(blob, 13);
    }
    hide Eight, Four;
  }

  /** No two entries share remote key and number. */
  predicate NoRepeats(entries: seq<Entry>) {
    forall i, j :: 0 <= i < j < |entries| ==>
      entries[i].remoteDh != entries[j].remoteDh || entries[i].messageNumber != entries[j].messageNumber
  }

  /** The entry that stands at `at`. */
  function EntryFrom(b: Bytes, at: nat): (Bytes, nat, Bytes)
    requires at + 68 <= |b|
  {
    (b[at..at + 32], Four(b, at + 32), b[at + 36..at + 68])
  }

  /** The `n` entries from `at` on. */
  ghost predicate EntriesStandAt(b: Bytes, at: nat, entries: seq<Entry>) {
    && at + 68 * |entries| <= |b|
    && forall k :: 0 <= k < |entries| ==>
         EntryFrom(b, at + 68 * k) == (entries[k].remoteDh, entries[k].messageNumber, entries[k].key)
  }

  /** Reading entries fails only when one repeats, as an invalid state; otherwise they are those that stand there. */
  lemma {:induction false} EntriesOutcome(b: Bytes, at: nat, n: nat)
    requires at + 68 * n <= |b|
    ensures var r := EntriesAt(b, at, n);
            && (r.Ok? ==> |r.value| == n && EntriesStandAt(b, at, r.value) && NoRepeats(r.value))
            && (r.Err? ==> r.error == InvalidState && RepeatsAt(b, at, n))
  {
    hide EntryAt, EntryFrom, EntriesStandAt, NoRepeats, Clash, RepeatsAt;
    if n == 0 {
      NoEntriesStand(b, at);
    } else {
      EntriesOutcome(b, at, n - 1);
      var before, next := EntriesAt(b, at, n - 1), EntryAt(b, at + 68 * (n - 1));
      if before.Err? {
        RepeatsMore(b, at, n);
      } else if exists i :: 0 <= i < |before.value| && Clash(before.value[i], next) {
        var i :| 0 <= i < |before.value| && Clash(before.value[i], next);
        ClashRepeats(b, at, before.value, i);
        ClashRefused(b, at, n, i);
      } else {
        EntriesStandMore(b, at, before.value);
      }
    }
  }

  lemma {:induction false} ClashRefused(b: Bytes, at: nat, n: nat, i: nat)
    requires n > 0 && at + 68 * n <= |b| && EntriesAt(b, at, n - 1).Ok? && i < |EntriesAt(b, at, n - 1).value|
    requires Clash(EntriesAt(b, at, n - 1).value[i], EntryAt(b, at + 68 * (n - 1)))
    ensures EntriesAt(b, at, n) == Err(InvalidState)
  {
    hide EntryAt;
  }

  lemma {:induction false} EntryReads(b: Bytes, at: nat)
    requires at + 68 <= |b|
    ensures var e := EntryAt(b, at); EntryFrom(b, at) == (e.remoteDh, e.messageNumber, e.key)
  {
    FourRead(b, at + 32);
    hide Four;
  }

  lemma {:induction false} NoEntriesStand(b: Bytes, at: nat)
    requires at <= |b|
    ensures EntriesStandAt(b, at, []) && NoRepeats([])
  {
  }

  lemma {:induction false} EntriesStandMore(b: Bytes, at: nat, entries: seq<Entry>)
    requires at + 68 * (|entries| + 1) <= |b| && EntriesStandAt(b, at, entries) && NoRepeats(entries)
    requires !exists i :: 0 <= i < |entries| && Clash(entries[i], EntryAt(b, at + 68 * |entries|))
    ensures var all := entries + [EntryAt(b, at + 68 * |entries|)]; EntriesStandAt(b, at, all) && NoRepeats(all)
  {
    EntryReads(b, at + 68 * |entries|);
    hide EntryAt, EntryFrom;
  }

  /** Two of the first `n` entries share remote key and number. */
  ghost predicate RepeatsAt(b: Bytes, at: nat, n: nat) {
    exists i, j :: 0 <= i < j < n && SameIdAt(b, at, i, j)
  }

  lemma {:induction false} RepeatsMore(b: Bytes, at: nat, n: nat)
    requires n > 0 && RepeatsAt(b, at, n - 1)
    ensures RepeatsAt(b, at, n)
  {
    hide SameIdAt;
    var i, j :| 0 <= i < j < n - 1 && SameIdAt(b, at, i, j);
    assert 0 <= i < j < n && SameIdAt(b, at, i, j);
  }

  lemma {:induction false} ClashRepeats(b: Bytes, at: nat, entries: seq<Entry>, i: nat)
    requires at + 68 * (|entries| + 1) <= |b| && EntriesStandAt(b, at, entries)
    requires i < |entries| && Clash(entries[i], EntryAt(b, at + 68 * |entries|))
    ensures RepeatsAt(b, at, |entries| + 1)
  {
    EntryReads(b, at + 68 * |entries|);
    hide EntryAt, EntryFrom;
    assert EntryFrom(b, at + 68 * i) == (entries[i].remoteDh, entries[i].messageNumber, entries[i].key);
    assert SameIdAt(b, at, i, |entries|);
  }

  predicate SameIdAt(b: Bytes, at: nat, i: int, j: int) {
    && 0 <= i < j && at + 68 * j + 68 <= |b|
    && EntryFrom(b, at + 68 * i).0 == EntryFrom(b, at + 68 * j).0
    && EntryFrom(b, at + 68 * i).1 == EntryFrom(b, at + 68 * j).1
  }

  /** The outcome of decoding a state, of either version. */
  lemma {:induction false} DecodeStateOutcome(b: Bytes, generation: u64, version: byte)
    ensures var r := DecodedState(b, generation, version);
            if version != 1 && version != 2 then r == Err(InvalidFrame)
            else if |b| < (if version == 1 then 206 else 207) then r == Err(InvalidFrame)
            else if version == 2 && !(1 <= b[204] <= 4) then r == Err(UnsupportedSuite)
            else
              var count := Two(b, if version == 1 then 204 else 205);
              var fixed := if version == 1 then 206 else 207;
              if count > 1024 then r == Err(InvalidState)
              else if |b| != fixed + 68 * count then r == Err(InvalidFrame)
              else if RepeatsAt(b, fixed, count) then r == Err(InvalidState)
              else
                && r.Ok? && r.value.generation == generation
                && SuiteNumber(r.value.suite) == (if version == 1 then 4 else b[204])
                && r.value.sessionId == b[0..32] && r.value.rootKey == b[32..64] && r.value.sendingChain == b[64..96]
                && r.value.receivingChain == b[96..128] && r.value.dhSecret == b[128..160]
                && r.value.remoteDh == b[160..192] && r.value.previousSendingChainLen == Four(b, 192)
                && r.value.sendingCount == Four(b, 196) && r.value.receivingCount == Four(b, 200)
                && |r.value.skipped| == count && EntriesStandAt(b, fixed, r.value.skipped)
  {
    if (version == 1 || version == 2) && |b| >= (if version == 1 then 206 else 207) {
      var at, fixed := if version == 1 then 204 else 205, if version == 1 then 206 else 207;
      TwoRead(b, at);
      var count := Two(b, at);
      hide EntriesAt, Two, RecordAt, EntriesStandAt, RepeatsAt, Four, NoRepeats;
      if count <= 1024 && |b| == fixed + 68 * count {
        EntriesOutcome(b, fixed, count);
        if EntriesAt(b, fixed, count).Ok? {
          RepeatsAgree(b, fixed, EntriesAt(b, fixed, count).value);
          if version == 1 || AeadSuite.FromId(b[204]).Ok? {
            var suite := if version == 1 then XChaCha20Poly1305 else AeadSuite.FromId(b[204]).value;
            RecordReads(b, generation, suite, EntriesAt(b, fixed, count).value);
          }
        }
      }
    }
  }

  lemma {:induction false} RecordReads(b: Bytes, generation: u64, suite: AeadSuite, skipped: seq<Entry>)
    requires |b| >= 204
    ensures var r := RecordAt(b, generation, suite, skipped);
            && r.generation == generation && r.suite == suite && r.skipped == skipped
            && r.sessionId == b[0..32] && r.rootKey == b[32..64] && r.sendingChain == b[64..96]
            && r.receivingChain == b[96..128] && r.dhSecret == b[128..160] && r.remoteDh == b[160..192]
            && r.previousSendingChainLen == Four(b, 192) && r.sendingCount == Four(b, 196)
            && r.receivingCount == Four(b, 200)
  {
    FourRead(b, 192);
    FourRead(b, 196);
    FourRead(b, 200);
    hide Four;
  }

  /** Entries that repeat nothing repeat nothing in the bytes either. */
  lemma {:induction false} RepeatsAgree(b: Bytes, at: nat, entries: seq<Entry>)
    requires EntriesStandAt(b, at, entries) && NoRepeats(entries)
    ensures !RepeatsAt(b, at, |entries|)
  {
    hide EntryFrom;
    forall i, j | 0 <= i < j < |entries|
      ensures !SameIdAt(b, at, i, j)
    {
      assert EntryFrom(b, at + 68 * i) == (entries[i].remoteDh, entries[i].messageNumber, entries[i].key);
      assert EntryFrom(b, at + 68 * j) == (entries[j].remoteDh, entries[j].messageNumber, entries[j].key);
    }
  }
}
