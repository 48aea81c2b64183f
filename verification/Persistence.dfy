/** The sealed ratchet record: canonical state bytes in two readable versions, sealing and restoring. */
module Persistence {
  import opened Common
  import opened ByteCoding
  import opened Primitives
  import Wire

  const MAGIC: Bytes := [0x4D, 0x52, 0x53]
  const VERSION: byte := 2
  const LEGACY_VERSION: byte := 1
  const STATE_SUITE := XChaCha20Poly1305
  const NONCE_LEN := 24
  const HEADER_LEN := 17
  const FIELDS_LEN := 204
  const FIXED_LEN_V1 := 206
  const FIXED_LEN_V2 := 207
  const ENTRY_LEN := 68

  /** `MEF-26/ratchet-state-v`, completed by the version digit and a zero byte. */
  const AAD_LABEL: Bytes := [0x4D, 0x45, 0x46, 0x2D, 0x32, 0x36, 0x2F,
                             0x72, 0x61, 0x74, 0x63, 0x68, 0x65, 0x74, 0x2D,
                             0x73, 0x74, 0x61, 0x74, 0x65, 0x2D, 0x76]

  datatype Entry = Entry(remoteDh: Bytes32, messageNumber: u32, key: Bytes32)

  /** Everything a ratchet holds, as bytes; a key pair is stored as its secret. */
  datatype StateRecord = StateRecord(
    sessionId: Bytes32,
    rootKey: Bytes32,
    sendingChain: Bytes32,
    receivingChain: Bytes32,
    dhSecret: Bytes32,
    remoteDh: Bytes32,
    previousSendingChainLen: u32,
    sendingCount: u32,
    receivingCount: u32,
    generation: u64,
    suite: AeadSuite,
    skipped: seq<Entry>)

  predicate Clash(a: Entry, b: Entry) {
    a.remoteDh == b.remoteDh && a.messageNumber == b.messageNumber
  }

  predicate Unique(entries: seq<Entry>) {
    forall i, j :: 0 <= i < j < |entries| ==> !Clash(entries[i], entries[j])
  }

  predicate Storable(s: StateRecord) {
    |s.skipped| <= MAX_SKIPPED_KEYS && Unique(s.skipped)
  }

  // ---- state bytes --------------------------------------------------------------------------

  function FieldBytes(s: StateRecord): (b: Bytes)
    ensures |b| == FIELDS_LEN
  {
    s.sessionId + s.rootKey + s.sendingChain + s.receivingChain + s.dhSecret + s.remoteDh
    + U32Bytes(s.previousSendingChainLen) + U32Bytes(s.sendingCount) + U32Bytes(s.receivingCount)
  }

  function EntryBytes(e: Entry): (b: Bytes)
    ensures |b| == ENTRY_LEN
  {
    e.remoteDh + U32Bytes(e.messageNumber) + e.key
  }

  function EntriesBytes(entries: seq<Entry>): (b: Bytes)
    ensures |b| == ENTRY_LEN * |entries|
  {
    if |entries| == 0 then []
    else EntriesBytes(entries[..|entries| - 1]) + EntryBytes(entries[|entries| - 1])
  }

  function EncodedState(s: StateRecord): Result<Bytes> {
    if |s.skipped| > MAX_SKIPPED_KEYS then Err(InvalidState)
    else Ok(FieldBytes(s) + [s.suite.Id()] + U16Bytes(|s.skipped|) + EntriesBytes(s.skipped))
  }

  method EncodeState(s: StateRecord) returns (r: Result<Bytes>)
    ensures r == EncodedState(s)
  {
    if |s.skipped| > MAX_SKIPPED_KEYS {
      return Err(InvalidState);
    }
    var output: Bytes := s.sessionId;
    output := output + s.rootKey;
    output := output + s.sendingChain;
    output := output + s.receivingChain;
    output := output + s.dhSecret;
    output := output + s.remoteDh;
    output := output + U32Bytes(s.previousSendingChainLen);
    output := output + U32Bytes(s.sendingCount);
    output := output + U32Bytes(s.receivingCount);
    output := output + [s.suite.Id()];
    output := output + U16Bytes(|s.skipped|);
    ghost var fixed := output;
    for i := 0 to |s.skipped|
      invariant output == fixed + EntriesBytes(s.skipped[..i])
    {
      assert s.skipped[..i + 1][..i] == s.skipped[..i];
      output := output + s.skipped[i].remoteDh;
      output := output + U32Bytes(s.skipped[i].messageNumber);
      output := output + s.skipped[i].key;
      assert output == fixed + (EntriesBytes(s.skipped[..i]) + EntryBytes(s.skipped[i]));
    }
    assert s.skipped[..|s.skipped|] == s.skipped;
    return Ok(output);
  }

  function EntryAt(b: Bytes, at: nat): Entry
    requires at + ENTRY_LEN <= |b|
  {
    Entry(b[at..at + 32], U32At(b, at + 32), b[at + 36..at + 68])
  }

  /** The first `n` entries from `at` on, refused if one repeats an earlier (remote key, number). */
  function EntriesAt(b: Bytes, at: nat, n: nat): (r: Result<seq<Entry>>)
    requires at + ENTRY_LEN * n <= |b|
  {
    if n == 0 then Ok([])
    else
      match EntriesAt(b, at, n - 1)
      case Err(e) => Err(e)
      case Ok(entries) =>
        var next := EntryAt(b, at + ENTRY_LEN * (n - 1));
        if exists i :: 0 <= i < |entries| && Clash(entries[i], next) then Err(InvalidState)
        else Ok(entries + [next])
  }

  function RecordAt(b: Bytes, generation: u64, suite: AeadSuite, skipped: seq<Entry>): StateRecord
    requires |b| >= FIELDS_LEN
  {
    StateRecord(b[0..32], b[32..64], b[64..96], b[96..128], b[128..160], b[160..192],
                U32At(b, 192), U32At(b, 196), U32At(b, 200), generation, suite, skipped)
  }

  /** The suite of a record and the offset of its skipped-key count. */
  function SuiteAt(b: Bytes, version: byte): Result<(AeadSuite, nat)>
    requires |b| >= FIXED_LEN_V1
  {
    if version == LEGACY_VERSION then Ok((XChaCha20Poly1305, 204))
    else
      match AeadSuite.FromId(b[204])
      case Err(e) => Err(e)
      case Ok(suite) => Ok((suite, 205))
  }

  function DecodedState(b: Bytes, generation: u64, version: byte): Result<StateRecord> {
    if version != LEGACY_VERSION && version != VERSION then Err(InvalidFrame)
    else
      var fixedLen := if version == LEGACY_VERSION then FIXED_LEN_V1 else FIXED_LEN_V2;
      if |b| < fixedLen then Err(InvalidFrame)
      else
        match SuiteAt(b, version)
        case Err(e) => Err(e)
        case Ok((suite, countOffset)) =>
          var count := U16At(b, countOffset);
          if count > MAX_SKIPPED_KEYS then Err(InvalidState)
          else if |b| != fixedLen + ENTRY_LEN * count then Err(InvalidFrame)
          else
            match EntriesAt(b, fixedLen, count)
            case Err(e) => Err(e)
            case Ok(skipped) => Ok(RecordAt(b, generation, suite, skipped))
  }

  method DecodeState(b: Bytes, generation: u64, version: byte) returns (r: Result<StateRecord>)
    ensures r == DecodedState(b, generation, version)
  {
    hide EntryAt, RecordAt, Clash;
    if version != LEGACY_VERSION && version != VERSION {
      return Err(InvalidFrame);
    }
    var fixedLen := if version == LEGACY_VERSION then FIXED_LEN_V1 else FIXED_LEN_V2;
    if |b| < fixedLen {
      return Err(InvalidFrame);
    }
    var suiteAndOffset := SuiteAt(b, version);
    if suiteAndOffset.Err? {
      return Err(suiteAndOffset.error);
    }
    var (suite, countOffset) := suiteAndOffset.value;
    var skippedCount := U16At(b, countOffset);
    if skippedCount > MAX_SKIPPED_KEYS {
      return Err(InvalidState);
    }
    if |b| != fixedLen + skippedCount * ENTRY_LEN {
      return Err(InvalidFrame);
    }
    var skipped: seq<Entry> := [];
    for index := 0 to skippedCount
      invariant EntriesAt(b, fixedLen, index) == Ok(skipped)
    {
      var entry := EntryAt(b, fixedLen + ENTRY_LEN * index);
      if exists i :: 0 <= i < |skipped| && Clash(skipped[i], entry) {
        FailureStays(b, fixedLen, index + 1, skippedCount);
        return Err(InvalidState);
      }
      skipped := skipped + [entry];
    }
    return Ok(RecordAt(b, generation, suite, skipped));
  }

  lemma {:induction false} FailureStays(b: Bytes, at: nat, n: nat, m: nat)
    requires n <= m && at + ENTRY_LEN * m <= |b| && EntriesAt(b, at, n).Err?
    ensures EntriesAt(b, at, m) == EntriesAt(b, at, n)
    decreases m
  {
    if n < m {
      FailureStays(b, at, n, m - 1);
    }
  }

  // ---- canonical bytes ----------------------------------------------------------------------

  lemma {:induction false} FieldsFound(s: StateRecord, rest: Bytes)
    ensures RecordAt(FieldBytes(s) + rest, s.generation, s.suite, s.skipped) == s
  {
    var b := FieldBytes(s) + rest;
    FieldSlices(s, rest);
    hide FieldBytes;
    SameU32(U32At(b, 192), s.previousSendingChainLen);
    SameU32(U32At(b, 196), s.sendingCount);
    SameU32(U32At(b, 200), s.receivingCount);
  }

  lemma {:induction false} FieldSlices(s: StateRecord, rest: Bytes)
    ensures var b := FieldBytes(s) + rest;
            && b[0..32] == s.sessionId && b[32..64] == s.rootKey && b[64..96] == s.sendingChain
            && b[96..128] == s.receivingChain && b[128..160] == s.dhSecret && b[160..192] == s.remoteDh
            && b[192..196] == U32Bytes(s.previousSendingChainLen) && b[196..200] == U32Bytes(s.sendingCount)
            && b[200..204] == U32Bytes(s.receivingCount)
  {
  }

  lemma {:induction false} FieldsRebuilt(b: Bytes, generation: u64, suite: AeadSuite, skipped: seq<Entry>)
    requires |b| >= FIELDS_LEN
    ensures FieldBytes(RecordAt(b, generation, suite, skipped)) == b[..FIELDS_LEN]
  {
    assert b[..64] == b[0..32] + b[32..64];
    assert b[..96] == b[..64] + b[64..96];
    assert b[..128] == b[..96] + b[96..128];
    assert b[..160] == b[..128] + b[128..160];
    assert b[..192] == b[..160] + b[160..192];
    assert b[..196] == b[..192] + b[192..196];
    assert b[..200] == b[..196] + b[196..200];
    assert b[..204] == b[..200] + b[200..204];
  }

  lemma {:induction false} EntryFound(b: Bytes, at: nat, e: Entry)
    requires at + ENTRY_LEN <= |b|
    ensures EntryAt(b, at) == e <==> b[at..at + ENTRY_LEN] == EntryBytes(e)
  {
    var slice := b[at..at + ENTRY_LEN];
    assert slice[..32] == b[at..at + 32] && slice[32..36] == b[at + 32..at + 36] && slice[36..] == b[at + 36..at + 68];
    assert slice == slice[..32] + slice[32..36] + slice[36..];
    var t := EntryBytes(e);
    assert t[..32] == e.remoteDh && t[32..36] == U32Bytes(e.messageNumber) && t[36..] == e.key;
    if slice == t {
      SameU32(U32At(b, at + 32), e.messageNumber);
    }
  }

  /** Entries are read as `entries` exactly when they are their bytes and repeat nothing. */
  lemma {:induction false} EntriesFound(b: Bytes, at: nat, entries: seq<Entry>)
    requires at + ENTRY_LEN * |entries| <= |b|
    ensures EntriesAt(b, at, |entries|) == Ok(entries) <==>
            Unique(entries) && b[at..at + ENTRY_LEN * |entries|] == EntriesBytes(entries)
    decreases |entries|
  {
    hide EntryAt, EntryBytes, EntriesAt, EntriesBytes, Unique, Clash;
    if |entries| == 0 {
      NoEntries(b, at);
      assert entries == [];
    } else {
      var n := |entries| - 1;
      var front, e, mid := entries[..n], entries[n], at + ENTRY_LEN * n;
      assert entries == front + [e];
      EntriesFound(b, at, front);
      EntryFound(b, mid, e);
      UniqueAppend(front, e);
      BytesAppend(b, at, front, e);
      EntriesAppend(b, at, front, e);
    }
  }

  lemma {:induction false} NoEntries(b: Bytes, at: nat)
    requires at <= |b|
    ensures EntriesAt(b, at, 0) == Ok([]) && Unique([]) && EntriesBytes([]) == []
  {
  }

  lemma {:induction false} BytesAppend(b: Bytes, at: nat, front: seq<Entry>, e: Entry)
    requires at + ENTRY_LEN * (|front| + 1) <= |b|
    ensures var mid := at + ENTRY_LEN * |front|;
            b[at..mid + ENTRY_LEN] == EntriesBytes(front + [e]) <==>
            b[at..mid] == EntriesBytes(front) && b[mid..mid + ENTRY_LEN] == EntryBytes(e)
  {
    hide EntryBytes;
    var mid := at + ENTRY_LEN * |front|;
    assert (front + [e])[..|front|] == front;
    assert b[at..mid + ENTRY_LEN] == b[at..mid] + b[mid..mid + ENTRY_LEN];
    SplitBytes(b[at..mid], b[mid..mid + ENTRY_LEN], EntriesBytes(front), EntryBytes(e));
  }

  lemma {:induction false} EntriesAppend(b: Bytes, at: nat, front: seq<Entry>, e: Entry)
    requires at + ENTRY_LEN * (|front| + 1) <= |b|
    ensures EntriesAt(b, at, |front| + 1) == Ok(front + [e]) <==>
            && EntriesAt(b, at, |front|) == Ok(front) && EntryAt(b, at + ENTRY_LEN * |front|) == e
            && forall i :: 0 <= i < |front| ==> !Clash(front[i], e)
  {
    hide EntryAt, Clash;
    EntriesCount(b, at, |front|);
    if EntriesAt(b, at, |front| + 1) == Ok(front + [e]) {
      var read := EntriesAt(b, at, |front|).value;
      assert read == (front + [e])[..|front|];
      assert (front + [e])[|front|] == e;
    }
  }

  lemma {:induction false} SplitBytes(a: Bytes, b: Bytes, c: Bytes, d: Bytes)
    requires |a| == |c| && |b| == |d|
    ensures a + b == c + d <==> a == c && b == d
  {
    if a + b == c + d {
      assert a == (a + b)[..|a|] && b == (a + b)[|a|..];
      assert c == (c + d)[..|a|] && d == (c + d)[|a|..];
    }
  }

  lemma {:induction false} UniqueAppend(front: seq<Entry>, e: Entry)
    ensures Unique(front + [e]) <==> Unique(front) && forall i :: 0 <= i < |front| ==> !Clash(front[i], e)
  {
    var all := front + [e];
    if Unique(all) {
      forall i, j | 0 <= i < j < |front|
        ensures !Clash(front[i], front[j])
      {
        assert all[i] == front[i] && all[j] == front[j];
      }
      forall i | 0 <= i < |front|
        ensures !Clash(front[i], e)
      {
        assert all[i] == front[i] && all[|front|] == e;
      }
    }
  }

  lemma {:induction false} EntriesCount(b: Bytes, at: nat, n: nat)
    requires at + ENTRY_LEN * n <= |b|
    ensures EntriesAt(b, at, n).Ok? ==> |EntriesAt(b, at, n).value| == n
    ensures EntriesAt(b, at, n).Err? ==> EntriesAt(b, at, n).error == InvalidState
  {
    if n > 0 {
      EntriesCount(b, at, n - 1);
    }
  }

  /** The bytes of a record decode to it exactly if its retained keys are distinct, and are refused otherwise. */
  lemma {:induction false} EncodingDecodes(s: StateRecord)
    requires |s.skipped| <= MAX_SKIPPED_KEYS
    ensures EncodedState(s).Ok?
    ensures DecodedState(EncodedState(s).value, s.generation, VERSION) ==
            if Unique(s.skipped) then Ok(s) else Err(InvalidState)
  {
    hide FieldBytes, RecordAt, EntriesBytes, EntriesAt, Unique;
    var b, n := EncodedState(s).value, |s.skipped|;
    var rest := [s.suite.Id()] + U16Bytes(n) + EntriesBytes(s.skipped);
    assert b == FieldBytes(s) + rest;
    FieldsFound(s, rest);
    assert b[204] == s.suite.Id();
    assert b[205..207] == U16Bytes(n);
    assert U16At(b, 205) == n by {
      assert U16Bytes(U16At(b, 205)) == U16Bytes(n);
    }
    assert b[207..207 + ENTRY_LEN * n] == EntriesBytes(s.skipped);
    EntriesFound(b, FIXED_LEN_V2, s.skipped);
    EntriesCount(b, FIXED_LEN_V2, n);
    if !Unique(s.skipped) {
      NotOtherEntries(b, s.skipped);
    }
  }

  lemma {:induction false} NotOtherEntries(b: Bytes, entries: seq<Entry>)
    requires FIXED_LEN_V2 + ENTRY_LEN * |entries| <= |b| && !Unique(entries)
    requires b[FIXED_LEN_V2..FIXED_LEN_V2 + ENTRY_LEN * |entries|] == EntriesBytes(entries)
    ensures EntriesAt(b, FIXED_LEN_V2, |entries|) == Err(InvalidState)
  {
    hide EntriesAt, EntriesBytes, Unique;
    EntriesCount(b, FIXED_LEN_V2, |entries|);
    if EntriesAt(b, FIXED_LEN_V2, |entries|).Ok? {
      var other := EntriesAt(b, FIXED_LEN_V2, |entries|).value;
      EntriesFound(b, FIXED_LEN_V2, other);
      SameEntries(entries, other);
      assert false;
    }
  }

  lemma {:induction false} SameEntries(a: seq<Entry>, b: seq<Entry>)
    requires |a| == |b| && EntriesBytes(a) == EntriesBytes(b)
    ensures a == b
  {
    if |a| > 0 {
      var n := |a| - 1;
      SplitBytes(EntriesBytes(a[..n]), EntryBytes(a[n]), EntriesBytes(b[..n]), EntryBytes(b[n]));
      SameEntries(a[..n], b[..n]);
      EntryFound(EntryBytes(a[n]), 0, a[n]);
      EntryFound(EntryBytes(b[n]), 0, b[n]);
      hide EntryBytes, EntryAt;
      assert EntryBytes(a[n])[0..ENTRY_LEN] == EntryBytes(a[n]);
      assert EntryBytes(b[n])[0..ENTRY_LEN] == EntryBytes(b[n]);
      assert a == a[..n] + [a[n]] && b == b[..n] + [b[n]];
    }
  }

  lemma {:induction false} AcceptedIsCanonical(b: Bytes, generation: u64)
    requires DecodedState(b, generation, VERSION).Ok?
    ensures var s := DecodedState(b, generation, VERSION).value;
            Storable(s) && s.generation == generation && EncodedState(s) == Ok(b)
  {
    hide EntriesAt, EntriesBytes, FieldBytes, RecordAt, Unique;
    var n := U16At(b, 205);
    EntriesCount(b, FIXED_LEN_V2, n);
    var skipped := EntriesAt(b, FIXED_LEN_V2, n).value;
    var suite := AeadSuite.FromId(b[204]).value;
    EntriesFound(b, FIXED_LEN_V2, skipped);
    RecordHolds(b, generation, suite, skipped);
    FieldsRebuilt(b, generation, suite, skipped);
    assert b[FIXED_LEN_V2..] == b[FIXED_LEN_V2..FIXED_LEN_V2 + ENTRY_LEN * |skipped|];
    assert b == b[..204] + [b[204]] + b[205..207] + b[207..];
  }

  lemma {:induction false} RecordHolds(b: Bytes, generation: u64, suite: AeadSuite, skipped: seq<Entry>)
    requires |b| >= FIELDS_LEN
    ensures var s := RecordAt(b, generation, suite, skipped);
            s.skipped == skipped && s.suite == suite && s.generation == generation
  {
  }

  /**
   Version-2 bytes decode to `s` exactly when they are the encoding of `s`, its
   retained keys are at most 1024 and no two of them share remote key and number.
   */
  lemma {:induction false} DecodesExactlyEncodings(b: Bytes, generation: u64, s: StateRecord)
    ensures DecodedState(b, generation, VERSION) == Ok(s) <==>
            Storable(s) && s.generation == generation && EncodedState(s) == Ok(b)
  {
    hide DecodedState, Unique;
    if DecodedState(b, generation, VERSION) == Ok(s) {
      AcceptedIsCanonical(b, generation);
    }
    if Storable(s) && s.generation == generation && EncodedState(s) == Ok(b) {
      EncodingDecodes(s);
    }
  }

  // ---- the legacy version -------------------------------------------------------------------

  /** Version-1 bytes with the suite byte 4 put in at offset 204. */
  function Upgraded(b: Bytes): Bytes
    requires |b| >= FIELDS_LEN
  {
    b[..FIELDS_LEN] + [XChaCha20Poly1305.Id()] + b[FIELDS_LEN..]
  }

  lemma {:induction false} EntriesMove(b: Bytes, c: Bytes, at: nat, to: nat, n: nat)
    requires at + ENTRY_LEN * n <= |b| && to + ENTRY_LEN * n <= |c| && b[at..] == c[to..]
    ensures EntriesAt(b, at, n) == EntriesAt(c, to, n)
  {
    hide EntryAt, Clash;
    if n > 0 {
      EntriesMove(b, c, at, to, n - 1);
      EntryMoves(b, c, at, to, ENTRY_LEN * (n - 1));
    }
  }

  lemma {:induction false} EntryMoves(b: Bytes, c: Bytes, at: nat, to: nat, i: nat)
    requires at + i + ENTRY_LEN <= |b| && to + i + ENTRY_LEN <= |c| && b[at..] == c[to..]
    ensures EntryAt(b, at + i) == EntryAt(c, to + i)
  {
    hide EntryAt, EntryBytes;
    SliceOfSuffix(b, at, i);
    SliceOfSuffix(c, to, i);
    EntryFound(b, at + i, EntryAt(b, at + i));
    EntryFound(c, to + i, EntryAt(b, at + i));
  }

  lemma {:induction false} SliceOfSuffix(b: Bytes, at: nat, i: nat)
    requires at + i + ENTRY_LEN <= |b|
    ensures b[at + i..at + i + ENTRY_LEN] == b[at..][i..i + ENTRY_LEN]
  {
    var x, y := b[at + i..at + i + ENTRY_LEN], b[at..][i..i + ENTRY_LEN];
    assert forall k :: 0 <= k < ENTRY_LEN ==> x[k] == y[k];
  }

  /** A version-1 record is read, or refused, exactly as version 2 reads or refuses its upgrade. */
  lemma {:induction false} LegacyReadsAsUpgraded(b: Bytes, generation: u64)
    requires |b| >= FIELDS_LEN
    ensures DecodedState(b, generation, LEGACY_VERSION) == DecodedState(Upgraded(b), generation, VERSION)
  {
    if |b| >= FIXED_LEN_V1 {
      var c := Upgraded(b);
      assert c[204] == 4;
      assert b[204..206] == c[205..207];
      assert U16At(b, 204) == U16At(c, 205) by {
        assert FromBytes(U16Bytes(U16At(b, 204))) == FromBytes(U16Bytes(U16At(c, 205)));
      }
      var n := U16At(b, 204);
      if |b| == FIXED_LEN_V1 + ENTRY_LEN * n {
        assert b[FIXED_LEN_V1..] == c[FIXED_LEN_V2..];
        EntriesMove(b, c, FIXED_LEN_V1, FIXED_LEN_V2, n);
      }
      SameFields(b, c, generation);
      hide RecordAt, EntriesAt;
    }
  }

  lemma {:induction false} SameFields(b: Bytes, c: Bytes, generation: u64)
    requires |b| >= FIELDS_LEN && |c| >= FIELDS_LEN && b[..FIELDS_LEN] == c[..FIELDS_LEN]
    ensures forall suite, skipped :: RecordAt(b, generation, suite, skipped) == RecordAt(c, generation, suite, skipped)
  {
    forall i, j | 0 <= i <= j <= FIELDS_LEN
      ensures b[i..j] == c[i..j]
    {
      assert forall k :: i <= k < j ==> b[k] == b[..FIELDS_LEN][k] && c[k] == c[..FIELDS_LEN][k];
    }
    SameU32(U32At(b, 192), U32At(c, 192));
    SameU32(U32At(b, 196), U32At(c, 196));
    SameU32(U32At(b, 200), U32At(c, 200));
  }

  /** Version-1 bytes decode to `s` exactly when version 2 writes `s` as their upgrade. */
  lemma {:induction false} LegacyDecodesExactly(b: Bytes, generation: u64, s: StateRecord)
    requires |b| >= FIELDS_LEN
    ensures DecodedState(b, generation, LEGACY_VERSION) == Ok(s) <==>
            Storable(s) && s.generation == generation && EncodedState(s) == Ok(Upgraded(b))
  {
    hide DecodedState, Storable, Upgraded;
    LegacyReadsAsUpgraded(b, generation);
    DecodesExactlyEncodings(Upgraded(b), generation, s);
  }

  // ---- sealing and restoring ----------------------------------------------------------------

  function AadBytes(context: Bytes, version: byte): Bytes {
    AAD_LABEL + (if version == LEGACY_VERSION then [0x31, 0] else [0x32, 0]) + context
  }

  function AadOf(context: Bytes, version: byte): Result<Bytes> {
    if |AadBytes(context, version)| > MAX_AAD_LEN then Err(InvalidLength) else Ok(AadBytes(context, version))
  }

  method StateAad(context: Bytes, version: byte) returns (r: Result<Bytes>)
    ensures r == AadOf(context, version)
  {
    var aadLabel: Bytes := AAD_LABEL + if version == LEGACY_VERSION then [0x31, 0] else [0x32, 0];
    var capacity := |aadLabel| + |context|;
    if capacity > MAX_AAD_LEN {
      return Err(InvalidLength);
    }
    var output := aadLabel;
    output := output + context;
    return Ok(output);
  }

  /**
   The associated data binds the storage context and the record version. It does
   not bind the generation, and neither do the sealed bytes: see `GenerationNotBound`.
   */
  lemma {:induction false} AadBinds(context1: Bytes, version1: byte, context2: Bytes, version2: byte)
    requires AadOf(context1, version1).Ok? && AadOf(context1, version1) == AadOf(context2, version2)
    ensures context1 == context2 && (version1 == LEGACY_VERSION <==> version2 == LEGACY_VERSION)
  {
    var a, b := AadBytes(context1, version1), AadBytes(context2, version2);
    assert a[22] == b[22];
    assert context1 == a[24..] && context2 == b[24..];
  }

  function HeaderBytes(version: byte, generation: u64, nonceLen: byte, bodyLen: u32): (b: Bytes)
    ensures |b| == HEADER_LEN
  {
    MAGIC + [version] + U64Bytes(generation) + [nonceLen] + U32Bytes(bodyLen)
  }

  /** `seal_state`, with the nonce the generator delivered, if it did. */
  function SealedState(c: Primitives, s: StateRecord, key: Bytes32, context: Bytes,
                       nonce: Option<Bytes>): Result<Bytes> {
    match AadOf(context, VERSION)
    case Err(e) => Err(e)
    case Ok(aad) =>
      match EncodedState(s)
      case Err(e) => Err(e)
      case Ok(plaintext) =>
        match SealedWith(c, key, STATE_SUITE, aad, plaintext, nonce)
        case Err(e) => Err(e)
        case Ok(sealed) =>
          if |sealed.body| > U32_MAX || |sealed.nonce| >= 0x100 then Err(InvalidLength)
          else Ok(HeaderBytes(VERSION, s.generation, |sealed.nonce|, |sealed.body|) + sealed.nonce + sealed.body)
  }

  method SealState(c: Primitives, s: StateRecord, key: Bytes32, context: Bytes, nonce: Option<Bytes>)
    returns (r: Result<Bytes>)
    ensures r == SealedState(c, s, key, context, nonce)
  {
    var aad := StateAad(context, VERSION);
    if aad.Err? {
      return Err(aad.error);
    }
    var plaintext := EncodeState(s);
    if plaintext.Err? {
      return Err(plaintext.error);
    }
    var ciphertext := SealedWith(c, key, STATE_SUITE, aad.value, plaintext.value, nonce);
    if ciphertext.Err? {
      return Err(ciphertext.error);
    }
    var sealed := ciphertext.value;
    if |sealed.body| > U32_MAX {
      return Err(InvalidLength);
    }
    var output: Bytes := MAGIC;
    output := output + [VERSION];
    output := output + U64Bytes(s.generation);
    if |sealed.nonce| >= 0x100 {
      return Err(InvalidLength);
    }
    output := output + [|sealed.nonce|];
    output := output + U32Bytes(|sealed.body|);
    output := output + sealed.nonce;
    output := output + sealed.body;
    return Ok(output);
  }

  /** `restore_state`, checks in the source's order. */
  function RestoredState(c: Primitives, key: Bytes32, context: Bytes, minimumGeneration: u64,
                         blob: Bytes): Result<StateRecord> {
    if |blob| < HEADER_LEN + NONCE_LEN + 16 || blob[..3] != MAGIC || (blob[3] != LEGACY_VERSION && blob[3] != VERSION)
    then Err(InvalidFrame)
    else
      var generation := U64At(blob, 4);
      if generation < minimumGeneration then Err(StateRollbackDetected)
      else if blob[12] != NONCE_LEN || |blob| != HEADER_LEN + blob[12] + U32At(blob, 13) then Err(InvalidFrame)
      else
        var nonceEnd := HEADER_LEN + NONCE_LEN;
        var sealed := Wire.Ciphertext(STATE_SUITE, blob[HEADER_LEN..nonceEnd], blob[nonceEnd..]);
        if !sealed.Valid() then Err(InvalidLength)
        else
          match AadOf(context, blob[3])
          case Err(e) => Err(e)
          case Ok(aad) =>
            match OpenedWith(c, key, sealed, aad)
            case Err(e) => Err(e)
            case Ok(plaintext) => DecodedState(plaintext, generation, blob[3])
  }

  lemma {:induction false} HeaderFound(version: byte, generation: u64, nonceLen: byte, bodyLen: u32, rest: Bytes)
    ensures var b := HeaderBytes(version, generation, nonceLen, bodyLen) + rest;
            && b[..3] == MAGIC && b[3] == version && b[12] == nonceLen && b[HEADER_LEN..] == rest
            && U64At(b, 4) == generation && U32At(b, 13) == bodyLen
  {
    var b := HeaderBytes(version, generation, nonceLen, bodyLen) + rest;
    assert b[4..12] == U64Bytes(generation) && b[13..17] == U32Bytes(bodyLen);
    assert U64Bytes(U64At(b, 4)) == U64Bytes(generation) && U32Bytes(U32At(b, 13)) == U32Bytes(bodyLen);
  }

  /** A record of at most 1024 keys is far below the AEAD limit. */
  lemma {:induction false} EncodingIsSmall(s: StateRecord)
    requires |s.skipped| <= MAX_SKIPPED_KEYS
    ensures EncodedState(s).Ok? && |EncodedState(s).value| == FIXED_LEN_V2 + ENTRY_LEN * |s.skipped| < 0x1_2000
  {
  }

  /**
   For any record: sealing succeeds exactly when the context and the retained list
   are within their limits; restoring what was sealed, under the same key and
   context, then yields the very record, unless the floor is above its generation
   or the retained list repeats a (remote key, number).
   */
  lemma {:induction false} SealThenRestore(c: Primitives, s: StateRecord, key: Bytes32, context: Bytes, nonce: Bytes,
                                           floor: u64)
    requires Sound(c) && |nonce| == NONCE_LEN
    ensures var sealed := SealedState(c, s, key, context, Some(nonce));
            && (sealed.Ok? <==> |context| + 24 <= MAX_AAD_LEN && |s.skipped| <= MAX_SKIPPED_KEYS)
            && (sealed.Ok? ==> RestoredState(c, key, context, floor, sealed.value) ==
                               if s.generation < floor then Err(StateRollbackDetected)
                               else if Unique(s.skipped) then Ok(s)
                               else Err(InvalidState))
  {
    if |context| + 24 <= MAX_AAD_LEN && |s.skipped| <= MAX_SKIPPED_KEYS {
      var aad := AadBytes(context, VERSION);
      EncodingIsSmall(s);
      EncodingDecodes(s);
      hide EncodedState, DecodedState, Unique, AadBytes, HeaderBytes;
      var plaintext := EncodedState(s).value;
      SealThenOpen(c, key, STATE_SUITE, aad, plaintext, nonce);
      var sealed := SealedWith(c, key, STATE_SUITE, aad, plaintext, Some(nonce)).value;
      HeaderFound(VERSION, s.generation, NONCE_LEN, |sealed.body|, nonce + sealed.body);
      var blob := HeaderBytes(VERSION, s.generation, NONCE_LEN, |sealed.body|) + (nonce + sealed.body);
      assert blob == HeaderBytes(VERSION, s.generation, NONCE_LEN, |sealed.body|) + nonce + sealed.body;
      assert blob[HEADER_LEN..HEADER_LEN + NONCE_LEN] == nonce && blob[HEADER_LEN + NONCE_LEN..] == sealed.body;
      hide SealedWith, OpenedWith;
    }
  }

  // ---- arbitrary blobs ----------------------------------------------------------------------

  /** `blob` is a header with the generation of `t`, a nonce, and a body that opens to bytes of `t`. */
  ghost predicate SealedAs(c: Primitives, key: Bytes32, context: Bytes, blob: Bytes, t: StateRecord,
                           version: byte, nonce: Bytes, body: Bytes)
  {
    && (version == LEGACY_VERSION || version == VERSION)
    && |nonce| == NONCE_LEN && AEAD_TAG_LEN <= |body| <= MAX_CIPHERTEXT_LEN
    && blob == HeaderBytes(version, t.generation, NONCE_LEN, |body|) + (nonce + body)
    && AadOf(context, version).Ok?
    && var plaintext := c.open(key, STATE_SUITE, nonce, AadBytes(context, version), body);
    && plaintext.Some? && DecodedState(plaintext.value, t.generation, version) == Ok(t)
  }

  /** The bytes of a header are determined by its fields. */
  lemma {:induction false} HeaderRebuilt(b: Bytes)
    requires |b| >= HEADER_LEN && b[..3] == MAGIC
    ensures HeaderBytes(b[3], U64At(b, 4), b[12], U32At(b, 13)) == b[..HEADER_LEN]
  {
    assert b[..4] == b[..3] + [b[3]];
    assert b[..12] == b[..4] + b[4..12];
    assert b[..13] == b[..12] + [b[12]];
    assert b[..17] == b[..13] + b[13..17];
  }

  /** A record carries the generation it is decoded with, and otherwise does not depend on it. */
  lemma {:induction false} GenerationOnlyTags(b: Bytes, g: u64, version: byte, h: u64)
    ensures DecodedState(b, g, version).Ok? ==> DecodedState(b, g, version).value.generation == g
    ensures DecodedState(b, h, version) ==
            match DecodedState(b, g, version)
            case Err(e) => Err(e)
            case Ok(t) => Ok(t.(generation := h))
  {
    hide EntriesAt, SuiteAt;
  }

  /** What restores as `t` is exactly a blob sealed as `t`, with a generation that is not below the floor. */
  lemma {:induction false} RestoresExactly(c: Primitives, key: Bytes32, context: Bytes, floor: u64, blob: Bytes,
                                           t: StateRecord)
    ensures RestoredState(c, key, context, floor, blob) == Ok(t) <==>
            && floor <= t.generation
            && exists version, nonce, body :: SealedAs(c, key, context, blob, t, version, nonce, body)
  {
    hide DecodedState, AadBytes, HeaderBytes;
    if RestoredState(c, key, context, floor, blob) == Ok(t) {
      RestoredIsSealed(c, key, context, floor, blob, t);
    }
    if floor <= t.generation {
      forall version, nonce, body | SealedAs(c, key, context, blob, t, version, nonce, body)
        ensures RestoredState(c, key, context, floor, blob) == Ok(t)
      {
        SealedRestores(c, key, context, floor, blob, t, version, nonce, body);
      }
    }
  }

  lemma {:induction false} RestoredIsSealed(c: Primitives, key: Bytes32, context: Bytes, floor: u64, blob: Bytes,
                                            t: StateRecord)
    requires RestoredState(c, key, context, floor, blob) == Ok(t)
    ensures floor <= t.generation
    ensures exists version, nonce, body :: SealedAs(c, key, context, blob, t, version, nonce, body)
  {
    hide DecodedState, AadBytes, HeaderBytes;
    HeaderRebuilt(blob);
    var nonceEnd := HEADER_LEN + NONCE_LEN;
    var nonce, body := blob[HEADER_LEN..nonceEnd], blob[nonceEnd..];
    assert blob == blob[..HEADER_LEN] + (nonce + body);
    var plaintext := c.open(key, STATE_SUITE, nonce, AadBytes(context, blob[3]), body);
    GenerationOnlyTags(plaintext.value, U64At(blob, 4), blob[3], 0);
    assert SealedAs(c, key, context, blob, t, blob[3], nonce, body);
  }

  lemma {:induction false} SealedRestores(c: Primitives, key: Bytes32, context: Bytes, floor: u64, blob: Bytes,
                                          t: StateRecord, version: byte, nonce: Bytes, body: Bytes)
    requires SealedAs(c, key, context, blob, t, version, nonce, body) && floor <= t.generation
    ensures RestoredState(c, key, context, floor, blob) == Ok(t)
  {
    HeaderFound(version, t.generation, NONCE_LEN, |body|, nonce + body);
    hide DecodedState, AadBytes, HeaderBytes;
    var nonceEnd := HEADER_LEN + NONCE_LEN;
    assert blob[HEADER_LEN..nonceEnd] == nonce && blob[nonceEnd..] == body;
  }

  /** `blob` with the generation `g` in its header, and every other byte as it was. */
  function WithGeneration(blob: Bytes, g: u64): Bytes
    requires |blob| >= 12
  {
    blob[..4] + U64Bytes(g) + blob[12..]
  }

  lemma {:induction false} HeaderWithGeneration(version: byte, g: u64, h: u64, nonceLen: byte, bodyLen: u32,
                                                rest: Bytes)
    ensures WithGeneration(HeaderBytes(version, g, nonceLen, bodyLen) + rest, h) ==
            HeaderBytes(version, h, nonceLen, bodyLen) + rest
  {
    var front: Bytes := MAGIC + [version];
    var back: Bytes := [nonceLen] + U32Bytes(bodyLen);
    var b := HeaderBytes(version, g, nonceLen, bodyLen) + rest;
    assert b == front + U64Bytes(g) + (back + rest);
    assert b[..4] == front && b[12..] == back + rest;
    assert HeaderBytes(version, h, nonceLen, bodyLen) + rest == front + U64Bytes(h) + (back + rest);
  }

  /**
   The generation is not authenticated: a blob that restores at all restores under
   every other generation put in its header, and the floor is compared with that
   one. What the floor refuses depends on the header alone.
   */
  lemma {:induction false} GenerationNotBound(c: Primitives, key: Bytes32, context: Bytes, floor: u64, blob: Bytes,
                                              t: StateRecord, g: u64)
    requires RestoredState(c, key, context, 0, blob) == Ok(t)
    ensures RestoredState(c, key, context, floor, WithGeneration(blob, g)) ==
            if g < floor then Err(StateRollbackDetected) else Ok(t.(generation := g))
  {
    hide DecodedState, AadBytes, HeaderBytes, WithGeneration;
    RestoredIsSealed(c, key, context, 0, blob, t);
    var version, nonce, body :| SealedAs(c, key, context, blob, t, version, nonce, body);
    var blob', t' := WithGeneration(blob, g), t.(generation := g);
    HeaderWithGeneration(version, t.generation, g, NONCE_LEN, |body|, nonce + body);
    HeaderFound(version, g, NONCE_LEN, |body|, nonce + body);
    var plaintext := c.open(key, STATE_SUITE, nonce, AadBytes(context, version), body).value;
    GenerationOnlyTags(plaintext, t.generation, version, g);
    assert SealedAs(c, key, context, blob', t', version, nonce, body);
    if floor <= g {
      SealedRestores(c, key, context, floor, blob', t', version, nonce, body);
    }
  }

  /**
   So a sealed record is refused by a floor above its generation exactly as long as
   its header is left alone: with `g` in the header it restores if and only if `g`
   is not below the floor, whatever generation it was sealed with.
   */
  lemma {:induction false} SealThenRestoreWithGeneration(c: Primitives, s: StateRecord, key: Bytes32, context: Bytes,
                                                         nonce: Bytes, floor: u64, g: u64)
    requires Sound(c) && |nonce| == NONCE_LEN && |context| + 24 <= MAX_AAD_LEN && Storable(s)
    ensures var sealed := SealedState(c, s, key, context, Some(nonce));
            && sealed.Ok? && |sealed.value| >= HEADER_LEN
            && RestoredState(c, key, context, floor, WithGeneration(sealed.value, g)) ==
               if g < floor then Err(StateRollbackDetected) else Ok(s.(generation := g))
  {
    SealThenRestore(c, s, key, context, nonce, 0);
    hide WithGeneration, Unique;
    var blob := SealedState(c, s, key, context, Some(nonce)).value;
    hide SealedState, RestoredState;
    GenerationNotBound(c, key, context, floor, blob, s, g);
  }
}
