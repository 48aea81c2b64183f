/** The bounded, expiring replay cache, and the unbounded log it must agree with. */
module Replay {
  import opened Common
  import opened ByteCoding
  import opened Primitives
  import Wire
  import Envelope

  datatype Entry = Entry(id: Bytes16, expiresAt: u64)

  /** The entries that have not expired, in order. */
  function Live(entries: seq<Entry>, now: u64): (r: seq<Entry>)
    ensures |r| <= |entries|
    ensures forall e :: e in r <==> e in entries && e.expiresAt >= now
  {
    if |entries| == 0 then []
    else
      assert entries == [entries[0]] + entries[1..];
      (if entries[0].expiresAt >= now then [entries[0]] else []) + Live(entries[1..], now)
  }

  predicate HoldsId(entries: seq<Entry>, id: Bytes16) {
    exists i :: 0 <= i < |entries| && entries[i].id == id
  }

  /** `check_and_insert`: the entries after the call, which drops expired ones in any case, and the outcome. */
  function Checked(entries: seq<Entry>, capacity: nat, e: Entry, now: u64): (seq<Entry>, Result<()>) {
    var live := Live(entries, now);
    if HoldsId(live, e.id) then (live, Err(ReplayDetected))
    else if |live| >= capacity then (live, Err(InvalidState))
    else (live + [e], Ok(()))
  }

  class ReplayCache {
    var capacity: nat
    var entries: seq<Entry>

    constructor (capacity: nat)
      requires capacity > 0
      ensures this.capacity == capacity && entries == []
    {
      this.capacity := capacity;
      entries := [];
    }

    static method New(capacity: nat) returns (r: Result<ReplayCache>)
      ensures r.Ok? <==> capacity > 0
      ensures r.Ok? ==> fresh(r.value) && r.value.capacity == capacity && r.value.entries == []
      ensures r.Err? ==> r.error == InvalidLength
    {
      if capacity == 0 {
        return Err(InvalidLength);
      }
      var cache := new ReplayCache(capacity);
      return Ok(cache);
    }

    method CheckAndInsert(id: Bytes16, expiresAt: u64, now: u64) returns (r: Result<()>)
      modifies this`entries
      ensures (entries, r) == Checked(old(entries), capacity, Entry(id, expiresAt), now)
    {
      entries := Live(entries, now);
      if HoldsId(entries, id) {
        return Err(ReplayDetected);
      }
      if |entries| >= capacity {
        return Err(InvalidState);
      }
      entries := entries + [Entry(id, expiresAt)];
      return Ok(());
    }

    /** Opens an envelope and records its identifier; an envelope that does not open leaves the cache alone. */
    method OpenInnerOnce(c: Primitives, e: Envelope.OuterEnvelope, secret: Bytes32, now: u64)
      returns (r: Result<Wire.InnerFrame>)
      modifies this`entries
      ensures (entries, r) == OpenedOnce(old(entries), capacity, c, e, secret, now)
    {
      r := Envelope.OpenInner(c, e, secret, now);
      if r.Err? {
        return;
      }
      var inserted := CheckAndInsert(e.messageId, e.expiresAt, now);
      if inserted.Err? {
        return Err(inserted.error);
      }
    }
  }

  function OpenedOnce(entries: seq<Entry>, capacity: nat, c: Primitives, e: Envelope.OuterEnvelope, secret: Bytes32,
                      now: u64)
    : (seq<Entry>, Result<Wire.InnerFrame>)
  {
    match Envelope.OpenInner(c, e, secret, now)
    case Err(x) => (entries, Err(x))
    case Ok(frame) =>
      var (after, inserted) := Checked(entries, capacity, Entry(e.messageId, e.expiresAt), now);
      (after, if inserted.Ok? then Ok(frame) else Err(inserted.error))
  }

  // ---- runs of the cache --------------------------------------------------------------------

  datatype Call = Call(entry: Entry, now: u64)

  /** The entries after the first `n` calls, starting empty. */
  function After(capacity: nat, calls: seq<Call>, n: nat): (entries: seq<Entry>)
    requires n <= |calls|
    ensures |entries| <= capacity
  {
    if n == 0 then []
    else Checked(After(capacity, calls, n - 1), capacity, calls[n - 1].entry, calls[n - 1].now).0
  }

  function Outcome(capacity: nat, calls: seq<Call>, n: nat): Result<()>
    requires n < |calls|
  {
    Checked(After(capacity, calls, n), capacity, calls[n].entry, calls[n].now).1
  }

  /** Call `j` was accepted, and no clock reading after it, before call `end`, exceeds its expiry. */
  ghost predicate AcceptedAndLive(capacity: nat, calls: seq<Call>, j: nat, end: nat) {
    && j < end <= |calls|
    && Outcome(capacity, calls, j).Ok?
    && forall k :: j < k < end ==> calls[k].now <= calls[j].entry.expiresAt
  }

  /** `e` was accepted by one of the first `end` calls and no reading since has passed its expiry. */
  ghost predicate LiveEntry(capacity: nat, calls: seq<Call>, end: nat, e: Entry)
    requires end <= |calls|
  {
    exists j: nat {:trigger AcceptedAndLive(capacity, calls, j, end)} ::
      AcceptedAndLive(capacity, calls, j, end) && calls[j].entry == e
  }

  /** For any clock: an entry is held exactly if it was accepted and no later reading passed its expiry. */
  lemma {:induction false} HeldExactly(capacity: nat, calls: seq<Call>, n: nat, e: Entry)
    requires n <= |calls|
    ensures e in After(capacity, calls, n) <==> LiveEntry(capacity, calls, n, e)
    decreases n
  {
    hide Checked, LiveEntry;
    if n > 0 {
      HeldExactly(capacity, calls, n - 1, e);
      LiveStep(capacity, calls, n - 1, e);
      CheckedHolds(After(capacity, calls, n - 1), capacity, calls[n - 1].entry, calls[n - 1].now, e);
    } else {
      NothingLiveAtStart(capacity, calls, e);
    }
  }

  lemma {:induction false} NothingLiveAtStart(capacity: nat, calls: seq<Call>, e: Entry)
    ensures !LiveEntry(capacity, calls, 0, e)
  {
  }

  /** One call keeps exactly the unexpired entries, and adds its own if it is accepted. */
  lemma {:induction false} CheckedHolds(entries: seq<Entry>, capacity: nat, offered: Entry, now: u64, e: Entry)
    ensures e in Checked(entries, capacity, offered, now).0 <==>
            || (Checked(entries, capacity, offered, now).1.Ok? && offered == e)
            || (e in entries && now <= e.expiresAt)
  {
    hide HoldsId;
  }

  /** A live entry is the one just accepted, or one that was live before and has not expired now. */
  lemma {:induction false} LiveStep(capacity: nat, calls: seq<Call>, n: nat, e: Entry)
    requires n < |calls|
    ensures LiveEntry(capacity, calls, n + 1, e) <==>
            || (Outcome(capacity, calls, n).Ok? && calls[n].entry == e)
            || (LiveEntry(capacity, calls, n, e) && calls[n].now <= e.expiresAt)
  {
    hide Outcome;
    if Outcome(capacity, calls, n).Ok? && calls[n].entry == e {
      assert AcceptedAndLive(capacity, calls, n, n + 1);
    }
    if LiveEntry(capacity, calls, n, e) && calls[n].now <= e.expiresAt {
      var j: nat :| AcceptedAndLive(capacity, calls, j, n) && calls[j].entry == e;
      assert AcceptedAndLive(capacity, calls, j, n + 1);
    }
    if LiveEntry(capacity, calls, n + 1, e) {
      var j: nat :| AcceptedAndLive(capacity, calls, j, n + 1) && calls[j].entry == e;
      if j < n {
        assert AcceptedAndLive(capacity, calls, j, n);
      }
    }
  }

  /** The identifier of call `n` was accepted before, and no reading since, `n`'s included, has passed its expiry. */
  ghost predicate SeenAndLive(capacity: nat, calls: seq<Call>, n: nat)
    requires n < |calls|
  {
    exists j: nat {:trigger AcceptedAndLive(capacity, calls, j, n + 1)} ::
      j < n && calls[j].entry.id == calls[n].entry.id && AcceptedAndLive(capacity, calls, j, n + 1)
  }

  /**
   For any clock, a call is refused as a replay exactly if its identifier was seen
   and is live; otherwise it is accepted exactly if the live entries leave room.
   */
  lemma {:induction false} ReplayDetectedExactly(capacity: nat, calls: seq<Call>, n: nat)
    requires n < |calls|
    ensures Outcome(capacity, calls, n) ==
            if SeenAndLive(capacity, calls, n) then Err(ReplayDetected)
            else if |Live(After(capacity, calls, n), calls[n].now)| < capacity then Ok(())
            else Err(InvalidState)
  {
    SeenIfHeld(capacity, calls, n);
    hide SeenAndLive, HoldsId, After;
  }

  lemma {:induction false} SeenIfHeld(capacity: nat, calls: seq<Call>, n: nat)
    requires n < |calls|
    ensures HoldsId(Live(After(capacity, calls, n), calls[n].now), calls[n].entry.id)
            <==> SeenAndLive(capacity, calls, n)
  {
    hide Outcome, After;
    var call := calls[n];
    var live := Live(After(capacity, calls, n), call.now);
    if HoldsId(live, call.entry.id) {
      var i :| 0 <= i < |live| && live[i].id == call.entry.id;
      assert live[i] in live;
      HeldExactly(capacity, calls, n, live[i]);
      var j: nat :| AcceptedAndLive(capacity, calls, j, n) && calls[j].entry == live[i];
      assert AcceptedAndLive(capacity, calls, j, n + 1);
    }
    if SeenAndLive(capacity, calls, n) {
      var j: nat :| j < n && calls[j].entry.id == call.entry.id && AcceptedAndLive(capacity, calls, j, n + 1);
      assert AcceptedAndLive(capacity, calls, j, n);
      HeldExactly(capacity, calls, n, calls[j].entry);
      assert calls[j].entry in live;
    }
  }

  ghost predicate NonDecreasing(calls: seq<Call>) {
    forall j, k :: 0 <= j < k < |calls| ==> calls[j].now <= calls[k].now
  }

  /** A log that decides by the same rule and forgets nothing: every accepted entry stays in it. */
  function Log(capacity: nat, calls: seq<Call>, n: nat): seq<Entry>
    requires n <= |calls|
  {
    if n == 0 then []
    else
      var log, call := Log(capacity, calls, n - 1), calls[n - 1];
      if Checked(log, capacity, call.entry, call.now).1.Ok? then log + [call.entry] else log
  }

  lemma {:induction false} LiveAppend(a: seq<Entry>, e: Entry, now: u64)
    ensures Live(a + [e], now) == Live(a, now) + if e.expiresAt >= now then [e] else []
  {
    if |a| > 0 {
      assert (a + [e])[1..] == a[1..] + [e] && (a + [e])[0] == a[0];
      LiveAppend(a[1..], e, now);
      assert Live(a + [e], now) == (if a[0].expiresAt >= now then [a[0]] else []) + Live(a[1..] + [e], now);
    }
  }

  /** Purging now does not matter for a later purge. */
  lemma {:induction false} LiveLater(entries: seq<Entry>, now: u64, later: u64)
    requires now <= later
    ensures Live(Live(entries, now), later) == Live(entries, later)
  {
    if |entries| > 0 {
      LiveLater(entries[1..], now, later);
      var live, rest := Live(entries, now), Live(entries[1..], now);
      if entries[0].expiresAt >= now {
        assert live == [entries[0]] + rest;
        assert live[1..] == rest;
      } else {
        assert live == rest;
      }
    }
  }

  /** The outcome depends on the live entries only. */
  lemma {:induction false} OutcomeFromLive(a: seq<Entry>, b: seq<Entry>, capacity: nat, e: Entry, now: u64)
    requires Live(a, now) == Live(b, now)
    ensures Checked(a, capacity, e, now).1 == Checked(b, capacity, e, now).1
  {
  }

  lemma {:induction false} CheckedLive(entries: seq<Entry>, capacity: nat, e: Entry, now: u64, later: u64)
    requires now <= later
    ensures Live(Checked(entries, capacity, e, now).0, later) ==
            Live(if Checked(entries, capacity, e, now).1.Ok? then entries + [e] else entries, later)
  {
    hide Live, HoldsId;
    LiveLater(entries, now, later);
    LiveAppend(Live(entries, now), e, later);
    LiveAppend(entries, e, later);
  }

  /** From any later reading on, the cache and the log have the same live entries, in the same order. */
  lemma {:induction false} SameLive(capacity: nat, calls: seq<Call>, n: nat, now: u64)
    requires n <= |calls| && NonDecreasing(calls) && (n > 0 ==> calls[n - 1].now <= now)
    ensures Live(After(capacity, calls, n), now) == Live(Log(capacity, calls, n), now)
    decreases n
  {
    hide Checked, Live;
    if n > 0 {
      var call, cache, log := calls[n - 1], After(capacity, calls, n - 1), Log(capacity, calls, n - 1);
      SameLive(capacity, calls, n - 1, call.now);
      SameLive(capacity, calls, n - 1, now);
      OutcomeFromLive(cache, log, capacity, call.entry, call.now);
      CheckedLive(cache, capacity, call.entry, call.now, now);
      LiveAppend(cache, call.entry, now);
      LiveAppend(log, call.entry, now);
    }
  }

  /** Under a non-decreasing clock the bounded cache decides every call as the log does that forgets nothing. */
  lemma {:induction false} AgreesWithLog(capacity: nat, calls: seq<Call>, n: nat)
    requires n < |calls| && NonDecreasing(calls)
    ensures Outcome(capacity, calls, n) ==
            Checked(Log(capacity, calls, n), capacity, calls[n].entry, calls[n].now).1
  {
    hide Checked, Live, Log, After;
    SameLive(capacity, calls, n, calls[n].now);
    OutcomeFromLive(After(capacity, calls, n), Log(capacity, calls, n), capacity, calls[n].entry, calls[n].now);
  }

  /**
   Under a non-decreasing clock, if its entry is offered unexpired, the cache holds
   after call `n` exactly the accepted entries that have not expired by it, and
   never more than its capacity.
   */
  lemma {:induction false} HoldsTheUnexpired(capacity: nat, calls: seq<Call>, n: nat, e: Entry)
    requires n < |calls| && NonDecreasing(calls)
    requires calls[n].now <= calls[n].entry.expiresAt
    ensures |After(capacity, calls, n + 1)| <= capacity
    ensures e in After(capacity, calls, n + 1) <==> e.expiresAt >= calls[n].now && AcceptedBy(capacity, calls, n, e)
  {
    hide Outcome, After, LiveEntry, AcceptedBy, NonDecreasing;
    HeldExactly(capacity, calls, n + 1, e);
    LiveIfUnexpired(capacity, calls, n, e);
  }

  lemma {:induction false} LiveIfUnexpired(capacity: nat, calls: seq<Call>, n: nat, e: Entry)
    requires n < |calls| && NonDecreasing(calls) && calls[n].now <= calls[n].entry.expiresAt
    ensures LiveEntry(capacity, calls, n + 1, e) <==> e.expiresAt >= calls[n].now && AcceptedBy(capacity, calls, n, e)
  {
    hide Outcome;
    if LiveEntry(capacity, calls, n + 1, e) {
      var j: nat :| AcceptedAndLive(capacity, calls, j, n + 1) && calls[j].entry == e;
      assert j < n ==> calls[n].now <= calls[j].entry.expiresAt;
    }
    if e.expiresAt >= calls[n].now && AcceptedBy(capacity, calls, n, e) {
      var j: nat :| j <= n && calls[j].entry == e && Outcome(capacity, calls, j).Ok?;
      assert AcceptedAndLive(capacity, calls, j, n + 1);
    }
  }

  /** One of the calls up to `n` was accepted with entry `e`. */
  ghost predicate AcceptedBy(capacity: nat, calls: seq<Call>, n: nat, e: Entry)
    requires n < |calls|
  {
    exists j: nat {:trigger Outcome(capacity, calls, j)} ::
      j <= n && calls[j].entry == e && Outcome(capacity, calls, j).Ok?
  }

  /**
   One entry offered twice, unexpired at its second call, is accepted twice only if
   the clock, between the two, ran past its expiry and came back.
   */
  lemma {:induction false} TwiceOnlyIfClockRanBack(capacity: nat, calls: seq<Call>, i: nat, n: nat)
    requires i < n < |calls| && calls[i].entry == calls[n].entry
    requires calls[n].now <= calls[n].entry.expiresAt
    requires Outcome(capacity, calls, i).Ok? && Outcome(capacity, calls, n).Ok?
    ensures exists k :: i < k < n && calls[k].now > calls[n].entry.expiresAt >= calls[n].now
  {
    hide Outcome, After, Live;
    ReplayDetectedExactly(capacity, calls, n);
    assert !AcceptedAndLive(capacity, calls, i, n + 1);
  }

  /** And that does happen: a reading past the expiry, then an earlier one. */
  lemma {:induction false} ClockRanBackAcceptsTwice(a: Bytes16, b: Bytes16)
    requires a != b
    ensures var calls := [Call(Entry(a, 10), 5), Call(Entry(b, 20), 11), Call(Entry(a, 10), 9)];
            Outcome(8, calls, 0).Ok? && Outcome(8, calls, 2).Ok?
  {
    var calls := [Call(Entry(a, 10), 5), Call(Entry(b, 20), 11), Call(Entry(a, 10), 9)];
    assert After(8, calls, 0) == [];
    assert After(8, calls, 1) == [Entry(a, 10)];
    assert Live([Entry(a, 10)], 11) == [];
    assert After(8, calls, 2) == [Entry(b, 20)];
    assert Live([Entry(b, 20)], 9) == [Entry(b, 20)];
  }

  // ---- runs of `open_inner_once` ------------------------------------------------------------

  datatype Arrival = Arrival(envelope: Envelope.OuterEnvelope, now: u64)

  /** The cache after the first `n` arrivals. */
  function CacheAfter(capacity: nat, c: Primitives, secret: Bytes32, arrivals: seq<Arrival>, n: nat): seq<Entry>
    requires n <= |arrivals|
  {
    if n == 0 then []
    else
      var last := arrivals[n - 1];
      OpenedOnce(CacheAfter(capacity, c, secret, arrivals, n - 1), capacity, c, last.envelope, secret, last.now).0
  }

  function ArrivalOutcome(capacity: nat, c: Primitives, secret: Bytes32, arrivals: seq<Arrival>,
                          n: nat): Result<Wire.InnerFrame>
    requires n < |arrivals|
  {
    var entries, a := CacheAfter(capacity, c, secret, arrivals, n), arrivals[n];
    OpenedOnce(entries, capacity, c, a.envelope, secret, a.now).1
  }

  predicate Opens(c: Primitives, secret: Bytes32, a: Arrival) {
    Envelope.OpenInner(c, a.envelope, secret, a.now).Ok?
  }

  function EntryOf(e: Envelope.OuterEnvelope): Entry {
    Entry(e.messageId, e.expiresAt)
  }

  ghost predicate InOrder(arrivals: seq<Arrival>) {
    forall j, k :: 0 <= j < k < |arrivals| ==> arrivals[j].now <= arrivals[k].now
  }

  /** Arrival `i` was accepted, before arrival `n`, and recorded as `x`. */
  ghost predicate AcceptedAs(capacity: nat, c: Primitives, secret: Bytes32, arrivals: seq<Arrival>, n: nat, i: nat,
                             x: Entry)
  {
    i < n <= |arrivals| && ArrivalOutcome(capacity, c, secret, arrivals, i).Ok? && EntryOf(arrivals[i].envelope) == x
  }

  ghost predicate WasAccepted(capacity: nat, c: Primitives, secret: Bytes32, arrivals: seq<Arrival>, n: nat, x: Entry) {
    exists i: nat {:trigger AcceptedAs(capacity, c, secret, arrivals, n, i, x)} ::
      AcceptedAs(capacity, c, secret, arrivals, n, i, x)
  }

  /** Of the entries that have not expired by `now`, the cache holds exactly those of accepted arrivals. */
  lemma {:induction false} CacheHolds(capacity: nat, c: Primitives, secret: Bytes32, arrivals: seq<Arrival>, n: nat,
                                      now: u64, x: Entry)
    requires n <= |arrivals| && InOrder(arrivals) && (n > 0 ==> arrivals[n - 1].now <= now) && now <= x.expiresAt
    ensures x in CacheAfter(capacity, c, secret, arrivals, n) <==> WasAccepted(capacity, c, secret, arrivals, n, x)
    decreases n
  {
    hide Envelope.OpenInner, Checked, WasAccepted;
    if n > 0 {
      CacheHolds(capacity, c, secret, arrivals, n - 1, now, x);
      var before, a := CacheAfter(capacity, c, secret, arrivals, n - 1), arrivals[n - 1];
      CheckedHolds(before, capacity, EntryOf(a.envelope), a.now, x);
      AcceptedOneMore(capacity, c, secret, arrivals, n - 1, x);
    } else {
      NothingAccepted(capacity, c, secret, arrivals, x);
    }
  }

  lemma {:induction false} AcceptedOneMore(capacity: nat, c: Primitives, secret: Bytes32, arrivals: seq<Arrival>,
                                           n: nat, x: Entry)
    requires n < |arrivals|
    ensures WasAccepted(capacity, c, secret, arrivals, n + 1, x) <==>
            || WasAccepted(capacity, c, secret, arrivals, n, x)
            || (ArrivalOutcome(capacity, c, secret, arrivals, n).Ok? && EntryOf(arrivals[n].envelope) == x)
  {
    hide ArrivalOutcome;
    if ArrivalOutcome(capacity, c, secret, arrivals, n).Ok? && EntryOf(arrivals[n].envelope) == x {
      assert AcceptedAs(capacity, c, secret, arrivals, n + 1, n, x);
    }
    if WasAccepted(capacity, c, secret, arrivals, n, x) {
      var i: nat :| AcceptedAs(capacity, c, secret, arrivals, n, i, x);
      assert AcceptedAs(capacity, c, secret, arrivals, n + 1, i, x);
    }
    if WasAccepted(capacity, c, secret, arrivals, n + 1, x) {
      var i: nat :| AcceptedAs(capacity, c, secret, arrivals, n + 1, i, x);
      if i < n {
        assert AcceptedAs(capacity, c, secret, arrivals, n, i, x);
      }
    }
  }

  lemma {:induction false} NothingAccepted(capacity: nat, c: Primitives, secret: Bytes32, arrivals: seq<Arrival>,
                                           x: Entry)
    ensures !WasAccepted(capacity, c, secret, arrivals, 0, x)
  {
  }

  /** An earlier accepted arrival has the identifier of arrival `n`, unexpired at its reading. */
  ghost predicate IdentifierIsLive(capacity: nat, c: Primitives, secret: Bytes32, arrivals: seq<Arrival>, n: nat)
    requires n < |arrivals|
  {
    exists i: nat {:trigger ArrivalOutcome(capacity, c, secret, arrivals, i)} ::
      && i < n && ArrivalOutcome(capacity, c, secret, arrivals, i).Ok?
      && arrivals[i].envelope.messageId == arrivals[n].envelope.messageId
      && arrivals[n].now <= arrivals[i].envelope.expiresAt
  }

  /**
   Over any run under a non-decreasing clock, an envelope that opens is refused as a
   replay exactly when an earlier accepted one, the same or another, had its
   identifier and has not expired.
   */
  lemma {:induction false} ReplaysAreLiveIdentifiers(capacity: nat, c: Primitives, secret: Bytes32,
                                                     arrivals: seq<Arrival>, n: nat)
    requires n < |arrivals| && InOrder(arrivals) && Opens(c, secret, arrivals[n])
    ensures ArrivalOutcome(capacity, c, secret, arrivals, n) == Err(ReplayDetected) <==>
            IdentifierIsLive(capacity, c, secret, arrivals, n)
  {
    hide Envelope.OpenInner, CacheAfter;
    var a, entries := arrivals[n], CacheAfter(capacity, c, secret, arrivals, n);
    HeldIsLiveIdentifier(capacity, c, secret, arrivals, n);
    hide HoldsId, Live, IdentifierIsLive;
  }

  lemma {:induction false} HeldIsLiveIdentifier(capacity: nat, c: Primitives, secret: Bytes32,
                                                arrivals: seq<Arrival>, n: nat)
    requires n < |arrivals| && InOrder(arrivals)
    ensures HoldsId(Live(CacheAfter(capacity, c, secret, arrivals, n), arrivals[n].now), arrivals[n].envelope.messageId)
            <==> IdentifierIsLive(capacity, c, secret, arrivals, n)
  {
    hide CacheAfter, ArrivalOutcome;
    var now, id := arrivals[n].now, arrivals[n].envelope.messageId;
    var live := Live(CacheAfter(capacity, c, secret, arrivals, n), now);
    if HoldsId(live, id) {
      var j :| 0 <= j < |live| && live[j].id == id;
      assert live[j] in live;
      CacheHolds(capacity, c, secret, arrivals, n, now, live[j]);
      var i: nat :| AcceptedAs(capacity, c, secret, arrivals, n, i, live[j]);
    }
    if IdentifierIsLive(capacity, c, secret, arrivals, n) {
      var i: nat :| i < n && ArrivalOutcome(capacity, c, secret, arrivals, i).Ok?
                    && arrivals[i].envelope.messageId == id && now <= arrivals[i].envelope.expiresAt;
      var x := EntryOf(arrivals[i].envelope);
      assert AcceptedAs(capacity, c, secret, arrivals, n, i, x);
      CacheHolds(capacity, c, secret, arrivals, n, now, x);
      assert x in live;
    }
  }

  /**
   Over any run under a non-decreasing clock no envelope is opened twice; and neither
   is another one with the identifier of an accepted one that has not expired, or
   that expires no earlier.
   */
  lemma {:induction false} EachEnvelopeOnce(capacity: nat, c: Primitives, secret: Bytes32, arrivals: seq<Arrival>,
                                            i: nat, n: nat)
    requires i < n < |arrivals| && InOrder(arrivals)
    requires ArrivalOutcome(capacity, c, secret, arrivals, i).Ok?
    requires arrivals[i].envelope.messageId == arrivals[n].envelope.messageId
    requires || arrivals[n].now <= arrivals[i].envelope.expiresAt
             || arrivals[n].envelope.expiresAt <= arrivals[i].envelope.expiresAt
    ensures ArrivalOutcome(capacity, c, secret, arrivals, n).Err?
    ensures Opens(c, secret, arrivals[n]) ==> ArrivalOutcome(capacity, c, secret, arrivals, n) == Err(ReplayDetected)
  {
    hide Checked, CacheAfter;
    if Opens(c, secret, arrivals[n]) {
      OpensOnlyUnexpired(c, secret, arrivals[n]);
      hide Opens, ArrivalOutcome;
      assert IdentifierIsLive(capacity, c, secret, arrivals, n);
      ReplaysAreLiveIdentifiers(capacity, c, secret, arrivals, n);
    }
  }

  /**
   Over any run under a non-decreasing clock no ciphertext is accepted twice, under
   whatever identifier and expiry it comes again, if it is not forged: an envelope
   with the ciphertext of an accepted one is that envelope, or does not authenticate.
   */
  lemma {:induction false} EachCiphertextOnce(capacity: nat, c: Primitives, secret: Bytes32, arrivals: seq<Arrival>,
                                              i: nat, n: nat)
    requires i < n < |arrivals| && InOrder(arrivals)
    requires ArrivalOutcome(capacity, c, secret, arrivals, i).Ok?
    requires arrivals[i].envelope.ciphertext == arrivals[n].envelope.ciphertext
    requires Envelope.AuthenticatesOnce(c, secret, arrivals[i].envelope, arrivals[n].envelope)
    ensures ArrivalOutcome(capacity, c, secret, arrivals, n).Err?
    ensures Opens(c, secret, arrivals[n]) ==>
              && arrivals[n].envelope == arrivals[i].envelope
              && ArrivalOutcome(capacity, c, secret, arrivals, n) == Err(ReplayDetected)
  {
    OutcomeNeedsOpening(capacity, c, secret, arrivals, i);
    OutcomeNeedsOpening(capacity, c, secret, arrivals, n);
    if Opens(c, secret, arrivals[n]) {
      OpensMeansOpen(c, secret, arrivals[i]);
      OpensMeansOpen(c, secret, arrivals[n]);
      hide Opens, ArrivalOutcome, Envelope.Open, Envelope.AuthenticatesOnce;
      Envelope.CiphertextDeterminesEnvelope(c, secret, arrivals[i].envelope, arrivals[n].envelope,
                                            arrivals[i].now, arrivals[n].now);
      EachEnvelopeOnce(capacity, c, secret, arrivals, i, n);
    }
  }

  lemma {:induction false} OutcomeNeedsOpening(capacity: nat, c: Primitives, secret: Bytes32, arrivals: seq<Arrival>,
                                               n: nat)
    requires n < |arrivals|
    ensures ArrivalOutcome(capacity, c, secret, arrivals, n).Ok? ==> Opens(c, secret, arrivals[n])
  {
    hide Envelope.OpenInner, Checked, CacheAfter;
  }

  lemma {:induction false} OpensMeansOpen(c: Primitives, secret: Bytes32, a: Arrival)
    requires Opens(c, secret, a)
    ensures Envelope.Open(c, a.envelope, secret, a.now).Ok?
  {
    hide Envelope.Open;
  }

  lemma {:induction false} OpensOnlyUnexpired(c: Primitives, secret: Bytes32, a: Arrival)
    requires Opens(c, secret, a)
    ensures a.now <= a.envelope.expiresAt
  {
  }
}
