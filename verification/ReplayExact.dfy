/** What each call on the replay cache does, for any entries, capacity and clock. */
module ReplayExact {
  import opened Common
  import opened ByteCoding
  import opened Primitives
  import opened Replay
  import Envelope

  /** `entries` without the expired ones, in the same order. */
  ghost predicate Purged(entries: seq<Entry>, now: u64, rest: seq<Entry>)
    decreases |entries|
  {
    if |entries| == 0 then rest == []
    else if entries[0].expiresAt < now then Purged(entries[1..], now, rest)
    else |rest| > 0 && rest[0] == entries[0] && Purged(entries[1..], now, rest[1..])
  }

  lemma {:induction false} LivePurges(entries: seq<Entry>, now: u64)
    ensures Purged(entries, now, Live(entries, now))
  {
    if |entries| > 0 {
      LivePurges(entries[1..], now);
      if entries[0].expiresAt >= now {
        assert Live(entries, now)[1..] == Live(entries[1..], now);
      } else {
        assert Live(entries, now) == Live(entries[1..], now);
      }
    }
  }

  /** `check_and_insert`: expired entries go, whatever the outcome; then the identifier, then the room. */
  lemma {:induction false} CheckOutcome(entries: seq<Entry>, capacity: nat, e: Entry, now: u64)
    returns (rest: seq<Entry>)
    ensures Purged(entries, now, rest)
    ensures Checked(entries, capacity, e, now) ==
            if exists k :: 0 <= k < |rest| && rest[k].id == e.id then (rest, Err(ReplayDetected))
            else if |rest| >= capacity then (rest, Err(InvalidState))
            else (rest + [e], Ok(()))
  {
    rest := Live(entries, now);
    LivePurges(entries, now);
    hide Live, Purged;
  }

  /** `open_inner_once`: the cache is consulted only after the envelope opened, with its identifier and expiry. */
  lemma {:induction false} OpenOnceOutcome(entries: seq<Entry>, capacity: nat, c: Primitives, e: Envelope.OuterEnvelope,
                                           secret: Bytes32, now: u64)
    ensures OpenedOnce(entries, capacity, c, e, secret, now) ==
            match Envelope.OpenInner(c, e, secret, now)
            case Err(x) => (entries, Err(x))
            case Ok(frame) =>
              (match Checked(entries, capacity, Entry(e.messageId, e.expiresAt), now)
               case (after, Ok(_)) => (after, Ok(frame))
               case (after, Err(x)) => (after, Err(x)))
  {
    hide Envelope.OpenInner, Checked;
  }
}
