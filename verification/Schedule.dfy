/** The symmetric-chain and root key schedule, with bounded skipped-key derivation. */
module Schedule {
  import opened Common
  import opened KeyTerms

  datatype NumberedKey = NumberedKey(number: u32, key: AeadKey)

  /** One chain step: the next chain secret and the message key of this one. */
  function ChainStep(chain: Secret): (Secret, AeadKey) {
    (NextChain(chain), MessageKey(chain))
  }

  /** One root step: the next root and the chain it starts. */
  function RootStep(root: Secret, dh: Shared): (Secret, Secret) {
    (NextRoot(root, dh), RootChain(NextRoot(root, dh), dh))
  }

  /** `chain` after `n` chain steps. */
  function Advance(chain: Secret, n: nat): Secret {
    if n == 0 then chain else ChainStep(Advance(chain, n - 1)).0
  }

  /** The message key at distance `n` from `chain`. */
  function KeyAt(chain: Secret, n: nat): AeadKey {
    ChainStep(Advance(chain, n)).1
  }

  /** The numbered message keys of `start .. end`, where `chain` stands at number `start`. */
  function KeysBetween(chain: Secret, start: u32, end: u32): (keys: seq<NumberedKey>)
    requires start <= end
    ensures |keys| == end - start
    ensures forall k :: 0 <= k < |keys| ==> keys[k] == NumberedKey(start + k, KeyAt(chain, k))
  {
    seq(end - start, k requires 0 <= k < end - start => NumberedKey(start + k, KeyAt(chain, k)))
  }

  /** What `DeriveRange` computes: the advanced chain with the keys in between, or why it refuses. */
  function RangeOf(chain: Secret, start: u32, end: u32, existing: nat): (r: Result<(Secret, seq<NumberedKey>)>)
    ensures r.Ok? <==> start <= end && existing + (end - start) <= MAX_SKIPPED_KEYS
  {
    if end < start then Err(RatchetStateMismatch)
    else if existing + (end - start) > MAX_SKIPPED_KEYS then Err(SkippedKeyLimitExceeded)
    else Ok((Advance(chain, end - start), KeysBetween(chain, start, end)))
  }

  method DeriveRange(chain: Secret, start: u32, endExclusive: u32, existingSkipped: nat)
    returns (r: Result<(Secret, seq<NumberedKey>)>)
    ensures r == RangeOf(chain, start, endExclusive, existingSkipped)
  {
    if endExclusive < start {
      return Err(RatchetStateMismatch);
    }
    var additional := endExclusive - start;
    if existingSkipped + additional > MAX_SKIPPED_KEYS {
      return Err(SkippedKeyLimitExceeded);
    }
    var current := chain;
    var skipped: seq<NumberedKey> := [];
    for number := start to endExclusive
      invariant current == Advance(chain, number - start)
      invariant skipped == KeysBetween(chain, start, number)
    {
      var (next, key) := ChainStep(current);
      current := next;
      skipped := skipped + [NumberedKey(number, key)];
    }
    return Ok((current, skipped));
  }

  /** The chain after the target, the target's key, and the keys skipped on the way. */
  datatype DerivedMessage = DerivedMessage(next: Secret, key: AeadKey, skipped: seq<NumberedKey>)

  function MessageOf(chain: Secret, count: u32, target: u32, existing: nat): Result<DerivedMessage> {
    match RangeOf(chain, count, target, existing)
    case Err(e) => Err(e)
    case Ok((beforeTarget, skipped)) =>
      var (next, key) := ChainStep(beforeTarget);
      Ok(DerivedMessage(next, key, skipped))
  }

  method DeriveForMessage(chain: Secret, currentCount: u32, target: u32, existingSkipped: nat)
    returns (r: Result<DerivedMessage>)
    ensures r == MessageOf(chain, currentCount, target, existingSkipped)
  {
    var range := DeriveRange(chain, currentCount, target, existingSkipped);
    match range {
      case Err(e) => return Err(e);
      case Ok((beforeTarget, skipped)) =>
        var (next, key) := ChainStep(beforeTarget);
        return Ok(DerivedMessage(next, key, skipped));
    }
  }

  /** Advancing twice is advancing by the sum. */
  lemma {:induction false} AdvanceAdd(chain: Secret, a: nat, b: nat)
    ensures Advance(Advance(chain, a), b) == Advance(chain, a + b)
    decreases b
  {
    if b > 0 {
      AdvanceAdd(chain, a, b - 1);
    }
  }

  lemma {:induction false} AdvanceLevel(chain: Secret, n: nat)
    ensures Level(Advance(chain, n)) == Level(chain)
  {
    if n > 0 {
      AdvanceLevel(chain, n - 1);
    }
  }

  /** A message key belongs to one chain and one number: no two first secrets share a key. */
  lemma {:induction false} KeyDeterminesPosition(base1: Secret, n1: nat, base2: Secret, n2: nat)
    requires !base1.NextChain? && !base2.NextChain?
    requires KeyAt(base1, n1) == KeyAt(base2, n2)
    ensures base1 == base2 && n1 == n2
    decreases n1
  {
    if n1 > 0 && n2 > 0 {
      KeyDeterminesPosition(base1, n1 - 1, base2, n2 - 1);
    }
  }

  /**
   Deriving `a .. b` and then `b .. c` on the advanced chain, with the first keys
   counted against the budget, is deriving `a .. c`: it refuses exactly when the
   long range does, and otherwise yields the same chain and the same keys.
   */
  lemma {:induction false} RangesCompose(chain: Secret, a: u32, b: u32, c: u32, existing: nat)
    requires a <= b <= c
    ensures var whole := RangeOf(chain, a, c, existing);
            var first := RangeOf(chain, a, b, existing);
            && (whole.Ok? <==>
                  first.Ok? && RangeOf(first.value.0, b, c, existing + |first.value.1|).Ok?)
            && (whole.Ok? ==>
                  var second := RangeOf(first.value.0, b, c, existing + |first.value.1|);
                  && whole.value.0 == second.value.0
                  && whole.value.1 == first.value.1 + second.value.1)
  {
    var whole := RangeOf(chain, a, c, existing);
    if whole.Ok? {
      AdvanceAdd(chain, b - a, c - b);
      var mid := Advance(chain, b - a);
      forall k | 0 <= k < c - b
        ensures KeyAt(mid, k) == KeyAt(chain, b - a + k)
      {
        AdvanceAdd(chain, b - a, k);
      }
      assert KeysBetween(chain, a, c) == KeysBetween(chain, a, b) + KeysBetween(mid, b, c);
    }
  }
}
