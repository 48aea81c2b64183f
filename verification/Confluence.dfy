/** Out-of-order delivery under one ratchet key: the final state depends only on what was delivered. */
module Confluence {
  import opened Common
  import opened KeyTerms
  import opened Schedule
  import opened Ratchet
  import opened Session
  import opened SessionInvariant
  import opened SessionDelivery
  import opened SessionTheorems

  /** A frame of the current remote key, numbered from the receiving count on, sealed with its own key. */
  predicate Authentic(s: Ratchet, f: Frame) {
    var h := f.header;
    && h.sessionId == s.sessionId && h.ratchetPublic == s.remoteDh
    && s.receivingCount <= h.messageNumber < U32_MAX
    && f.ciphertext.Sealed? && f.ciphertext.suite == s.suite && f.ciphertext.aad == h
    && f.ciphertext.key == KeyAt(s.receivingChain, h.messageNumber - s.receivingCount)
  }

  ghost predicate AllAuthentic(s: Ratchet, frames: seq<Frame>, k: nat) {
    forall i :: 0 <= i < |frames| ==>
      Authentic(s, frames[i]) && frames[i].header.messageNumber <= s.receivingCount + k
  }

  ghost predicate DistinctNumbers(frames: seq<Frame>) {
    forall i, j :: 0 <= i < j < |frames| ==> frames[i].header.messageNumber != frames[j].header.messageNumber
  }

  /** Nothing at or beyond the receiving count is retained for the current remote key. */
  ghost predicate NoneAhead(s: Ratchet) {
    forall a :: 0 <= a < |s.skipped| && s.skipped[a].remoteDh == s.remoteDh ==>
      s.skipped[a].messageNumber < s.receivingCount
  }

  /** Delivers the frames one after the other. */
  function DeliverAll(s: Ratchet, frames: seq<Frame>): (r: (Ratchet, seq<Result<seq<byte>>>))
    ensures |r.1| == |frames|
  {
    if |frames| == 0 then (s, [])
    else
      var last := |frames| - 1;
      var (before, outcomes) := DeliverAll(s, frames[..last]);
      var (after, outcome) := Decrypted(before, frames[last], None);
      (after, outcomes + [outcome])
  }

  /** The keys retained for the numbers from the receiving count of `s` to `hi` that were not opened. */
  function Gaps(s: Ratchet, hi: u32, numbers: set<u32>): (g: seq<SkippedMessageKey>)
    requires s.receivingCount <= hi
    ensures |g| <= hi - s.receivingCount
    ensures forall a :: 0 <= a < |g| ==> g[a].messageNumber < hi
    decreases hi
  {
    if hi == s.receivingCount then []
    else
      Gaps(s, hi - 1, numbers) +
      if hi - 1 in numbers then []
      else [SkippedMessageKey(s.remoteDh, hi - 1, KeyAt(s.receivingChain, hi - 1 - s.receivingCount))]
  }

  /** `s` after opening exactly `numbers`, `n` of them, all below `hi`. */
  function After(s: Ratchet, hi: u32, numbers: set<u32>, n: nat): Ratchet
    requires s.receivingCount <= hi
  {
    s.(receivingChain := Advance(s.receivingChain, hi - s.receivingCount),
       receivingCount := hi,
       skipped := s.skipped + Gaps(s, hi, numbers),
       generation := SaturatingAdd(s.generation, n))
  }

  // ---- the retained gaps --------------------------------------------------------------------

  /** Numbers from `hi` on do not matter for the gaps below it. */
  lemma {:induction false} GapsLocal(s: Ratchet, hi: u32, numbers: set<u32>, x: u32)
    requires s.receivingCount <= hi <= x
    ensures Gaps(s, hi, numbers + {x}) == Gaps(s, hi, numbers)
    decreases hi
  {
    if s.receivingCount < hi {
      GapsLocal(s, hi - 1, numbers, x);
    }
  }

  /** Skipping from `hi` to `n` retains exactly the range derived in between. */
  lemma {:induction false} GapsGrow(s: Ratchet, hi: u32, n: u32, numbers: set<u32>)
    requires s.receivingCount <= hi <= n && forall x :: x in numbers ==> x < hi
    ensures Gaps(s, n, numbers) ==
            Gaps(s, hi, numbers)
            + WithRemote(s.remoteDh, KeysBetween(Advance(s.receivingChain, hi - s.receivingCount), hi, n))
    decreases n
  {
    var chain := Advance(s.receivingChain, hi - s.receivingCount);
    if hi < n {
      GapsGrow(s, hi, n - 1, numbers);
      AdvanceAdd(s.receivingChain, hi - s.receivingCount, n - 1 - hi);
      RangeGrows(s.remoteDh, chain, hi, n);
      hide WithRemote, KeysBetween, Advance;
    }
  }

  lemma {:induction false} RangeGrows(remote: PublicKey, chain: Secret, start: u32, end: u32)
    requires start < end
    ensures WithRemote(remote, KeysBetween(chain, start, end)) ==
            WithRemote(remote, KeysBetween(chain, start, end - 1))
            + [SkippedMessageKey(remote, end - 1, KeyAt(chain, end - 1 - start))]
  {
  }

  /** The gap of `n` sits right after the gaps below `n`; opening `n` removes just that entry. */
  lemma {:induction false} GapsRemove(s: Ratchet, hi: u32, n: u32, numbers: set<u32>)
    requires s.receivingCount <= n < hi && n !in numbers
    ensures var below, all := Gaps(s, n, numbers), Gaps(s, hi, numbers);
            && |below| < |all| && all[..|below|] == below
            && all[|below|] == SkippedMessageKey(s.remoteDh, n, KeyAt(s.receivingChain, n - s.receivingCount))
            && Gaps(s, hi, numbers + {n}) == RemoveAt(all, |below|)
    decreases hi
  {
    if n == hi - 1 {
      GapsLocal(s, n, numbers, n);
    } else {
      GapsRemove(s, hi - 1, n, numbers);
    }
  }

  // ---- one more frame -----------------------------------------------------------------------

  /** Opening one more frame leads from one described state to the next. */
  lemma {:induction false} OpenOne(s: Ratchet, hi: u32, numbers: set<u32>, count: nat, f: Frame)
    requires s.receivingCount <= hi && NoneAhead(s) && Authentic(s, f)
    requires (forall x :: x in numbers ==> x < hi) && f.header.messageNumber !in numbers
    requires |s.skipped| + (f.header.messageNumber - s.receivingCount) <= MAX_SKIPPED_KEYS
    ensures var n := f.header.messageNumber;
            Decrypted(After(s, hi, numbers, count), f, None) ==
            (After(s, if n < hi then hi else n + 1, numbers + {n}, count + 1), Ok(f.ciphertext.plaintext))
  {
    if f.header.messageNumber < hi {
      OpenGap(s, hi, numbers, count, f);
    } else {
      OpenBeyond(s, hi, numbers, count, f);
    }
  }

  lemma {:induction false} OpenGap(s: Ratchet, hi: u32, numbers: set<u32>, count: nat, f: Frame)
    requires s.receivingCount <= f.header.messageNumber < hi && NoneAhead(s) && Authentic(s, f)
    requires f.header.messageNumber !in numbers
    ensures Decrypted(After(s, hi, numbers, count), f, None) ==
            (After(s, hi, numbers + {f.header.messageNumber}, count + 1), Ok(f.ciphertext.plaintext))
  {
    var n, t := f.header.messageNumber, After(s, hi, numbers, count);
    GapsRemove(s, hi, n, numbers);
    var at := |s.skipped| + |Gaps(s, n, numbers)|;
    PositionIs(t.skipped, s.remoteDh, n, at);
    assert RemoveAt(t.skipped, at) == s.skipped + Gaps(s, hi, numbers + {n});
    hide Advance, Gaps, RemoveAt;
  }

  lemma {:induction false} PositionIs(skipped: seq<SkippedMessageKey>, remote: PublicKey, n: u32, at: nat)
    requires at < |skipped| && skipped[at].remoteDh == remote && skipped[at].messageNumber == n
    requires forall a :: 0 <= a < at && skipped[a].remoteDh == remote ==> skipped[a].messageNumber != n
    ensures Position(skipped, remote, n) == at
  {
  }

  lemma {:induction false} OpenBeyond(s: Ratchet, hi: u32, numbers: set<u32>, count: nat, f: Frame)
    requires s.receivingCount <= hi <= f.header.messageNumber && Authentic(s, f)
    requires forall x :: x in numbers ==> x < hi
    requires |s.skipped| + (f.header.messageNumber - s.receivingCount) <= MAX_SKIPPED_KEYS
    ensures var n := f.header.messageNumber;
            Decrypted(After(s, hi, numbers, count), f, None) ==
            (After(s, n + 1, numbers + {n}, count + 1), Ok(f.ciphertext.plaintext))
  {
    var n, t := f.header.messageNumber, After(s, hi, numbers, count);
    BeyondFacts(s, hi, n, numbers);
    hide Advance, Gaps, WithRemote, KeysBetween;
    var keys := WithRemote(s.remoteDh, KeysBetween(t.receivingChain, hi, n));
    assert t.skipped + keys == s.skipped + Gaps(s, n + 1, numbers + {n});
  }

  lemma {:induction false} BeyondFacts(s: Ratchet, hi: u32, n: u32, numbers: set<u32>)
    requires s.receivingCount <= hi <= n < U32_MAX && forall x :: x in numbers ==> x < hi
    ensures var chain := Advance(s.receivingChain, hi - s.receivingCount);
            && Gaps(s, n + 1, numbers + {n}) ==
               Gaps(s, hi, numbers) + WithRemote(s.remoteDh, KeysBetween(chain, hi, n))
            && |Gaps(s, hi, numbers)| <= hi - s.receivingCount
            && Advance(s.receivingChain, n + 1 - s.receivingCount) == ChainStep(Advance(chain, n - hi)).0
            && KeyAt(chain, n - hi) == KeyAt(s.receivingChain, n - s.receivingCount)
  {
    GapsGrow(s, hi, n, numbers);
    GapsLocal(s, n, numbers, n);
    AdvanceAdd(s.receivingChain, hi - s.receivingCount, n - hi);
  }

  // ---- any order ----------------------------------------------------------------------------

  function Numbers(frames: seq<Frame>): set<u32> {
    set i | 0 <= i < |frames| :: frames[i].header.messageNumber
  }

  /** One past the largest delivered number, or the receiving count. */
  function Reach(s: Ratchet, frames: seq<Frame>): (hi: u32)
    requires forall i :: 0 <= i < |frames| ==> Authentic(s, frames[i])
    ensures s.receivingCount <= hi
    ensures forall i :: 0 <= i < |frames| ==> frames[i].header.messageNumber < hi
    ensures hi == s.receivingCount || hi - 1 in Numbers(frames)
  {
    if |frames| == 0 then s.receivingCount
    else
      var last := |frames| - 1;
      var before := Reach(s, frames[..last]);
      var n := frames[last].header.messageNumber;
      assert Authentic(s, frames[last]);
      assert before == s.receivingCount || before - 1 in Numbers(frames) by {
        if before != s.receivingCount {
          var i :| 0 <= i < last && frames[..last][i].header.messageNumber == before - 1;
          assert frames[i].header.messageNumber == before - 1;
        }
      }
      if n < before then before else n + 1
  }

  lemma {:induction false} DeliveredState(s: Ratchet, frames: seq<Frame>, k: nat)
    requires NoneAhead(s) && AllAuthentic(s, frames, k) && DistinctNumbers(frames)
    requires |s.skipped| + k <= MAX_SKIPPED_KEYS
    ensures DeliverAll(s, frames).0 == After(s, Reach(s, frames), Numbers(frames), |frames|)
    ensures DeliverAll(s, frames).1 == Plaintexts(frames)
    decreases |frames|
  {
    if |frames| == 0 {
      assert s.skipped + Gaps(s, s.receivingCount, {}) == s.skipped;
    } else {
      var last := |frames| - 1;
      assert frames[..last] + [frames[last]] == frames;
      DeliveredState(s, frames[..last], k);
      DeliveredStep(s, frames[..last], frames[last], k);
    }
  }

  lemma {:induction false} DeliveredStep(s: Ratchet, init: seq<Frame>, f: Frame, k: nat)
    requires NoneAhead(s) && AllAuthentic(s, init + [f], k) && DistinctNumbers(init + [f])
    requires |s.skipped| + k <= MAX_SKIPPED_KEYS && AllAuthentic(s, init, k)
    requires DeliverAll(s, init).0 == After(s, Reach(s, init), Numbers(init), |init|)
    requires DeliverAll(s, init).1 == Plaintexts(init)
    ensures DeliverAll(s, init + [f]).0 == After(s, Reach(s, init + [f]), Numbers(init + [f]), |init| + 1)
    ensures DeliverAll(s, init + [f]).1 == Plaintexts(init + [f])
  {
    assert (init + [f])[|init|] == f;
    assert Authentic(s, f) && f.header.messageNumber <= s.receivingCount + k;
    hide After, Decrypted, DeliverAll, Authentic, Numbers, Reach, Plaintexts, AllAuthentic, DistinctNumbers;
    DeliverAppend(s, init, f);
    NumbersAppend(init, f);
    ReachAppend(s, init, f);
    PlaintextsAppend(init, f);
    OpenOne(s, Reach(s, init), Numbers(init), |init|, f);
  }

  lemma {:induction false} DeliverAppend(s: Ratchet, frames: seq<Frame>, f: Frame)
    ensures var (before, outcomes) := DeliverAll(s, frames);
            var (after, outcome) := Decrypted(before, f, None);
            DeliverAll(s, frames + [f]) == (after, outcomes + [outcome])
  {
    assert (frames + [f])[..|frames|] == frames;
  }

  lemma {:induction false} ReachAppend(s: Ratchet, frames: seq<Frame>, f: Frame)
    requires (forall i :: 0 <= i < |frames| ==> Authentic(s, frames[i])) && Authentic(s, f)
    ensures forall i :: 0 <= i < |frames + [f]| ==> Authentic(s, (frames + [f])[i])
    ensures var n := f.header.messageNumber;
            Reach(s, frames + [f]) == if n < Reach(s, frames) then Reach(s, frames) else n + 1
    ensures forall x :: x in Numbers(frames) ==> x < Reach(s, frames)
  {
    assert (frames + [f])[..|frames|] == frames;
  }

  lemma {:induction false} PlaintextsAppend(frames: seq<Frame>, f: Frame)
    requires (forall i :: 0 <= i < |frames| ==> frames[i].ciphertext.Sealed?) && f.ciphertext.Sealed?
    ensures Plaintexts(frames + [f]) == Plaintexts(frames) + [Ok(f.ciphertext.plaintext)]
  {
  }

  function Plaintexts(frames: seq<Frame>): seq<Result<seq<byte>>>
    requires forall i :: 0 <= i < |frames| ==> frames[i].ciphertext.Sealed?
  {
    seq(|frames|, i requires 0 <= i < |frames| => Ok(frames[i].ciphertext.plaintext))
  }

  lemma {:induction false} NumbersAppend(frames: seq<Frame>, f: Frame)
    requires DistinctNumbers(frames + [f])
    ensures Numbers(frames + [f]) == Numbers(frames) + {f.header.messageNumber}
    ensures f.header.messageNumber !in Numbers(frames)
  {
    var all := frames + [f];
    assert all[|frames|] == f;
    forall x | x in Numbers(frames)
      ensures x in Numbers(all) && x != f.header.messageNumber
    {
      var i :| 0 <= i < |frames| && frames[i].header.messageNumber == x;
      assert all[i] == frames[i];
    }
  }

  lemma {:induction false} PermutationFacts(one: seq<Frame>, two: seq<Frame>)
    requires multiset(one) == multiset(two)
    ensures |one| == |two| && Numbers(one) == Numbers(two)
    ensures forall f :: f in one <==> f in two
  {
    assert |multiset(one)| == |one| && |multiset(two)| == |two|;
    forall f
      ensures f in one <==> f in two
    {
      assert f in one <==> f in multiset(one);
      assert f in two <==> f in multiset(two);
    }
    NumbersOf(one);
    NumbersOf(two);
    forall x
      ensures x in Numbers(one) <==> x in Numbers(two)
    {
    }
  }

  lemma {:induction false} NumbersOf(frames: seq<Frame>)
    ensures forall x: u32 :: x in Numbers(frames) <==> exists f :: f in frames && f.header.messageNumber == x
  {
    forall x: u32 | x in Numbers(frames)
      ensures exists f :: f in frames && f.header.messageNumber == x
    {
      var i :| 0 <= i < |frames| && frames[i].header.messageNumber == x;
      assert frames[i] in frames;
    }
  }

  lemma {:induction false} DistinctPermutation(one: seq<Frame>, two: seq<Frame>)
    requires multiset(one) == multiset(two) && DistinctNumbers(one)
    ensures DistinctNumbers(two)
  {
    forall i, j | 0 <= i < j < |two|
      ensures two[i].header.messageNumber != two[j].header.messageNumber
    {
      PermutationFacts(one, two);
      assert two[i] in one && two[j] in one;
      if two[i] == two[j] {
        assert two == two[..i] + [two[i]] + two[i + 1..j] + [two[j]] + two[j + 1..];
        assert multiset(two)[two[i]] >= 2;
        OnceInDistinct(one, two[i]);
      }
    }
  }

  lemma {:induction false} OnceInDistinct(frames: seq<Frame>, f: Frame)
    requires DistinctNumbers(frames)
    ensures multiset(frames)[f] <= 1
  {
    if |frames| > 0 {
      var last := |frames| - 1;
      OnceInDistinct(frames[..last], f);
      assert frames == frames[..last] + [frames[last]];
      if frames[last] == f {
        assert f !in frames[..last];
        assert f !in multiset(frames[..last]);
      }
    }
  }

  /**
   Any two orders of the same authentic frames with numbers up to `k` past the
   count end in the same state, and every frame yields its own plaintext in both.
   */
  lemma {:induction false} AnyOrder(s: Ratchet, one: seq<Frame>, two: seq<Frame>, k: nat)
    requires NoneAhead(s) && AllAuthentic(s, one, k) && DistinctNumbers(one)
    requires multiset(one) == multiset(two) && |s.skipped| + k <= MAX_SKIPPED_KEYS
    ensures DeliverAll(s, one).0 == DeliverAll(s, two).0
    ensures AllAuthentic(s, two, k)
    ensures DeliverAll(s, one).1 == Plaintexts(one) && DeliverAll(s, two).1 == Plaintexts(two)
  {
    PermutationFacts(one, two);
    DistinctPermutation(one, two);
    forall i | 0 <= i < |two|
      ensures Authentic(s, two[i]) && two[i].header.messageNumber <= s.receivingCount + k
    {
      assert two[i] in one;
    }
    DeliveredState(s, one, k);
    DeliveredState(s, two, k);
    SameReach(s, one, two);
  }

  lemma {:induction false} SameReach(s: Ratchet, one: seq<Frame>, two: seq<Frame>)
    requires forall i :: 0 <= i < |one| ==> Authentic(s, one[i])
    requires forall i :: 0 <= i < |two| ==> Authentic(s, two[i])
    requires Numbers(one) == Numbers(two)
    ensures Reach(s, one) == Reach(s, two)
  {
    ReachBounds(s, one);
    ReachBounds(s, two);
    hide Reach, Numbers;
  }

  lemma {:induction false} ReachBounds(s: Ratchet, frames: seq<Frame>)
    requires forall i :: 0 <= i < |frames| ==> Authentic(s, frames[i])
    ensures forall x :: x in Numbers(frames) ==> s.receivingCount <= x < Reach(s, frames)
    ensures Reach(s, frames) == s.receivingCount || Reach(s, frames) - 1 in Numbers(frames)
  {
  }

  /** The frames are the next `|frames|` of the current ratchet key, in order. */
  ghost predicate NextInOrder(s: Ratchet, frames: seq<Frame>) {
    forall i :: 0 <= i < |frames| ==>
      Authentic(s, frames[i]) && frames[i].header.messageNumber == s.receivingCount + i
  }

  lemma {:induction false} NoGaps(s: Ratchet, frames: seq<Frame>, m: nat)
    requires NextInOrder(s, frames) && m <= |frames|
    requires s.receivingCount + m <= U32_MAX
    ensures Gaps(s, s.receivingCount + m, Numbers(frames)) == []
    decreases m
  {
    if m > 0 {
      NoGaps(s, frames, m - 1);
      assert frames[m - 1].header.messageNumber in Numbers(frames);
    }
  }

  /**
   Delivering the next k + 1 frames in any order whatever ends in the one state that
   in-order delivery gives: chain and count past them, the retained list as it was,
   the generation raised once for each.
   */
  lemma {:induction false} AnyOrderEqualsInOrder(s: Ratchet, frames: seq<Frame>, order: seq<Frame>)
    requires NoneAhead(s) && NextInOrder(s, frames) && |frames| > 0
    requires multiset(order) == multiset(frames) && |s.skipped| + |frames| - 1 <= MAX_SKIPPED_KEYS
    ensures s.receivingCount + |frames| <= U32_MAX
    ensures DeliverAll(s, order).0 ==
            s.(receivingChain := Advance(s.receivingChain, |frames|),
               receivingCount := s.receivingCount + |frames|,
               generation := SaturatingAdd(s.generation, |frames|))
    ensures forall i :: 0 <= i < |order| ==> order[i].ciphertext.Sealed?
    ensures DeliverAll(s, order).1 == Plaintexts(order)
  {
    InOrderFacts(s, frames);
    CompleteState(s, frames);
    hide DeliverAll, NextInOrder, AllAuthentic, DistinctNumbers, Plaintexts, NoneAhead, Advance, After;
    AnyOrder(s, frames, order, |frames| - 1);
    DeliveredState(s, frames, |frames| - 1);
    SealedAll(s, order, |frames| - 1);
  }

  /** With the next frames all opened no gap is left. */
  lemma {:induction false} CompleteState(s: Ratchet, frames: seq<Frame>)
    requires NextInOrder(s, frames) && |frames| > 0
    ensures s.receivingCount + |frames| <= U32_MAX
    ensures After(s, Reach(s, frames), Numbers(frames), |frames|) ==
            s.(receivingChain := Advance(s.receivingChain, |frames|),
               receivingCount := s.receivingCount + |frames|,
               generation := SaturatingAdd(s.generation, |frames|))
  {
    hide Gaps, Advance, Numbers, NextInOrder, After, AllAuthentic, DistinctNumbers, Authentic, Reach;
    InOrderFacts(s, frames);
    InOrderReach(s, frames);
    NoGaps(s, frames, |frames|);
    AfterComplete(s, |frames|, Numbers(frames));
  }

  lemma {:induction false} AfterComplete(s: Ratchet, m: nat, numbers: set<u32>)
    requires s.receivingCount + m <= U32_MAX && Gaps(s, s.receivingCount + m, numbers) == []
    ensures After(s, s.receivingCount + m, numbers, m) ==
            s.(receivingChain := Advance(s.receivingChain, m),
               receivingCount := s.receivingCount + m,
               generation := SaturatingAdd(s.generation, m))
  {
    assert s.skipped + [] == s.skipped;
  }

  lemma {:induction false} InOrderFacts(s: Ratchet, frames: seq<Frame>)
    requires NextInOrder(s, frames) && |frames| > 0
    ensures AllAuthentic(s, frames, |frames| - 1) && DistinctNumbers(frames)
    ensures s.receivingCount + |frames| <= U32_MAX
  {
    assert Authentic(s, frames[|frames| - 1]);
  }

  lemma {:induction false} SealedAll(s: Ratchet, frames: seq<Frame>, k: nat)
    requires AllAuthentic(s, frames, k)
    ensures forall i :: 0 <= i < |frames| ==> frames[i].ciphertext.Sealed?
  {
  }

  lemma {:induction false} InOrderReach(s: Ratchet, frames: seq<Frame>)
    requires NextInOrder(s, frames) && |frames| > 0
    ensures Reach(s, frames) == s.receivingCount + |frames|
  {
    ReachBounds(s, frames);
    assert frames[|frames| - 1].header.messageNumber in Numbers(frames);
    hide Reach;
  }

  /**
   The budget is exact: all orders of the next frames succeed if and only if the
   retained keys and the largest gap together stay within the limit.
   */
  lemma {:induction false} BudgetIsExact(s: Ratchet, frames: seq<Frame>)
    requires NoneAhead(s) && NextInOrder(s, frames) && |frames| > 0
    ensures (forall order :: multiset(order) == multiset(frames) ==>
               forall i :: 0 <= i < |order| ==> DeliverAll(s, order).1[i].Ok?)
            <==> |s.skipped| + |frames| - 1 <= MAX_SKIPPED_KEYS
  {
    if |s.skipped| + |frames| - 1 <= MAX_SKIPPED_KEYS {
      hide DeliverAll, NextInOrder, NoneAhead;
      forall order | multiset(order) == multiset(frames)
        ensures forall i :: 0 <= i < |order| ==> DeliverAll(s, order).1[i].Ok?
      {
        AnyOrderEqualsInOrder(s, frames, order);
      }
    } else {
      var order := LargestFirst(s, frames);
      hide DeliverAll, NextInOrder, NoneAhead;
      assert !DeliverAll(s, order).1[0].Ok?;
    }
  }

  /** Beyond the budget, the order that starts with the largest number fails at once. */
  lemma {:induction false} LargestFirst(s: Ratchet, frames: seq<Frame>) returns (order: seq<Frame>)
    requires NextInOrder(s, frames) && |frames| > 0
    requires |s.skipped| + |frames| - 1 > MAX_SKIPPED_KEYS
    ensures |order| == |frames| && multiset(order) == multiset(frames)
    ensures DeliverAll(s, order).1[0] == Err(SkippedKeyLimitExceeded)
  {
    var k := |frames| - 1;
    order := [frames[k]] + frames[..k];
    assert frames == frames[..k] + [frames[k]];
    assert Authentic(s, frames[k]);
    hide DeliverAll, Authentic, NextInOrder;
    FirstFails(s, order);
  }

  lemma {:induction false} OutcomesPrefix(s: Ratchet, frames: seq<Frame>)
    requires |frames| > 0
    ensures DeliverAll(s, frames).1[0] == Decrypted(s, frames[0], None).1
    decreases |frames|
  {
    var last := |frames| - 1;
    if last == 0 {
      assert DeliverAll(s, frames[..last]) == (s, []);
    } else {
      OutcomesPrefix(s, frames[..last]);
    }
  }

  lemma {:induction false} FirstFails(s: Ratchet, order: seq<Frame>)
    requires |order| > 0 && Authentic(s, order[0])
    requires |s.skipped| + (order[0].header.messageNumber - s.receivingCount) > MAX_SKIPPED_KEYS
    ensures DeliverAll(s, order).1[0] == Err(SkippedKeyLimitExceeded)
  {
    OutcomesPrefix(s, order);
  }

  // ---- in a run -----------------------------------------------------------------------------

  /** In a run, sent frames of the current remote key that the count has not passed are authentic. */
  lemma {:induction false} SentIsAuthentic(w: World, p: Party, k: nat)
    requires Reachable(w) && k < |w.sent|
    requires w.sent[k].frame.header.ratchetPublic == w.At(p).remoteDh
    requires w.At(p).receivingCount <= w.sent[k].frame.header.messageNumber
    ensures Authentic(w.At(p), w.sent[k].frame) && NoneAhead(w.At(p))
  {
    var es := ReachableInv(w);
    assert Honest(w.At(w.sent[k].sender), es, w.sent[k]);
    HonestBody(w, es, w.sent[k]);
    HonestUnderRemote(w, es, p, w.sent[k]);
    SentOnChain(w, es, p, w.sent[k]);
    assert PartyInv(w.At(p), w.At(Other(p)), es, p, OpenedBy(w.received, p));
    hide Reachable, Inv, Honest, SkippedInv, Accounted, Endpoint;
  }

  /** `AnyOrder` for the frames of a run: the sender's frames with indices in `which`, in two orders. */
  lemma {:induction false} RunConfluence(w: World, p: Party, one: seq<Frame>, two: seq<Frame>, k: nat)
    requires Reachable(w) && multiset(one) == multiset(two) && DistinctNumbers(one)
    requires forall i :: 0 <= i < |one| ==> SentTo(w, p, one[i], k)
    requires |w.At(p).skipped| + k <= MAX_SKIPPED_KEYS
    ensures DeliverAll(w.At(p), one).0 == DeliverAll(w.At(p), two).0
    ensures forall i :: 0 <= i < |one| ==> DeliverAll(w.At(p), one).1[i].Ok?
    ensures forall i :: 0 <= i < |two| ==> DeliverAll(w.At(p), two).1[i].Ok?
  {
    if |one| == 0 {
      PermutationFacts(one, two);
    } else {
      forall i | 0 <= i < |one|
        ensures Authentic(w.At(p), one[i]) && NoneAhead(w.At(p))
      {
        var x :| 0 <= x < |w.sent| && w.sent[x].frame == one[i];
        SentIsAuthentic(w, p, x);
      }
      assert NoneAhead(w.At(p)) by {
        assert Authentic(w.At(p), one[0]);
      }
      AnyOrder(w.At(p), one, two, k);
    }
  }

  /** `f` was sent under the current remote key of `p`, with a number from its count up to `k` further. */
  ghost predicate SentTo(w: World, p: Party, f: Frame, k: nat) {
    && (exists x :: 0 <= x < |w.sent| && w.sent[x].frame == f)
    && f.header.ratchetPublic == w.At(p).remoteDh
    && w.At(p).receivingCount <= f.header.messageNumber <= w.At(p).receivingCount + k
  }
}
