/** Runs that go to the limits: a receiving counter at its end, and a list full of stale keys. */
module SessionLimits {
  import opened Common
  import opened KeyTerms
  import opened Schedule
  import opened Ratchet
  import opened Session
  import opened SessionInvariant
  import opened SessionDelivery
  import opened SessionCompleteness
  import opened SessionTheorems
  import opened SessionFailures
  import opened SessionAccounting

  // ---- a long conversation --------------------------------------------------------------------

  /** What opening the frame numbered `target` of the current remote key changes. */
  lemma {:induction false} OpensAhead(q: Ratchet, f: Frame)
    requires f.header.ratchetPublic == q.remoteDh && q.receivingCount <= f.header.messageNumber
    requires Decrypted(q, f, None).1.Ok?
    ensures var q' := Decrypted(q, f, None).0;
            && q'.receivingCount == f.header.messageNumber + 1
            && |q'.skipped| == |q.skipped| + (f.header.messageNumber - q.receivingCount)
            && (forall a :: |q.skipped| <= a < |q'.skipped| ==> q'.skipped[a].remoteDh == q.remoteDh)
            && (forall a :: 0 <= a < |q.skipped| ==> q'.skipped[a] == q.skipped[a])
            && q'.remoteDh == q.remoteDh && q'.dhPair == q.dhPair && q'.rootKey == q.rootKey
            && q'.sendingCount == q.sendingCount
            && q'.previousSendingChainLen == q.previousSendingChainLen
  {
  }

  /** `p` sends one frame: what it looks like, and what does not change. */
  lemma {:induction false} SendsOne(w: World, p: Party)
    requires Reachable(w) && w.At(p).sendingCount < U32_MAX
    ensures var w', r := Step(w, Encrypt(p, Message, [], true)), w.At(p);
            && Reachable(w') && |w'.sent| == |w.sent| + 1 && w'.used == w.used
            && w'.At(Other(p)) == w.At(Other(p))
            && w'.At(p).sendingCount == r.sendingCount + 1 && w'.At(p).skipped == r.skipped
            && w'.At(p).dhPair == r.dhPair && w'.At(p).rootKey == r.rootKey && w'.At(p).remoteDh == r.remoteDh
            && w'.At(p).previousSendingChainLen == r.previousSendingChainLen
            && w'.At(p).receivingCount == r.receivingCount
            && w'.sent[|w.sent|].sender == p
            && w'.sent[|w.sent|].frame.header
               == FrameHeader(Message, r.sessionId, Generated(r.dhPair), r.previousSendingChainLen, r.sendingCount)
  {
    ReachableStep(w, Encrypt(p, Message, [], true));
    hide Reachable;
  }

  /** A delivery of a sent frame that can be opened leads on. */
  lemma {:induction false} DeliversOne(w: World, p: Party, k: nat, generated: Option<nat>)
    requires Reachable(w) && k < |w.sent| && Openable(w, p, w.sent[k], generated) && FreshIn(w, generated)
    ensures var w' := Step(w, Deliver(p, w.sent[k].frame, generated));
            && Reachable(w') && w'.sent == w.sent && w'.At(Other(p)) == w.At(Other(p))
            && Decrypted(w.At(p), w.sent[k].frame, generated).1.Ok?
            && w'.At(p) == Decrypted(w.At(p), w.sent[k].frame, generated).0
            && w'.used == w.used + if generated.Some? then {generated.value} else {}
  {
    DeliveryAccepts(w, p, k, generated);
    assert Available(w, w.sent[k].frame);
    ReachableStep(w, Deliver(p, w.sent[k].frame, generated));
    hide Reachable, Decrypted, Openable;
  }

  /** `p` sends `n` frames, and its peer, who is up to date, opens each at once. */
  lemma {:induction false} TalksOn(w: World, p: Party, n: nat) returns (w': World)
    requires Reachable(w) && w.At(Other(p)).remoteDh == Generated(w.At(p).dhPair)
    requires w.At(Other(p)).receivingCount == w.At(p).sendingCount && w.At(p).sendingCount + n <= U32_MAX
    ensures Reachable(w')
    ensures w'.At(Other(p)).receivingCount == w'.At(p).sendingCount == w.At(p).sendingCount + n
    ensures w'.At(Other(p)).remoteDh == Generated(w'.At(p).dhPair)
    ensures |w'.At(Other(p)).skipped| == |w.At(Other(p)).skipped|
    decreases n
  {
    w' := w;
    if n > 0 {
      var mid := TalksOn(w, p, n - 1);
      hide Reachable, Decrypted, Step;
      SendsOne(mid, p);
      var w1 := Step(mid, Encrypt(p, Message, [], true));
      SkippedBounded(w1, Other(p));
      var k := |mid.sent|;
      DeliversOne(w1, Other(p), k, None);
      OpensAhead(w1.At(Other(p)), w1.sent[k].frame);
      w' := Step(w1, Deliver(Other(p), w1.sent[k].frame, None));
    }
  }

  /**
   Some run takes a receiver to the last number, where an authentic frame with that
   number would open and fail; that no such frame is ever sent is `ExactlyOnce`.
   */
  lemma {:induction false} LastNumberIsReachable() returns (w: World)
    ensures Reachable(w) && w.bob.receivingCount == U32_MAX
    ensures exists f :: LastNumberOpens(w.bob, f)
  {
    hide Reachable;
    var start := SomeStart();
    StartFacts(start);
    w := TalksOn(start, Alice, U32_MAX);
    SkippedBounded(w, Bob);
    LastNumberIsPossible(w.bob);
  }

  lemma {:induction false} StartFacts(w: World)
    requires IsStart(w)
    ensures w.alice.remoteDh == Generated(w.bob.dhPair) && w.bob.remoteDh == Generated(w.alice.dhPair)
    ensures w.alice.dhPair != w.bob.dhPair && w.alice.dhPair in w.used && w.bob.dhPair in w.used
    ensures w.alice.sendingCount == 0 && w.bob.sendingCount == 0 && w.alice.skipped == [] && w.bob.skipped == []
    ensures w.alice.receivingCount == 0 && w.bob.receivingCount == 0
    ensures w.alice.previousSendingChainLen == 0 && w.bob.previousSendingChainLen == 0
    ensures RootsEqual(w)
  {
  }

  // ---- a list full of stale keys ----------------------------------------------------------------

  /** Every entry is retained for another key than the current one, and there is no room left. */
  predicate FullOfStale(r: Ratchet) {
    |r.skipped| == MAX_SKIPPED_KEYS && forall a :: 0 <= a < |r.skipped| ==> r.skipped[a].remoteDh != r.remoteDh
  }

  /** `p` sends 1025 frames and only the last one arrives. */
  lemma {:induction false} Skips(w: World) returns (w': World)
    requires IsStart(w) && Reachable(w)
    ensures Reachable(w') && RootsEqual(w') && w'.used == w.used
    ensures w'.alice.dhPair == w.alice.dhPair && w'.bob.dhPair == w.bob.dhPair
    ensures w'.alice.remoteDh == w.alice.remoteDh && w'.bob.remoteDh == w.bob.remoteDh
    ensures w'.alice.sendingCount == w'.bob.receivingCount == 1025 && |w'.bob.skipped| == MAX_SKIPPED_KEYS
    ensures w'.alice.skipped == [] && w'.alice.receivingCount == 0 && w'.bob.sendingCount == 0
    ensures forall a :: 0 <= a < |w'.bob.skipped| ==> w'.bob.skipped[a].remoteDh == w.bob.remoteDh
  {
    StartFacts(w);
    hide Reachable, Decrypted, Step, IsStart;
    var w1 := SendsMany(w, 1024);
    SendsOne(w1, Alice);
    var w2 := Step(w1, Encrypt(Alice, Message, [], true));
    var k := |w1.sent|;
    DeliversOne(w2, Bob, k, None);
    OpensAhead(w2.bob, w2.sent[k].frame);
    w' := Step(w2, Deliver(Bob, w2.sent[k].frame, None));
  }

  lemma {:induction false} SendsMany(w: World, n: nat) returns (w': World)
    requires Reachable(w) && w.alice.sendingCount + n <= U32_MAX
    ensures Reachable(w') && w'.bob == w.bob && w'.used == w.used
    ensures w'.alice.sendingCount == w.alice.sendingCount + n && w'.alice.skipped == w.alice.skipped
    ensures w'.alice.dhPair == w.alice.dhPair && w'.alice.rootKey == w.alice.rootKey
    ensures w'.alice.remoteDh == w.alice.remoteDh && w'.alice.receivingCount == w.alice.receivingCount
    decreases n
  {
    w' := w;
    if n > 0 {
      var mid := SendsMany(w, n - 1);
      hide Reachable, Step;
      SendsOne(mid, Alice);
      w' := Step(mid, Encrypt(Alice, Message, [], true));
    }
  }

  lemma {:induction false} Rotates(w: World, p: Party, k: nat)
    requires Reachable(w) && RootsEqual(w) && k !in w.used && w.At(p).remoteDh.Generated?
    ensures var w', r := Step(w, Rotate(p, Some(k))), w.At(p);
            && Reachable(w') && w'.used == w.used + {k} && w'.At(Other(p)) == w.At(Other(p))
            && w'.At(p).dhPair == k && w'.At(p).sendingCount == 0
            && w'.At(p).previousSendingChainLen == r.sendingCount
            && w'.At(p).skipped == r.skipped && w'.At(p).remoteDh == r.remoteDh
            && w'.At(p).receivingCount == r.receivingCount
  {
    ReachableStep(w, Rotate(p, Some(k)));
    hide Reachable;
  }

  lemma {:induction false} OpensNew(q: Ratchet, f: Frame, g: nat)
    requires f.header.ratchetPublic != q.remoteDh && Decrypted(q, f, Some(g)).1.Ok?
    requires f.header.previousChainLen == q.receivingCount && f.header.messageNumber == 0
    ensures var q' := Decrypted(q, f, Some(g)).0;
            && q'.skipped == q.skipped && q'.remoteDh == f.header.ratchetPublic && q'.dhPair == g
            && q'.sendingCount == 0 && q'.previousSendingChainLen == q.sendingCount
  {
    var base := NewAppends(q, f, Some(g));
    assert OldRange(q, f) == [];
    assert WithRemote(f.header.ratchetPublic, KeysBetween(base, 0, 0)) == [];
    hide RangeOf, WithRemote, KeysBetween;
  }

  /** A run of five more steps makes the skipped keys stale, with no room left. */
  lemma {:induction false} FullOfStaleIsReachable() returns (w: World)
    ensures Reachable(w) && FullOfStale(w.bob)
  {
    hide Reachable, Decrypted, Step, IsStart;
    var start := SomeStart();
    StartFacts(start);
    var w1 := Skips(start);
    var k1, k2, k3 := NewSecrets(w1.used);
    Rotates(w1, Bob, k1);
    var w2 := Step(w1, Rotate(Bob, Some(k1)));
    SendsOne(w2, Bob);
    var w3 := Step(w2, Encrypt(Bob, Message, [], true));
    var x := |w2.sent|;
    DeliversOne(w3, Alice, x, Some(k2));
    OpensNew(w3.alice, w3.sent[x].frame, k2);
    var w4 := Step(w3, Deliver(Alice, w3.sent[x].frame, Some(k2)));
    SendsOne(w4, Alice);
    var w5 := Step(w4, Encrypt(Alice, Message, [], true));
    var y := |w4.sent|;
    DeliversOne(w5, Bob, y, Some(k3));
    OpensNew(w5.bob, w5.sent[y].frame, k3);
    w := Step(w5, Deliver(Bob, w5.sent[y].frame, Some(k3)));
  }

  /** Three different secrets outside a set. */
  lemma {:induction false} NewSecrets(used: set<nat>) returns (a: nat, b: nat, c: nat)
    ensures a !in used && b !in used && c !in used && a != b && a != c && b != c
  {
    var m := UpperBound(used);
    a, b, c := m, m + 1, m + 2;
  }

  lemma {:induction false} UpperBound(used: set<nat>) returns (m: nat)
    ensures forall x :: x in used ==> x < m
    decreases |used|
  {
    if used == {} {
      m := 0;
    } else {
      var x :| x in used;
      var rest := used - {x};
      assert used == rest + {x};
      var n := UpperBound(rest);
      m := if x < n then n else x + 1;
    }
  }

  /** Distinct ids make distinct entries. */
  lemma {:induction false} UniqueElements(s: seq<SkippedMessageKey>)
    requires UniqueKeys(s)
    ensures |Elements(s)| == |s|
  {
    if |s| > 0 {
      assert UniqueKeys(s[1..]) by {
        forall i, j | 0 <= i < j < |s[1..]|
          ensures KeyIdOf(s[1..][i]) != KeyIdOf(s[1..][j])
        {
          assert KeyIdOf(s[i + 1]) != KeyIdOf(s[j + 1]);
        }
      }
      UniqueElements(s[1..]);
      assert Elements(s) == {s[0]} + Elements(s[1..]);
      assert s[0] !in Elements(s[1..]) by {
        forall j | 0 <= j < |s[1..]|
          ensures s[1..][j] != s[0]
        {
          assert KeyIdOf(s[0]) != KeyIdOf(s[j + 1]);
        }
      }
    }
  }

  /** A list full of stale keys stays so, for the rest of any run. */
  lemma {:induction false} StaysFull(w: World, events: seq<Event>, end: World, p: Party)
    requires Reachable(w) && FullOfStale(w.At(p)) && Reaches(w, events, end)
    ensures |end.At(p).skipped| == MAX_SKIPPED_KEYS
  {
    var es := ReachableInv(w);
    SkippedBounded(w, p);
    UniqueElements(w.At(p).skipped);
    hide Reaches;
    forall x | x in Elements(w.At(p).skipped)
      ensures x in Elements(end.At(p).skipped)
    {
      StaleKeysStay(w, events, end, p, x);
    }
    hide Reachable;
    es := RunInv(w, es, events, end);
    assert PartyInv(end.At(p), end.At(Other(p)), es, p, OpenedBy(end.received, p));
    hide Inv, FullOfStale;
    ElementsBound(end.At(p).skipped);
    SubsetSize(Elements(w.At(p).skipped), Elements(end.At(p).skipped));
  }

  /**
   From then on, for the rest of any run, that endpoint opens only what comes in order:
   under the current remote key the very next number, under a new one number 0 with
   nothing of the old chain missing.
   */
  lemma {:induction false} OnlyInOrderForEver(w: World, events: seq<Event>, end: World, p: Party, k: nat,
                                              generated: Option<nat>)
    requires Reachable(w) && FullOfStale(w.At(p)) && Reaches(w, events, end)
    requires k < |end.sent| && Decrypted(end.At(p), end.sent[k].frame, generated).1.Ok?
    ensures var r, h := end.At(p), end.sent[k].frame.header;
            if h.ratchetPublic == r.remoteDh then h.messageNumber == r.receivingCount
            else h.messageNumber == 0 && h.previousChainLen == r.receivingCount
  {
    ReachableOn(w, events, end);
    StaysFull(w, events, end, p);
    NoLiveEntries(w, events, end, p);
    DeliveryAccepts(end, p, k, generated);
    hide Reachable, Reaches, Decrypted, FullOfStale;
    OpenableInOrder(end, p, k, generated);
  }

  /** None of the retained keys is for the current remote key. */
  lemma {:induction false} NoLiveEntries(w: World, events: seq<Event>, end: World, p: Party)
    requires Reachable(w) && FullOfStale(w.At(p)) && Reaches(w, events, end)
    ensures forall a :: 0 <= a < |end.At(p).skipped| ==> end.At(p).skipped[a].remoteDh != end.At(p).remoteDh
  {
    var r, r' := w.At(p), end.At(p);
    RoomOnlyShrinks(w, events, end, p);
    SkippedBounded(w, p);
    UniqueElements(r.skipped);
    assert Stale(r.skipped, r.remoteDh) == Elements(r.skipped);
    hide Reachable, Reaches;
    forall a | 0 <= a < |r'.skipped|
      ensures r'.skipped[a].remoteDh != r'.remoteDh
    {
      assert r'.skipped[a] !in Live(r'.skipped, r'.remoteDh);
    }
  }

  lemma {:induction false} OpenableInOrder(w: World, p: Party, k: nat, generated: Option<nat>)
    requires Reachable(w) && k < |w.sent| && Openable(w, p, w.sent[k], generated)
    requires |w.At(p).skipped| == MAX_SKIPPED_KEYS
    requires forall a :: 0 <= a < |w.At(p).skipped| ==> w.At(p).skipped[a].remoteDh != w.At(p).remoteDh
    ensures var r, h := w.At(p), w.sent[k].frame.header;
            if h.ratchetPublic == r.remoteDh then h.messageNumber == r.receivingCount
            else h.messageNumber == 0 && h.previousChainLen == r.receivingCount
  {
    var es := ReachableInv(w);
    var r, s := w.At(p), w.sent[k];
    assert PartyInv(r, w.At(Other(p)), es, p, OpenedBy(w.received, p));
    if s.frame.header.ratchetPublic != r.remoteDh {
      assert Honest(w.At(s.sender), es, s);
      AheadFacts(w, es, p, s);
    }
    hide Reachable, Inv, Endpoint, SkippedInv, OnChain, Honest;
    NothingRetained(r, OpenedBy(w.received, p), s.frame);
  }

  /** Then every number below the count was opened. */
  lemma {:induction false} NothingRetained(r: Ratchet, consumed: set<FrameId>, f: Frame)
    requires Accounted(r.remoteDh, r.receivingCount, Retained(r.skipped), consumed)
    requires forall a :: 0 <= a < |r.skipped| ==> r.skipped[a].remoteDh != r.remoteDh
    ensures f.header.ratchetPublic == r.remoteDh && f.header.messageNumber < r.receivingCount ==> IdOf(f) in consumed
  {
  }
}
