/** Failing steps, superseded frames, key accounting, and what rotation needs. */
module SessionFailures {
  import opened Common
  import opened KeyTerms
  import opened Schedule
  import opened Ratchet
  import opened Session
  import opened SessionInvariant
  import opened SessionDelivery
  import opened SessionTheorems

  // ---- failing calls on any state -----------------------------------------------------------

  function Steps(s: Secret): nat {
    if s.NextChain? then Steps(s.chain) + 1 else 0
  }

  lemma {:induction false} AdvanceSteps(chain: Secret, n: nat)
    ensures Steps(Advance(chain, n)) == Steps(chain) + n
  {
    if n > 0 {
      AdvanceSteps(chain, n - 1);
    }
  }

  /**
   `encrypt` is documented to commit only after successful framing. It fails with its
   state changed exactly when the counter is exhausted and the frame itself could be
   sealed: that exit comes after the sending chain has moved.
   */
  lemma {:induction false} EncryptFailure(s: Ratchet, kind: FrameKind, plaintext: seq<byte>, nonceReady: bool)
    ensures var (s', outcome) := Encrypted(s, kind, plaintext, nonceReady);
            && (outcome.Ok? <==> |plaintext| <= MAX_PLAINTEXT_LEN && nonceReady && s.sendingCount < U32_MAX)
            && (outcome.Err? && s' != s <==>
                  s.sendingCount == U32_MAX && |plaintext| <= MAX_PLAINTEXT_LEN && nonceReady)
  {
    AdvanceSteps(s.sendingChain, 1);
    assert Advance(s.sendingChain, 1) == ChainStep(Advance(s.sendingChain, 0)).0;
  }

  /** An authentic frame of the current ratchet key with the last number, within the budget. */
  predicate LastNumberOpens(s: Ratchet, f: Frame) {
    && f.header.sessionId == s.sessionId && f.ciphertext.suite == s.suite
    && f.header.ratchetPublic == s.remoteDh
    && f.header.messageNumber == U32_MAX
    && |s.skipped| + (U32_MAX - s.receivingCount) <= MAX_SKIPPED_KEYS
    && f.Open(KeyAt(s.receivingChain, U32_MAX - s.receivingCount)).Ok?
  }

  /**
   `decrypt` is documented to commit only after authentication succeeds. For any
   state and any frame, a failing call leaves the state alone unless the frame is
   authentic and numbered 2^32 - 1; then the receiving chain moves and the call fails.
   */
  lemma {:induction false} DecryptFailure(s: Ratchet, f: Frame, generated: Option<nat>)
    ensures LastNumberOpens(s, f) ==> Decrypted(s, f, generated).1.Err?
    ensures Decrypted(s, f, generated).1.Err? ==>
            (Decrypted(s, f, generated).0 == s <==> !LastNumberOpens(s, f))
  {
    AdvanceSteps(s.receivingChain, U32_MAX - s.receivingCount + 1);
  }

  /** Some frame has the last number and opens exactly when the budget still reaches it, so the late exit is real. */
  lemma {:induction false} LastNumberIsPossible(s: Ratchet)
    ensures (exists f :: LastNumberOpens(s, f)) <==> |s.skipped| + (U32_MAX - s.receivingCount) <= MAX_SKIPPED_KEYS
  {
    if |s.skipped| + (U32_MAX - s.receivingCount) <= MAX_SKIPPED_KEYS {
      var h := FrameHeader(Message, s.sessionId, s.remoteDh, 0, U32_MAX);
      var f := Frame(h, Sealed(s.suite, KeyAt(s.receivingChain, U32_MAX - s.receivingCount), h, []));
      assert LastNumberOpens(s, f);
    }
  }

  function Succeeds(w: World, e: Event, p: Party): bool {
    match e
    case Encrypt(q, kind, plaintext, nonceReady) => q == p && Encrypted(w.At(p), kind, plaintext, nonceReady).1.Ok?
    case Deliver(q, f, generated) => q == p && Decrypted(w.At(p), f, generated).1.Ok?
    case Rotate(q, generated) => q == p && Rotated(w.At(p), generated).1.Ok?
  }

  /** How many of the calls on `p` succeed. */
  function Successes(w: World, events: seq<Event>, p: Party): nat
    decreases |events|
  {
    if |events| == 0 then 0
    else (if Succeeds(w, events[0], p) then 1 else 0) + Successes(Step(w, events[0]), events[1..], p)
  }

  /** Over any run from anywhere, the generation counts the successful calls, up to its limit. */
  lemma {:induction false} GenerationCounts(w: World, events: seq<Event>, end: World, p: Party)
    requires Reaches(w, events, end)
    ensures end.At(p).generation == SaturatingAdd(w.At(p).generation, Successes(w, events, p))
    decreases |events|
  {
    hide Step, Allowed, Succeeds;
    if |events| > 0 {
      GenerationStep(w, events[0], p);
      GenerationCounts(Step(w, events[0]), events[1..], end, p);
    }
  }

  lemma {:induction false} GenerationStep(w: World, e: Event, p: Party)
    ensures Step(w, e).At(p).generation == SaturatingAdd(w.At(p).generation, if Succeeds(w, e, p) then 1 else 0)
  {
    hide RangeOf, Position, KeysBetween;
  }

  // ---- failing calls in a run ---------------------------------------------------------------

  /** In a run, no failing delivery changes its receiver, whatever the network presents. */
  lemma {:induction false} DeliveryFailureIsAtomic(w: World, p: Party, f: Frame, generated: Option<nat>)
    requires Reachable(w) && Available(w, f)
    requires Decrypted(w.At(p), f, generated).1.Err?
    ensures Decrypted(w.At(p), f, generated).0 == w.At(p)
  {
    var es := ReachableInv(w);
    hide Reachable, Inv, Decrypted;
    FailedDeliveryChangesNothing(w, es, p, f, generated);
  }

  /**
   A frame sent under a ratchet key that is neither the receiver's current remote
   key nor the peer's current key fails and changes nothing, also when its message
   key is still retained.
   */
  lemma {:induction false} SupersededFrameFails(w: World, p: Party, k: nat, generated: Option<nat>)
    requires Reachable(w) && k < |w.sent|
    requires w.sent[k].frame.header.ratchetPublic != w.At(p).remoteDh
    requires w.sent[k].frame.header.ratchetPublic != Generated(w.At(Other(p)).dhPair)
    ensures Decrypted(w.At(p), w.sent[k].frame, generated).1.Err?
    ensures Decrypted(w.At(p), w.sent[k].frame, generated).0 == w.At(p)
  {
    DeliveryAccepts(w, p, k, generated);
    assert Available(w, w.sent[k].frame);
    hide Reachable, Decrypted;
    DeliveryFailureIsAtomic(w, p, w.sent[k].frame, generated);
  }

  /** A key retained for an earlier remote key never opens the frame it belongs to. */
  lemma {:induction false} StaleKeysNeverOpen(w: World, p: Party, a: nat, k: nat, generated: Option<nat>)
    requires Reachable(w) && a < |w.At(p).skipped| && k < |w.sent|
    requires w.At(p).skipped[a].remoteDh != w.At(p).remoteDh
    requires IdOf(w.sent[k].frame) == KeyIdOf(w.At(p).skipped[a])
    ensures Decrypted(w.At(p), w.sent[k].frame, generated).1.Err?
  {
    var es := ReachableInv(w);
    assert PartyInv(w.At(p), w.At(Other(p)), es, p, OpenedBy(w.received, p));
    assert Heard(es, p, w.At(p).skipped[a].remoteDh);
    HeardIsNotAhead(w, es, p, w.At(p).skipped[a].remoteDh);
    hide Reachable, Decrypted, Inv;
    SupersededFrameFails(w, p, k, generated);
  }

  // ---- accounting ---------------------------------------------------------------------------

  /**
   For the current remote key: a number below the count is opened or retained,
   never both; a number from the count on is neither; and some first chain secret
   yields both the receiving chain and every retained key.
   */
  lemma {:induction false} Accounting(w: World, p: Party) returns (base: Secret)
    requires Reachable(w)
    ensures var r := w.At(p);
            && Accounted(r.remoteDh, r.receivingCount, Retained(r.skipped), OpenedBy(w.received, p))
            && !base.NextChain? && r.receivingChain == Advance(base, r.receivingCount)
            && OnChain(r.skipped, r.remoteDh, r.receivingCount, base)
  {
    var es := ReachableInv(w);
    base := es[Listening(es, p)].base;
    assert PartyInv(w.At(p), w.At(Other(p)), es, p, OpenedBy(w.received, p));
    ListeningToPeer(w.At(p), es, p, w.used);
    hide Reachable, SentInv, ReceivedInv, Accounted, OnChain, SkippedInv;
  }

  /** The retained list is within the limit and holds no (ratchet key, number) twice. */
  lemma {:induction false} SkippedBounded(w: World, p: Party)
    requires Reachable(w)
    ensures |w.At(p).skipped| <= MAX_SKIPPED_KEYS && UniqueKeys(w.At(p).skipped)
  {
    var es := ReachableInv(w);
    assert PartyInv(w.At(p), w.At(Other(p)), es, p, OpenedBy(w.received, p));
    hide Reachable, Inv;
  }

  // ---- runs exist ---------------------------------------------------------------------------

  lemma {:induction false} ReachesStep(start: World, events: seq<Event>, w: World, e: Event)
    requires Reaches(start, events, w) && Allowed(w, e)
    ensures Reaches(start, events + [e], Step(w, e))
    decreases |events|
  {
    hide Step, Allowed;
    if |events| == 0 {
      assert (events + [e])[1..] == [];
    } else {
      ReachesStep(Step(start, events[0]), events[1..], w, e);
      assert (events + [e])[1..] == events[1..] + [e];
    }
  }

  lemma {:induction false} ReachableStep(w: World, e: Event)
    requires Reachable(w) && Allowed(w, e)
    ensures Reachable(Step(w, e))
  {
    hide Step, Allowed, IsStart;
    var start, events :| IsStart(start) && Reaches(start, events, w);
    ReachesStep(start, events, w, e);
  }

  /** What is reached from a reachable world is reachable. */
  lemma {:induction false} ReachableOn(w: World, events: seq<Event>, end: World)
    requires Reachable(w) && Reaches(w, events, end)
    ensures Reachable(end)
    decreases |events|
  {
    hide Step, Allowed, Reachable;
    if |events| > 0 {
      ReachableStep(w, events[0]);
      ReachableOn(Step(w, events[0]), events[1..], end);
    }
  }

  /** Some handshake starts a run. */
  lemma {:induction false} SomeStart() returns (w: World)
    ensures IsStart(w) && Reachable(w) && RootsEqual(w)
  {
    var identity := IdentityDhPublic(IdentityPublicKey(0), Generated(0), Garbage(0));
    var session := SessionId(InitiatorHandshake(identity, Generated(1), Generated(2), 0, None), identity);
    var root := HandshakeRoot(session, []);
    w := World(InitialRatchet(AuthenticatedHandshake(session, root, Initiator, 2, Generated(3)), XChaCha20Poly1305),
               InitialRatchet(AuthenticatedHandshake(session, root, Responder, 3, Generated(2)), XChaCha20Poly1305),
               [], [], {2, 3});
    assert IsStart(w);
    assert Reaches(w, [], w);
  }

  /** From any reachable world either endpoint can send on, up to the last number. */
  lemma {:induction false} SendsOn(w: World, p: Party, n: nat) returns (w': World)
    requires Reachable(w) && w.At(p).sendingCount + n <= U32_MAX
    ensures Reachable(w') && w'.At(p).sendingCount == w.At(p).sendingCount + n
    ensures w'.At(Other(p)) == w.At(Other(p)) && |w'.sent| == |w.sent| + n
    decreases n
  {
    w' := w;
    if n > 0 {
      var mid := SendsOn(w, p, n - 1);
      ReachableStep(mid, Encrypt(p, Message, [], true));
      hide Reachable;
      w' := Step(mid, Encrypt(p, Message, [], true));
    }
  }

  /** `n` calls of `encrypt` with empty plaintexts, and the state after them. */
  function EncryptedTimes(s: Ratchet, kind: FrameKind, n: nat): Ratchet {
    if n == 0 then s else Encrypted(EncryptedTimes(s, kind, n - 1), kind, [], true).0
  }

  /** With the counter exhausted every further call fails, and still moves the chain by one step. */
  lemma {:induction false} ExhaustedMovesOn(s: Ratchet, kind: FrameKind, n: nat)
    requires s.sendingCount == U32_MAX
    ensures EncryptedTimes(s, kind, n) == s.(sendingChain := Advance(s.sendingChain, n))
    ensures Encrypted(EncryptedTimes(s, kind, n), kind, [], true).1 == Err(CounterExhausted)
    ensures EncryptedTimes(s, kind, n + 1) != EncryptedTimes(s, kind, n)
  {
    if n > 0 {
      ExhaustedMovesOn(s, kind, n - 1);
    }
    EncryptFailure(EncryptedTimes(s, kind, n), kind, [], true);
  }

  /** A run can exhaust a sending counter: then `encrypt` fails again and again, each time with its chain moved. */
  lemma {:induction false} ExhaustedCounterIsReachable(kind: FrameKind, n: nat) returns (w: World)
    ensures Reachable(w) && w.alice.sendingCount == U32_MAX
    ensures EncryptedTimes(w.alice, kind, n) == w.alice.(sendingChain := Advance(w.alice.sendingChain, n))
    ensures Encrypted(EncryptedTimes(w.alice, kind, n), kind, [], true).1 == Err(CounterExhausted)
    ensures EncryptedTimes(w.alice, kind, n + 1) != EncryptedTimes(w.alice, kind, n)
  {
    hide Reachable, Encrypted, EncryptedTimes;
    var start := SomeStart();
    w := SendsOn(start, Alice, U32_MAX - start.alice.sendingCount);
    ExhaustedMovesOn(w.alice, kind, n);
  }

  // ---- rotation -----------------------------------------------------------------------------

  /** One rotation from equal roots makes them unequal; so there are runs in which rotation breaks the session. */
  lemma {:induction false} UnequalRootsAreReachable(w: World, p: Party, k: nat)
    requires Reachable(w) && RootsEqual(w) && k !in w.used
    ensures var w' := Step(w, Rotate(p, Some(k)));
            Reachable(w') && !RootsEqual(w') && w'.At(p).dhPair == k
  {
    var es := ReachableInv(w);
    ReachableStep(w, Rotate(p, Some(k)));
    assert Endpoint(w.alice, es, Alice) && Endpoint(w.bob, es, Bob);
    ListeningToPeer(w.alice, es, Alice, w.used);
    ListeningToPeer(w.bob, es, Bob, w.used);
    hide Reachable, Inv;
    var root := w.At(p).rootKey;
    assert Level(NextRoot(root, Pair(k, w.At(p).remoteDh.secret))) == Level(root) + 1;
  }

  /**
   `p` rotates with a fresh secret, whatever the roots, and sends one frame; the
   peer can open that frame if and only if the two root keys were equal before the
   rotation (and the peer has room for the keys it must retain).
   */
  lemma {:induction false} RotationNeedsEqualRoots(w: World, p: Party, k: nat, k': nat, plaintext: seq<byte>)
    requires Reachable(w) && k !in w.used && k' !in w.used && k != k'
    requires |plaintext| <= MAX_PLAINTEXT_LEN
    ensures var w1 := Step(w, Rotate(p, Some(k)));
            var w2 := Step(w1, Encrypt(p, Message, plaintext, true));
            && |w2.sent| == |w.sent| + 1
            && (Decrypted(w2.At(Other(p)), w2.sent[|w.sent|].frame, Some(k')).1.Ok? <==>
                  && RootsEqual(w)
                  && var q := w.At(Other(p));
                  |q.skipped| + (w.At(p).sendingCount - q.receivingCount) <= MAX_SKIPPED_KEYS)
  {
    var r, q := w.At(p), w.At(Other(p));
    var w1 := Step(w, Rotate(p, Some(k)));
    var w2 := Step(w1, Encrypt(p, Message, plaintext, true));
    RotatedFrame(w, p, k, plaintext);
    var f := w2.sent[|w.sent|].frame;
    if RootsEqual(w) {
      ReachableStep(w, Rotate(p, Some(k)));
      ReachableStep(w1, Encrypt(p, Message, plaintext, true));
      hide Reachable, Decrypted, Step;
      DeliveryAccepts(w2, Other(p), |w.sent|, Some(k'));
    } else {
      UnequalRootsFail(w, p, k, f, k');
    }
  }

  /** From any reachable world with equal roots, two rotations in a row lead to a frame that the peer cannot open. */
  lemma {:induction false} SecondRotationBreaks(w: World, p: Party, k1: nat, k2: nat, k3: nat, plaintext: seq<byte>)
    requires Reachable(w) && RootsEqual(w) && |plaintext| <= MAX_PLAINTEXT_LEN
    requires k1 !in w.used && k2 !in w.used && k3 !in w.used && k1 != k2 && k1 != k3 && k2 != k3
    ensures var w1 := Step(Step(w, Rotate(p, Some(k1))), Rotate(p, Some(k2)));
            var w2 := Step(w1, Encrypt(p, Message, plaintext, true));
            && |w2.sent| == |w1.sent| + 1
            && Decrypted(w2.At(Other(p)), w2.sent[|w1.sent|].frame, Some(k3)).1.Err?
  {
    UnequalRootsAreReachable(w, p, k1);
    var mid := Step(w, Rotate(p, Some(k1)));
    assert mid.used == w.used + {k1};
    hide Reachable, Decrypted, Step;
    RotationNeedsEqualRoots(mid, p, k2, k3, plaintext);
    RotationSendsNothing(mid, p, k2);
  }

  lemma {:induction false} RotationSendsNothing(w: World, p: Party, k: nat)
    ensures Step(w, Rotate(p, Some(k))).sent == w.sent
  {
  }

  /** The frame after the rotation, and what did not change on the way. */
  lemma {:induction false} RotatedFrame(w: World, p: Party, k: nat, plaintext: seq<byte>)
    requires Reachable(w) && k !in w.used && |plaintext| <= MAX_PLAINTEXT_LEN
    ensures var w1 := Step(w, Rotate(p, Some(k)));
            var w2 := Step(w1, Encrypt(p, Message, plaintext, true));
            && w.At(p).remoteDh.Generated? && Generated(k) != w.At(Other(p)).remoteDh
            && var dh := Pair(k, w.At(p).remoteDh.secret);
            && |w2.sent| == |w.sent| + 1 && w2.sent[|w.sent|].sender == p
            && w2.At(Other(p)) == w.At(Other(p)) && w2.At(p).dhPair == k
            && var h := FrameHeader(Message, w.At(p).sessionId, Generated(k), w.At(p).sendingCount, 0);
            && w2.sent[|w.sent|].frame ==
               Frame(h, Sealed(w.At(p).suite, MessageKey(RootStep(w.At(p).rootKey, dh).1), h, plaintext))
  {
    var es := ReachableInv(w);
    assert Endpoint(w.alice, es, Alice) && Endpoint(w.bob, es, Bob);
    ListeningToPeer(w.alice, es, Alice, w.used);
    ListeningToPeer(w.bob, es, Bob, w.used);
    hide Reachable, SentInv, ReceivedInv, PartiesInv;
  }

  /** The peer derives keys one root step above its own root, the frame's lies elsewhere. */
  lemma {:induction false} UnequalRootsFail(w: World, p: Party, k: nat, f: Frame, k': nat)
    requires Reachable(w) && !RootsEqual(w)
    requires w.At(p).remoteDh.Generated? && Generated(k) != w.At(Other(p)).remoteDh
    requires f.header.ratchetPublic == Generated(k) && f.header.messageNumber == 0 && f.ciphertext.Sealed?
    requires f.ciphertext.key == MessageKey(RootStep(w.At(p).rootKey, Pair(k, w.At(p).remoteDh.secret)).1)
    ensures Decrypted(w.At(Other(p)), f, Some(k')).1.Err?
  {
    var es := ReachableInv(w);
    EqualRootsAreInitial(w, es);
    assert Endpoint(w.alice, es, Alice) && Endpoint(w.bob, es, Bob);
    assert Level(w.At(p).rootKey) != Level(w.At(Other(p)).rootKey) by {
      assert Level(es[|es| - 1].root) == Depth(|es| - 1) && Level(es[|es| - 2].root) == Depth(|es| - 2);
    }
    hide Reachable, Inv;
    var q := w.At(Other(p));
    var chain := RootStep(q.rootKey, Pair(q.dhPair, k)).1;
    assert Level(chain) == Level(q.rootKey) + 1;
    assert KeyAt(chain, 0) == MessageKey(chain);
  }
}
