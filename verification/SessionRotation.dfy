/**
 Rotation while the roots differ: no endpoint can tell that they do, and after it
 no frame under the new key is ever opened, whatever either side does later.
 */
module SessionRotation {
  import opened Common
  import opened KeyTerms
  import opened Schedule
  import opened Ratchet
  import opened Session
  import opened SessionInvariant
  import opened SessionDelivery
  import opened SessionTheorems
  import opened SessionFailures

  /** Whether the roots are equal does not show in one endpoint: the same `p` is reached with both answers. */
  lemma {:induction false} RootsAreNotLocal(w: World, p: Party, k: nat)
    requires Reachable(w) && RootsEqual(w) && k !in w.used
    ensures var w' := Step(w, Rotate(Other(p), Some(k)));
            Reachable(w') && !RootsEqual(w') && w'.At(p) == w.At(p)
  {
    UnequalRootsAreReachable(w, Other(p), k);
    hide Reachable;
  }

  // ---- runs with rotation at any time -----------------------------------------------------------

  /** As `Allowed`, without the condition on rotation. */
  ghost predicate AllowedFreely(w: World, e: Event) {
    match e
    case Encrypt(_, _, _, _) => true
    case Deliver(_, f, generated) => Available(w, f) && FreshIn(w, generated)
    case Rotate(_, generated) => FreshIn(w, generated)
  }

  ghost predicate ReachesFreely(start: World, events: seq<Event>, w: World)
    decreases |events|
  {
    if |events| == 0 then start == w
    else AllowedFreely(start, events[0]) && ReachesFreely(Step(start, events[0]), events[1..], w)
  }

  /** The first secret of a chain. */
  function Origin(s: Secret): Secret {
    if s.NextChain? then Origin(s.chain) else s
  }

  lemma {:induction false} OriginAdvance(chain: Secret, n: nat)
    ensures Origin(Advance(chain, n)) == Origin(chain)
  {
    if n > 0 {
      OriginAdvance(chain, n - 1);
    }
  }

  predicate InUse(dh: Shared, used: set<nat>) {
    dh.low in used && dh.high in used
  }

  /** A ratchet with this root will not get to the root `target` by steps with secrets outside `used`. */
  predicate NeverAt(root: Secret, target: Secret, used: set<nat>) {
    root != target && (Level(root) > Level(target) || (target.NextRoot? ==> InUse(target.dh, used)))
  }

  /** A body under the key `k` was sealed on the chain that starts with `base`. */
  predicate OnBase(t: Ciphertext, k: nat, base: Secret) {
    t.Sealed? && t.aad.ratchetPublic == Generated(k) ==> Origin(t.key.ofChain) == base
  }

  /**
   The chain of `p` under `k` starts at `base`, one step above `target`, and the peer,
   who has not heard `k`, will never be at `target`.
   */
  ghost predicate Cut(w: World, p: Party, k: nat, target: Secret, base: Secret) {
    var r, q := w.At(p), w.At(Other(p));
    && k in w.used && q.remoteDh != Generated(k) && q.dhPair != k
    && NeverAt(q.rootKey, target, w.used)
    && (r.dhPair == k ==> Origin(r.sendingChain) == base)
    && (forall i :: 0 <= i < |w.sent| ==> OnBase(w.sent[i].frame.ciphertext, k, base))
  }

  /** The peer refuses every frame under `k`. */
  lemma {:induction false} CutRefuses(w: World, p: Party, k: nat, target: Secret, dh: Shared, f: Frame,
                                      generated: Option<nat>)
    requires Cut(w, p, k, target, RootStep(target, dh).1) && Available(w, f)
    requires f.header.ratchetPublic == Generated(k)
    ensures Decrypted(w.At(Other(p)), f, generated).1.Err?
  {
    var q, base := w.At(Other(p)), RootStep(target, dh).1;
    if Decrypted(q, f, generated).1.Ok? {
      var chain := RootStep(q.rootKey, Pair(q.dhPair, k)).1;
      OriginAdvance(chain, f.header.messageNumber);
      OpenedByDerived(q, f, generated);
    }
  }

  lemma {:induction false} OpenedByDerived(q: Ratchet, f: Frame, generated: Option<nat>)
    requires f.header.ratchetPublic != q.remoteDh && Decrypted(q, f, generated).1.Ok?
    ensures f.header.ratchetPublic.Generated?
    ensures var chain := RootStep(q.rootKey, Pair(q.dhPair, f.header.ratchetPublic.secret)).1;
            f.ciphertext.Sealed? && f.ciphertext.aad == f.header
            && f.ciphertext.key == KeyAt(chain, f.header.messageNumber)
  {
    hide WithRemote, KeysBetween;
  }

  // ---- the cut stays ------------------------------------------------------------------------------

  /** A root step with a new secret does not lead to `target`. */
  lemma {:induction false} StepStaysAway(root: Secret, target: Secret, used: set<nat>, g: nat, x: nat, from: Secret)
    requires NeverAt(root, target, used) && g !in used && Level(from) >= Level(root)
    ensures NeverAt(NextRoot(from, Pair(g, x)), target, used + {g})
  {
  }

  lemma {:induction false} MoreUsedStaysAway(root: Secret, target: Secret, used: set<nat>, more: set<nat>)
    requires NeverAt(root, target, used) && used <= more
    ensures NeverAt(root, target, more)
  {
  }

  lemma {:induction false} CutEncrypt(w: World, e: Event, p: Party, k: nat, target: Secret, base: Secret)
    requires Cut(w, p, k, target, base) && e.Encrypt?
    ensures Cut(Step(w, e), p, k, target, base)
  {
    hide NeverAt;
  }

  lemma {:induction false} CutRotate(w: World, e: Event, p: Party, k: nat, target: Secret, base: Secret)
    requires Cut(w, p, k, target, base) && e.Rotate? && AllowedFreely(w, e)
    ensures Cut(Step(w, e), p, k, target, base)
  {
    var q := w.At(Other(p));
    hide NeverAt, OnBase;
    MoreUsedStaysAway(q.rootKey, target, w.used, Step(w, e).used);
    if e.rotator == Other(p) && e.generated.Some? && q.remoteDh.Generated? {
      StepStaysAway(q.rootKey, target, w.used, e.generated.value, q.remoteDh.secret, q.rootKey);
    }
  }

  /** What a delivery does to keys, roots and the sending chain. */
  lemma {:induction false} DeliveredKeys(r: Ratchet, f: Frame, generated: Option<nat>) returns (from: Secret, x: nat)
    ensures var r' := Decrypted(r, f, generated).0;
            || (r'.dhPair == r.dhPair && r'.rootKey == r.rootKey && r'.remoteDh == r.remoteDh
                && r'.sendingChain == r.sendingChain)
            || (&& Decrypted(r, f, generated).1.Ok? && generated.Some?
                && r'.dhPair == generated.value && r'.remoteDh == f.header.ratchetPublic
                && r'.rootKey == NextRoot(from, Pair(generated.value, x)) && Level(from) == Level(r.rootKey) + 1)
  {
    hide WithRemote, KeysBetween, Position;
    from, x := r.rootKey, 0;
    if f.header.ratchetPublic != r.remoteDh && Decrypted(r, f, generated).1.Ok? {
      x := f.header.ratchetPublic.secret;
      from := NextRoot(r.rootKey, Pair(r.dhPair, x));
    }
  }

  lemma {:induction false} CutDeliver(w: World, e: Event, p: Party, k: nat, target: Secret, dh: Shared)
    requires Cut(w, p, k, target, RootStep(target, dh).1) && e.Deliver? && AllowedFreely(w, e)
    ensures Cut(Step(w, e), p, k, target, RootStep(target, dh).1)
  {
    var q, r, f, w' := w.At(Other(p)), w.At(e.receiver), e.frame, Step(w, e);
    var from, x := DeliveredKeys(r, f, e.generated);
    if e.receiver == Other(p) && f.header.ratchetPublic == Generated(k) {
      CutRefuses(w, p, k, target, dh, f, e.generated);
    }
    hide NeverAt, OnBase, Decrypted;
    MoreUsedStaysAway(q.rootKey, target, w.used, w'.used);
    var r' := w'.At(e.receiver);
    if e.receiver == Other(p) && r'.rootKey != r.rootKey {
      StepStaysAway(r.rootKey, target, w.used, e.generated.value, x, from);
    }
  }

  lemma {:induction false} CutRun(w: World, events: seq<Event>, end: World, p: Party, k: nat, target: Secret,
                                  dh: Shared)
    requires Cut(w, p, k, target, RootStep(target, dh).1) && ReachesFreely(w, events, end)
    ensures Cut(end, p, k, target, RootStep(target, dh).1)
    decreases |events|
  {
    hide Step, AllowedFreely, Cut;
    if |events| > 0 {
      match events[0] {
        case Encrypt(_, _, _, _) => CutEncrypt(w, events[0], p, k, target, RootStep(target, dh).1);
        case Deliver(_, _, _) => CutDeliver(w, events[0], p, k, target, dh);
        case Rotate(_, _) => CutRotate(w, events[0], p, k, target, RootStep(target, dh).1);
      }
      CutRun(Step(w, events[0]), events[1..], end, p, k, target, dh);
    }
  }

  // ---- a rotation cuts ----------------------------------------------------------------------------

  /** With unequal roots the peer's root is not that of `p`, and never will be. */
  lemma {:induction false} PeerNeverThere(w: World, es: seq<Epoch>, p: Party)
    requires Inv(w, es) && !RootsEqual(w)
    ensures NeverAt(w.At(Other(p)).rootKey, w.At(p).rootKey, w.used)
    ensures w.At(p).remoteDh.Generated? && w.At(p).remoteDh.secret in w.used && w.At(p).dhPair in w.used
    ensures w.At(Other(p)).dhPair in w.used
    ensures w.At(Other(p)).remoteDh.Generated? && w.At(Other(p)).remoteDh.secret in w.used
  {
    EqualRootsAreInitial(w, es);
    assert Endpoint(w.alice, es, Alice) && Endpoint(w.bob, es, Bob);
    ListeningToPeer(w.alice, es, Alice, w.used);
    ListeningToPeer(w.bob, es, Bob, w.used);
    hide SentInv, ReceivedInv, PartiesInv;
    var m := |es|;
    assert Level(es[m - 1].root) == Depth(m - 1) && Level(es[m - 2].root) == Depth(m - 2);
  }

  lemma {:induction false} SentKeysUsed(w: World, es: seq<Epoch>, k: nat, base: Secret, i: nat)
    requires Inv(w, es) && k !in w.used && i < |w.sent|
    ensures OnBase(w.sent[i].frame.ciphertext, k, base)
  {
    var s := w.sent[i];
    assert Honest(w.At(s.sender), es, s);
    HonestBody(w, es, s);
    var e: nat :| FromEpoch(w.At(s.sender), es, s, e);
    assert es[e].key in w.used;
  }

  lemma {:induction false} RotationCuts(w: World, es: seq<Epoch>, p: Party, k: nat)
    requires Inv(w, es) && !RootsEqual(w) && k !in w.used
    ensures w.At(p).remoteDh.Generated?
    ensures Cut(Step(w, Rotate(p, Some(k))), p, k, w.At(p).rootKey,
                RootStep(w.At(p).rootKey, Pair(k, w.At(p).remoteDh.secret)).1)
  {
    PeerNeverThere(w, es, p);
    var base := RootStep(w.At(p).rootKey, Pair(k, w.At(p).remoteDh.secret)).1;
    forall i | 0 <= i < |w.sent|
      ensures OnBase(w.sent[i].frame.ciphertext, k, base)
    {
      SentKeysUsed(w, es, k, base, i);
    }
    hide Inv, NeverAt, OnBase;
    MoreUsedStaysAway(w.At(Other(p)).rootKey, w.At(p).rootKey, w.used, w.used + {k});
  }

  /**
   `p` rotates while the roots differ. Whatever happens afterwards, with rotations of
   either side at any time, and whatever the network presents: no frame under the new
   key is ever opened by the peer.
   */
  lemma {:induction false} RotationBreaksForGood(w: World, p: Party, k: nat, events: seq<Event>, end: World, f: Frame,
                                                 generated: Option<nat>)
    requires Reachable(w) && !RootsEqual(w) && k !in w.used
    requires ReachesFreely(Step(w, Rotate(p, Some(k))), events, end)
    requires Available(end, f) && f.header.ratchetPublic == Generated(k)
    ensures Decrypted(end.At(Other(p)), f, generated).1.Err?
  {
    var es := ReachableInv(w);
    hide Reachable, Inv, Cut, Step, Decrypted;
    RotationCuts(w, es, p, k);
    var dh := Pair(k, w.At(p).remoteDh.secret);
    CutRun(Step(w, Rotate(p, Some(k))), events, end, p, k, w.At(p).rootKey, dh);
    CutRefuses(end, p, k, w.At(p).rootKey, dh, f, generated);
  }
}
