/** What holds of every world that a run from one handshake can reach. */
module SessionTheorems {
  import opened Common
  import opened KeyTerms
  import opened Schedule
  import opened Ratchet
  import opened Session
  import opened SessionInvariant
  import opened SessionDelivery
  import opened SessionCompleteness

  // ---- agreement ------------------------------------------------------------------------------

  predicate InStep(a: Ratchet, b: Ratchet) {
    && a.rootKey == b.rootKey
    && a.remoteDh == Generated(b.dhPair) && b.remoteDh == Generated(a.dhPair)
  }

  /** `ahead` has taken one root step, with its own new key, that `behind` has yet to take. */
  predicate OneStepAhead(ahead: Ratchet, behind: Ratchet) {
    && ahead.rootKey == RootStep(behind.rootKey, Pair(behind.dhPair, ahead.dhPair)).0
    && ahead.remoteDh == Generated(behind.dhPair) && behind.remoteDh != Generated(ahead.dhPair)
  }

  /**
   The receiving chain is the peer's chain for the same ratchet key, at the
   receiving count: it generates the key of every frame the peer sent under that
   ratchet key from there on, and reaches the peer's own chain at the peer's count.
   Every number below the peer's length of that chain was sent, each in one frame only.
   */
  ghost predicate ReceivesPeersChain(w: World, p: Party) {
    var r, peer := w.At(p), w.At(Other(p));
    && r.receivingCount <= ChainLength(r, peer)
    && (r.remoteDh == Generated(peer.dhPair) && peer.sendingCount < U32_MAX ==>
          peer.sendingChain == Advance(r.receivingChain, peer.sendingCount - r.receivingCount))
    && AllSent(w.sent, Other(p), r.remoteDh, ChainLength(r, peer))
    && (forall k :: 0 <= k < |w.sent| ==> OnReceivingChain(r, peer, w.sent[k]))
  }

  predicate OnReceivingChain(r: Ratchet, peer: Ratchet, s: SentFrame) {
    var h := s.frame.header;
    h.ratchetPublic == r.remoteDh ==>
      && h.messageNumber < ChainLength(r, peer)
      && (r.receivingCount <= h.messageNumber ==>
            && s.frame.ciphertext.Sealed?
            && s.frame.ciphertext.key == KeyAt(r.receivingChain, h.messageNumber - r.receivingCount))
  }

  lemma {:induction false} Agreement(w: World)
    requires Reachable(w)
    ensures InStep(w.alice, w.bob) || OneStepAhead(w.alice, w.bob) || OneStepAhead(w.bob, w.alice)
    ensures ReceivesPeersChain(w, Alice) && ReceivesPeersChain(w, Bob)
  {
    var es := ReachableInv(w);
    ReachableComplete(w);
    hide Reachable, Inv, ReceivesPeersChain;
    RootsAgree(w, es);
    ChainsAgree(w, es, Alice);
    ChainsAgree(w, es, Bob);
  }

  lemma {:induction false} RootsAgree(w: World, es: seq<Epoch>)
    requires Inv(w, es)
    ensures InStep(w.alice, w.bob) || OneStepAhead(w.alice, w.bob) || OneStepAhead(w.bob, w.alice)
  {
    assert Endpoint(w.alice, es, Alice) && Endpoint(w.bob, es, Bob);
    hide SentInv, ReceivedInv, PartiesInv;
  }

  /** The peer's length is the same seen from the epochs and from the ratchet keys. */
  lemma {:induction false} LengthsAgree(w: World, es: seq<Epoch>, p: Party)
    requires Inv(w, es)
    ensures PeerLength(w.At(Other(p)), es, p) == ChainLength(w.At(p), w.At(Other(p)))
    ensures w.At(p).remoteDh == Generated(w.At(Other(p)).dhPair) <==> Listening(es, p) == Current(es, Other(p))
  {
    assert Endpoint(w.alice, es, Alice) && Endpoint(w.bob, es, Bob);
    hide SentInv, ReceivedInv, PartiesInv;
  }

  lemma {:induction false} ChainsAgree(w: World, es: seq<Epoch>, p: Party)
    requires Inv(w, es) && Complete(w)
    ensures ReceivesPeersChain(w, p)
  {
    assert AllSent(w.sent, Other(p), w.At(p).remoteDh, ChainLength(w.At(p), w.At(Other(p))));
    hide AllSent;
    var r, peer, j := w.At(p), w.At(Other(p)), Listening(es, p);
    assert PartyInv(r, peer, es, p, OpenedBy(w.received, p));
    assert Endpoint(peer, es, Other(p));
    LengthsAgree(w, es, p);
    forall k | 0 <= k < |w.sent|
      ensures OnReceivingChain(r, peer, w.sent[k])
    {
      assert Honest(w.At(w.sent[k].sender), es, w.sent[k]);
      SentOnChain(w, es, p, w.sent[k]);
    }
    hide SentInv, ReceivedInv, PartiesInv, SkippedInv, OnChain, Accounted, History, OnReceivingChain;
    if Listening(es, p) == Current(es, Other(p)) {
      AdvanceAdd(es[j].base, r.receivingCount, peer.sendingCount - r.receivingCount);
    }
  }

  lemma {:induction false} SentOnChain(w: World, es: seq<Epoch>, p: Party, s: SentFrame)
    requires Inv(w, es) && Honest(w.At(s.sender), es, s)
    ensures OnReceivingChain(w.At(p), w.At(Other(p)), s)
  {
    var r, peer, j, h := w.At(p), w.At(Other(p)), Listening(es, p), s.frame.header;
    if h.ratchetPublic == r.remoteDh {
      HonestUnderRemote(w, es, p, s);
      if r.receivingCount <= h.messageNumber {
        KeyFromBase(r, es[j].base, h.messageNumber);
      }
    }
  }

  /** A sent frame under the current remote key is the peer's, from the epoch listened to. */
  lemma {:induction false} HonestUnderRemote(w: World, es: seq<Epoch>, p: Party, s: SentFrame)
    requires Inv(w, es) && Honest(w.At(s.sender), es, s) && s.frame.header.ratchetPublic == w.At(p).remoteDh
    ensures FromEpoch(w.At(s.sender), es, s, Listening(es, p)) && s.sender == Other(p)
    ensures w.At(p).receivingChain == Advance(es[Listening(es, p)].base, w.At(p).receivingCount)
    ensures s.frame.header.messageNumber < ChainLength(w.At(p), w.At(Other(p)))
  {
    var e :| FromEpoch(w.At(s.sender), es, s, e);
    assert Endpoint(w.At(p), es, p);
    LengthsAgree(w, es, p);
    hide SentInv, ReceivedInv, PartiesInv, Honest;
    assert e == Listening(es, p);
  }

  // ---- exactly once -----------------------------------------------------------------------------

  /**
   Every plaintext that was ever returned is one the peer encrypted, in that very
   frame, whose header has the kind the peer passed; no frame and no (ratchet key,
   number) is opened twice by one party; and no number 2^32 - 1 is ever sent.
   */
  lemma {:induction false} ExactlyOnce(w: World)
    requires Reachable(w)
    ensures forall k :: 0 <= k < |w.received| ==> Genuine(w.sent, w.received[k])
    ensures OpenedOnce(w.received) && DistinctIds(w.sent)
    ensures forall k :: 0 <= k < |w.sent| ==>
              w.sent[k].frame.header.messageNumber < U32_MAX && w.sent[k].frame.header.kind == w.sent[k].kind
  {
    var es := ReachableInv(w);
    hide PartiesInv, History, Reachable;
    forall k | 0 <= k < |w.sent|
      ensures w.sent[k].frame.header.messageNumber < U32_MAX && w.sent[k].frame.header.kind == w.sent[k].kind
    {
      assert Honest(w.At(w.sent[k].sender), es, w.sent[k]);
    }
  }

  /** A frame that was opened before is refused, whatever happened since, and changes nothing. */
  lemma {:induction false} ReplayRefused(w: World, k: nat, generated: Option<nat>)
    requires Reachable(w) && k < |w.received|
    ensures var x := w.received[k];
            Decrypted(w.At(x.receiver), x.frame, generated).1.Err?
            && Decrypted(w.At(x.receiver), x.frame, generated).0 == w.At(x.receiver)
  {
    var es := ReachableInv(w);
    var x := w.received[k];
    var p := x.receiver;
    assert Genuine(w.sent, x);
    var i :| 0 <= i < |w.sent| && w.sent[i] == SentFrame(Other(p), x.frame.header.kind, x.plaintext, x.frame);
    assert IdOf(x.frame) in OpenedBy(w.received, p);
    assert Heard(es, p, x.frame.header.ratchetPublic);
    hide Reachable;
    DeliveryAcceptsInv(w, es, p, i, generated);
    HeardIsNotAhead(w, es, p, x.frame.header.ratchetPublic);
    if Decrypted(w.At(p), x.frame, generated).1.Err? {
      FailedDeliveryChangesNothing(w, es, p, x.frame, generated);
    } else {
      NothingOpenedBeyond(w, es, p, IdOf(x.frame));
    }
  }

  lemma {:induction false} HeardIsNotAhead(w: World, es: seq<Epoch>, p: Party, key: PublicKey)
    requires Inv(w, es) && Heard(es, p, key)
    ensures key == Generated(w.At(Other(p)).dhPair) ==> key == w.At(p).remoteDh
  {
    assert Endpoint(w.alice, es, Alice) && Endpoint(w.bob, es, Bob);
    hide SentInv, ReceivedInv, PartiesInv;
    var e :| 0 <= e <= Listening(es, p) < |es| && es[e].sender == Other(p) && key == Generated(es[e].key);
  }

  lemma {:induction false} NothingOpenedBeyond(w: World, es: seq<Epoch>, p: Party, id: FrameId)
    requires Inv(w, es) && id in OpenedBy(w.received, p) && id.ratchetPublic == w.At(p).remoteDh
    ensures id.number < w.At(p).receivingCount
  {
    var r := w.At(p);
    assert PartyInv(r, w.At(Other(p)), es, p, OpenedBy(w.received, p));
    hide Inv;
    NotRetained(r.remoteDh, r.receivingCount, Retained(r.skipped), OpenedBy(w.received, p));
    assert id == FrameId(r.remoteDh, id.number);
  }

  // ---- exactly which deliveries succeed -----------------------------------------------------------

  /**
   When delivering `sent[k]` to `p` succeeds: it is the peer's, and either it is
   under the current remote key, with a number not opened yet and within the
   skipped-key budget, or it is under the key of a peer that is a step ahead, with
   both ranges within the budget and a new key pair available.
   */
  ghost predicate Openable(w: World, p: Party, s: SentFrame, generated: Option<nat>) {
    var r, peer, h := w.At(p), w.At(Other(p)), s.frame.header;
    && s.sender == Other(p)
    && if h.ratchetPublic == r.remoteDh then
         if h.messageNumber < r.receivingCount then IdOf(s.frame) !in OpenedBy(w.received, p)
         else |r.skipped| + (h.messageNumber - r.receivingCount) <= MAX_SKIPPED_KEYS
       else
         && h.ratchetPublic == Generated(peer.dhPair) && generated.Some?
         && |r.skipped| + (h.previousChainLen - r.receivingCount) + h.messageNumber <= MAX_SKIPPED_KEYS
  }

  lemma {:induction false} DeliveryAccepts(w: World, p: Party, k: nat, generated: Option<nat>)
    requires Reachable(w) && k < |w.sent|
    ensures var outcome := Decrypted(w.At(p), w.sent[k].frame, generated).1;
            && (outcome.Ok? <==> Openable(w, p, w.sent[k], generated))
            && (outcome.Ok? ==> outcome.value == w.sent[k].plaintext)
  {
    var es := ReachableInv(w);
    hide Reachable, Inv, Openable, Decrypted;
    DeliveryAcceptsInv(w, es, p, k, generated);
  }

  lemma {:induction false} DeliveryAcceptsInv(w: World, es: seq<Epoch>, p: Party, k: nat, generated: Option<nat>)
    requires Inv(w, es) && k < |w.sent|
    ensures var outcome := Decrypted(w.At(p), w.sent[k].frame, generated).1;
            && (outcome.Ok? <==> Openable(w, p, w.sent[k], generated))
            && (outcome.Ok? ==> outcome.value == w.sent[k].plaintext)
  {
    var s := w.sent[k];
    assert Honest(w.At(s.sender), es, s);
    HonestBody(w, es, s);
    OkIsPlaintext(w.At(p), s.frame, generated);
    hide Inv, Honest, Openable, DecryptedSame, DecryptedNew;
    if s.frame.header.ratchetPublic == w.At(p).remoteDh {
      SameAccepts(w, es, p, s);
    } else {
      if Openable(w, p, s, generated) {
        NewAccepts(w, es, p, s, generated);
      }
      if Decrypted(w.At(p), s.frame, generated).1.Ok? {
        NewNeeds(w, es, p, k, generated);
      }
    }
  }

  lemma {:induction false} OkIsPlaintext(r: Ratchet, f: Frame, generated: Option<nat>)
    ensures Decrypted(r, f, generated).1.Ok? ==>
            f.ciphertext.Sealed? && Decrypted(r, f, generated).1.value == f.ciphertext.plaintext
  {
    hide RangeOf, Position;
  }

  lemma {:induction false} HonestBody(w: World, es: seq<Epoch>, s: SentFrame)
    requires Inv(w, es) && Honest(w.At(s.sender), es, s)
    ensures s.frame.ciphertext.Sealed? && s.frame.ciphertext.plaintext == s.plaintext
    ensures s.frame.ciphertext.aad == s.frame.header
    ensures forall p: Party ::
              s.frame.header.sessionId == w.At(p).sessionId && s.frame.ciphertext.suite == w.At(p).suite
  {
  }

  lemma {:induction false} SameAccepts(w: World, es: seq<Epoch>, p: Party, s: SentFrame)
    requires Inv(w, es) && Honest(w.At(s.sender), es, s) && s.frame.header.ratchetPublic == w.At(p).remoteDh
    ensures DecryptedSame(w.At(p), s.frame).1.Ok? <==> Openable(w, p, s, None)
    ensures forall g :: Openable(w, p, s, g) == Openable(w, p, s, None)
  {
    var r, n := w.At(p), s.frame.header.messageNumber;
    var base := es[Listening(es, p)].base;
    assert PartyInv(r, w.At(Other(p)), es, p, OpenedBy(w.received, p));
    HonestUnderRemote(w, es, p, s);
    hide Inv, Honest, Endpoint, SkippedInv;
    assert s.frame.Open(KeyAt(base, n)).Ok?;
    if n < r.receivingCount {
      RetainedOpens(r, OpenedBy(w.received, p), s.frame, base);
    } else {
      KeyFromBase(r, base, n);
    }
  }

  lemma {:induction false} RetainedOpens(r: Ratchet, consumed: set<FrameId>, f: Frame, base: Secret)
    requires f.header.ratchetPublic == r.remoteDh && f.header.messageNumber < r.receivingCount
    requires OnChain(r.skipped, r.remoteDh, r.receivingCount, base)
    requires Accounted(r.remoteDh, r.receivingCount, Retained(r.skipped), consumed)
    requires f.Open(KeyAt(base, f.header.messageNumber)).Ok?
    ensures DecryptedSkipped(r, f).1.Ok? <==> IdOf(f) !in consumed
  {
    var i := Position(r.skipped, r.remoteDh, f.header.messageNumber);
    assert i < |r.skipped| <==> IdOf(f) in Retained(r.skipped) by {
      if i < |r.skipped| {
        assert KeyIdOf(r.skipped[i]) == IdOf(f);
      }
    }
  }

  lemma {:induction false} NewAccepts(w: World, es: seq<Epoch>, p: Party, s: SentFrame, generated: Option<nat>)
    requires Inv(w, es) && Honest(w.At(s.sender), es, s) && s.frame.header.ratchetPublic != w.At(p).remoteDh
    requires Openable(w, p, s, generated)
    ensures Decrypted(w.At(p), s.frame, generated).1.Ok?
  {
    var r, peer, h := w.At(p), w.At(Other(p)), s.frame.header;
    AheadFacts(w, es, p, s);
    HonestBody(w, es, s);
    hide Inv, Honest;
    var base := es[|es| - 1].base;
    assert s.frame.Open(KeyAt(base, h.messageNumber)).Ok?;
    assert RootStep(r.rootKey, DiffieHellman(r.dhPair, h.ratchetPublic).value).1 == base;
  }

  lemma {:induction false} AheadFacts(w: World, es: seq<Epoch>, p: Party, s: SentFrame)
    requires Inv(w, es) && Honest(w.At(s.sender), es, s) && s.frame.header.ratchetPublic != w.At(p).remoteDh
    requires s.frame.header.ratchetPublic == Generated(w.At(Other(p)).dhPair)
    ensures FromEpoch(w.At(s.sender), es, s, |es| - 1) && |es| >= 3 && s.sender == Other(p)
    ensures var r := w.At(p);
            && r.dhPair == es[|es| - 2].key && r.rootKey == es[|es| - 2].root
            && (es[|es| - 1].root, es[|es| - 1].base) == RootStep(r.rootKey, Pair(es[|es| - 1].key, r.dhPair))
            && r.receivingCount <= w.At(Other(p)).previousSendingChainLen == s.frame.header.previousChainLen
  {
    var e :| FromEpoch(w.At(s.sender), es, s, e);
    assert PartyInv(w.At(p), w.At(Other(p)), es, p, OpenedBy(w.received, p));
    assert Endpoint(w.At(Other(p)), es, Other(p));
    LengthsAgree(w, es, p);
    hide SentInv, ReceivedInv, PartiesInv, SkippedInv, OnChain, Accounted, Honest;
    assert e == |es| - 1;
  }

  lemma {:induction false} NewNeeds(w: World, es: seq<Epoch>, p: Party, k: nat, generated: Option<nat>)
    requires Inv(w, es) && k < |w.sent| && w.sent[k].frame.header.ratchetPublic != w.At(p).remoteDh
    requires Decrypted(w.At(p), w.sent[k].frame, generated).1.Ok?
    ensures Openable(w, p, w.sent[k], generated)
  {
    var f := w.sent[k].frame;
    assert Available(w, f);
    var i := NewIsFromAhead(w, es, p, f, generated);
    assert DistinctIds(w.sent);
    assert i == k;
    assert Endpoint(w.At(Other(p)), es, Other(p));
    hide Inv;
  }
}
