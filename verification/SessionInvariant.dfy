/**
 The inductive invariant of a run. A run is explained by its epochs, the
 sending chains in the order they were started: the first two come from the
 handshake, each later one from a root step.
 */
module SessionInvariant {
  import opened Common
  import opened KeyTerms
  import opened Schedule
  import opened Ratchet
  import opened Session

  datatype Epoch = Epoch(sender: Party, key: nat, root: Secret, base: Secret)

  function Depth(i: nat): nat {
    if i == 0 then 0 else i - 1
  }

  /** Index of the epoch `p` now sends in. */
  function Current(es: seq<Epoch>, p: Party): nat
    requires |es| >= 2
  {
    if es[|es| - 1].sender == p then |es| - 1 else |es| - 2
  }

  /** Index of the epoch `p` now receives from. */
  function Listening(es: seq<Epoch>, p: Party): nat
    requires |es| >= 2
  {
    if Current(es, p) == 0 then 1 else Current(es, p) - 1
  }

  predicate LastLink(es: seq<Epoch>)
    requires |es| >= 2
  {
    var m := |es|;
    if m == 2 then es[0].root == es[1].root
    else
      && es[m - 3].sender == es[m - 1].sender
      && (es[m - 1].root, es[m - 1].base) == RootStep(es[m - 2].root, Pair(es[m - 1].key, es[m - 2].key))
  }

  ghost predicate History(es: seq<Epoch>, used: set<nat>) {
    && |es| >= 2
    && es[|es| - 2].sender == Other(es[|es| - 1].sender)
    && LastLink(es)
    && es[0].base != es[1].base
    && (forall i :: 0 <= i < |es| ==>
          && Level(es[i].root) == Depth(i) && Level(es[i].base) == Depth(i)
          && !es[i].base.NextChain? && es[i].key in used)
    && (forall i, j :: 0 <= i < j < |es| ==> es[i].key != es[j].key)
  }

  /** One endpoint's keys and chains are those of the epochs it sends in and listens to. */
  predicate Endpoint(r: Ratchet, es: seq<Epoch>, p: Party)
    requires |es| >= 2
  {
    var i, j := Current(es, p), Listening(es, p);
    && r.dhPair == es[i].key
    && r.rootKey == es[i].root
    && r.remoteDh == Generated(es[j].key)
    && (r.sendingCount < U32_MAX ==> r.sendingChain == Advance(es[i].base, r.sendingCount))
    && r.receivingChain == Advance(es[j].base, r.receivingCount)
  }

  /** How many messages `peer`, the peer of `p`, has sent in the epoch `p` listens to. */
  function PeerLength(peer: Ratchet, es: seq<Epoch>, p: Party): u32
    requires |es| >= 2
  {
    if Listening(es, p) == Current(es, Other(p)) then peer.sendingCount else peer.previousSendingChainLen
  }

  /** `s` is an honest frame of epoch `e`, numbered below that epoch's length; `r` is its sender. */
  predicate FromEpoch(r: Ratchet, es: seq<Epoch>, s: SentFrame, e: nat)
    requires |es| >= 2
  {
    var h := s.frame.header;
    && e < |es|
    && s.sender == es[e].sender
    && h.ratchetPublic == Generated(es[e].key)
    && h.kind == s.kind && h.sessionId == r.sessionId
    && s.frame.ciphertext == Sealed(r.suite, KeyAt(es[e].base, h.messageNumber), h, s.plaintext)
    && h.messageNumber < U32_MAX
    && (e == Current(es, s.sender) ==>
          h.messageNumber < r.sendingCount && h.previousChainLen == r.previousSendingChainLen)
    && (e + 3 == |es| ==> h.messageNumber < r.previousSendingChainLen)
  }

  ghost predicate Honest(r: Ratchet, es: seq<Epoch>, s: SentFrame)
    requires |es| >= 2
  {
    exists e :: FromEpoch(r, es, s, e)
  }

  ghost predicate SentInv(w: World, es: seq<Epoch>)
    requires |es| >= 2
  {
    && (forall k :: 0 <= k < |w.sent| ==> Honest(w.At(w.sent[k].sender), es, w.sent[k]))
    && DistinctIds(w.sent)
  }

  ghost predicate DistinctIds(sent: seq<SentFrame>) {
    forall a, b :: 0 <= a < b < |sent| ==> IdOf(sent[a].frame) != IdOf(sent[b].frame)
  }

  /** `key` is one of the peer's ratchet keys that `p` has listened to. */
  ghost predicate Heard(es: seq<Epoch>, p: Party, key: PublicKey)
    requires |es| >= 2
  {
    exists e :: 0 <= e <= Listening(es, p) < |es| && es[e].sender == Other(p) && key == Generated(es[e].key)
  }

  ghost predicate SkippedInv(skipped: seq<SkippedMessageKey>, es: seq<Epoch>, p: Party)
    requires |es| >= 2
  {
    && |skipped| <= MAX_SKIPPED_KEYS
    && UniqueKeys(skipped)
    && (forall a :: 0 <= a < |skipped| ==> Heard(es, p, skipped[a].remoteDh))
  }

  /** Keys retained for the current remote key are below the count and lie on its chain. */
  ghost predicate OnChain(skipped: seq<SkippedMessageKey>, remote: PublicKey, count: u32, base: Secret) {
    forall a :: 0 <= a < |skipped| && skipped[a].remoteDh == remote ==>
      && skipped[a].messageNumber < count
      && skipped[a].key == KeyAt(base, skipped[a].messageNumber)
  }

  /** A receipt copies an honest frame of the peer. */
  ghost predicate Genuine(sent: seq<SentFrame>, x: Receipt) {
    exists k :: 0 <= k < |sent| && sent[k] == SentFrame(Other(x.receiver), x.frame.header.kind, x.plaintext, x.frame)
  }

  ghost predicate ReceivedInv(received: seq<Receipt>, sent: seq<SentFrame>, es: seq<Epoch>)
    requires |es| >= 2
  {
    && (forall k :: 0 <= k < |received| ==>
          && Genuine(sent, received[k])
          && Heard(es, received[k].receiver, received[k].frame.header.ratchetPublic))
    && OpenedOnce(received)
  }

  ghost predicate OpenedOnce(received: seq<Receipt>) {
    forall a, b :: 0 <= a < b < |received| && received[a].receiver == received[b].receiver ==>
      IdOf(received[a].frame) != IdOf(received[b].frame)
  }

  /** Of one remote key, the numbers below the count are consumed or retained, the others neither. */
  ghost predicate Accounted(remote: PublicKey, count: u32, retained: set<FrameId>, consumed: set<FrameId>) {
    forall n: u32 ::
      if n < count then (FrameId(remote, n) in consumed) != (FrameId(remote, n) in retained)
      else FrameId(remote, n) !in consumed && FrameId(remote, n) !in retained
  }

  /** What holds of the endpoint `r` of `p`, given its peer and the frames it has opened. */
  ghost predicate PartyInv(r: Ratchet, peer: Ratchet, es: seq<Epoch>, p: Party, consumed: set<FrameId>)
    requires |es| >= 2
  {
    && Endpoint(r, es, p)
    && r.receivingCount <= PeerLength(peer, es, p)
    && SkippedInv(r.skipped, es, p)
    && OnChain(r.skipped, r.remoteDh, r.receivingCount, es[Listening(es, p)].base)
    && Accounted(r.remoteDh, r.receivingCount, Retained(r.skipped), consumed)
  }

  ghost predicate PartiesInv(w: World, es: seq<Epoch>)
    requires |es| >= 2
  {
    && PartyInv(w.alice, w.bob, es, Alice, OpenedBy(w.received, Alice))
    && PartyInv(w.bob, w.alice, es, Bob, OpenedBy(w.received, Bob))
  }

  ghost predicate Inv(w: World, es: seq<Epoch>) {
    && |es| >= 2
    && History(es, w.used)
    && w.alice.sessionId == w.bob.sessionId && w.alice.suite == w.bob.suite
    && SentInv(w, es)
    && ReceivedInv(w.received, w.sent, es)
    && PartiesInv(w, es)
  }

  // ---- the start -------------------------------------------------------------------------

  lemma {:induction false} StartInv(w: World) returns (es: seq<Epoch>)
    requires IsStart(w)
    ensures Inv(w, es)
  {
    var root := w.alice.rootKey;
    es := [Epoch(Alice, w.alice.dhPair, root, w.alice.sendingChain),
           Epoch(Bob, w.bob.dhPair, root, w.bob.sendingChain)];
    assert OpenedBy(w.received, Alice) == {} && OpenedBy(w.received, Bob) == {};
  }

  lemma {:induction false} ReceivedStays(received: seq<Receipt>, sent: seq<SentFrame>, more: seq<SentFrame>,
                                         es: seq<Epoch>)
    requires |es| >= 2 && ReceivedInv(received, sent, es)
    ensures ReceivedInv(received, sent + more, es)
  {
    forall k | 0 <= k < |received|
      ensures Genuine(sent + more, received[k])
    {
      var x := received[k];
      assert Genuine(sent, x);
      var i :| 0 <= i < |sent| && sent[i] == SentFrame(Other(x.receiver), x.frame.header.kind, x.plaintext, x.frame);
      assert (sent + more)[i] == sent[i];
    }
  }

  // ---- encrypting ------------------------------------------------------------------------

  lemma {:induction false} EncryptInv(w: World, es: seq<Epoch>, e: Event)
    requires Inv(w, es) && e.Encrypt?
    ensures Inv(Step(w, e), es)
  {
    hide PartyInv, SentInv, ReceivedInv, History;
    var p := e.sender;
    var w' := Step(w, e);
    assert w'.sent == w.sent + w'.sent[|w.sent|..];
    ReceivedStays(w.received, w.sent, w'.sent[|w.sent|..], es);
    EncryptSent(w, es, e);
    EncryptParty(w.At(p), w.At(Other(p)), es, p, OpenedBy(w.received, p), OpenedBy(w.received, Other(p)), e);
  }

  lemma {:induction false} EncryptParty(r: Ratchet, peer: Ratchet, es: seq<Epoch>, p: Party,
                     consumed: set<FrameId>, peerConsumed: set<FrameId>, e: Event)
    requires |es| >= 2 && e.Encrypt?
    requires PartyInv(r, peer, es, p, consumed) && PartyInv(peer, r, es, Other(p), peerConsumed)
    ensures var r' := Encrypted(r, e.kind, e.plaintext, e.nonceReady).0;
            PartyInv(r', peer, es, p, consumed) && PartyInv(peer, r', es, Other(p), peerConsumed)
  {
    hide SkippedInv, OnChain, Accounted;
  }

  /** Encrypting keeps old frames honest, and none of them has the id the next frame gets. */
  lemma {:induction false} EncryptHonest(r: Ratchet, es: seq<Epoch>, s: SentFrame, p: Party, used: set<nat>,
                                         sender: Ratchet, e: Event)
    requires History(es, used) && Endpoint(r, es, p) && e.Encrypt?
    requires Honest(sender, es, s) && (s.sender == p ==> sender == r)
    ensures Honest(Encrypted(r, e.kind, e.plaintext, e.nonceReady).0, es, s) || s.sender != p
    ensures IdOf(s.frame) != FrameId(Generated(r.dhPair), r.sendingCount)
  {
    var i :| FromEpoch(sender, es, s, i);
    if s.sender == p {
      assert FromEpoch(Encrypted(r, e.kind, e.plaintext, e.nonceReady).0, es, s, i);
    }
  }

  lemma {:induction false} EncryptNew(r: Ratchet, es: seq<Epoch>, p: Party, used: set<nat>, e: Event)
    requires History(es, used) && Endpoint(r, es, p) && e.Encrypt?
    ensures var (r', outcome) := Encrypted(r, e.kind, e.plaintext, e.nonceReady);
            outcome.Ok? ==>
              && Honest(r', es, SentFrame(p, e.kind, e.plaintext, outcome.value))
              && IdOf(outcome.value) == FrameId(Generated(r.dhPair), r.sendingCount)
  {
    var (r', outcome) := Encrypted(r, e.kind, e.plaintext, e.nonceReady);
    if outcome.Ok? {
      assert FromEpoch(r', es, SentFrame(p, e.kind, e.plaintext, outcome.value), Current(es, p));
    }
  }

  lemma {:induction false} EncryptSent(w: World, es: seq<Epoch>, e: Event)
    requires Inv(w, es) && e.Encrypt?
    ensures SentInv(Step(w, e), es)
  {
    var w', p := Step(w, e), e.sender;
    assert PartiesInv(w, es) && Endpoint(w.At(p), es, p);
    hide SkippedInv, OnChain, Accounted, ReceivedInv, PartiesInv, Honest, History, Endpoint;
    EncryptNew(w.At(p), es, p, w.used, e);
    forall k | 0 <= k < |w.sent|
      ensures Honest(w'.At(w.sent[k].sender), es, w.sent[k])
      ensures IdOf(w.sent[k].frame) != FrameId(Generated(w.At(p).dhPair), w.At(p).sendingCount)
    {
      EncryptHonest(w.At(p), es, w.sent[k], p, w.used, w.At(w.sent[k].sender), e);
    }
  }

  // ---- starting an epoch -----------------------------------------------------------------

  /** The epoch list after `p`, who is not ahead, takes a root step with the new secret `k`. */
  function Extend(es: seq<Epoch>, p: Party, k: nat): (r: seq<Epoch>)
    requires |es| >= 2
    ensures |r| == |es| + 1 && r[..|es|] == es
  {
    var last := es[|es| - 1];
    var (root, base) := RootStep(last.root, Pair(k, last.key));
    es + [Epoch(p, k, root, base)]
  }

  lemma {:induction false} ExtendHistory(es: seq<Epoch>, used: set<nat>, p: Party, k: nat)
    requires History(es, used) && es[|es| - 2].sender == p && k !in used
    ensures History(Extend(es, p, k), used + {k})
  {
  }

  /** Old frames stay honest: the length of the chain that `p` leaves is now its previous length. */
  lemma {:induction false} ExtendHonest(r: Ratchet, r': Ratchet, es: seq<Epoch>, s: SentFrame, p: Party, k: nat)
    requires |es| >= 2 && es[|es| - 2].sender == p && es[|es| - 1].sender == Other(p)
    requires Honest(r, es, s)
    requires r'.sessionId == r.sessionId && r'.suite == r.suite
    requires if s.sender == p then r'.previousSendingChainLen == r.sendingCount else r' == r
    ensures Honest(r', Extend(es, p, k), s)
  {
    var e :| FromEpoch(r, es, s, e);
    assert FromEpoch(r', Extend(es, p, k), s, e);
  }

  lemma {:induction false} ExtendHeard(es: seq<Epoch>, p: Party, k: nat, q: Party, key: PublicKey, used: set<nat>)
    requires History(es, used) && es[|es| - 2].sender == p && k !in used
    requires Heard(es, q, key)
    ensures Heard(Extend(es, p, k), q, key) && key != Generated(k)
  {
    var e :| 0 <= e <= Listening(es, q) < |es| && es[e].sender == Other(q) && key == Generated(es[e].key);
    assert Extend(es, p, k)[e] == es[e];
  }

  lemma {:induction false} ExtendReceived(received: seq<Receipt>, sent: seq<SentFrame>, es: seq<Epoch>, p: Party,
                                          k: nat, used: set<nat>)
    requires |es| >= 2 && History(es, used) && es[|es| - 2].sender == p && k !in used
    requires ReceivedInv(received, sent, es)
    ensures ReceivedInv(received, sent, Extend(es, p, k))
  {
    hide Heard, History, Genuine, Extend;
    forall i | 0 <= i < |received|
      ensures Heard(Extend(es, p, k), received[i].receiver, received[i].frame.header.ratchetPublic)
    {
      ExtendHeard(es, p, k, received[i].receiver, received[i].frame.header.ratchetPublic, used);
    }
  }

  lemma {:induction false} ExtendSkipped(skipped: seq<SkippedMessageKey>, es: seq<Epoch>, p: Party, k: nat, q: Party,
                                         used: set<nat>)
    requires |es| >= 2 && History(es, used) && es[|es| - 2].sender == p && k !in used
    requires SkippedInv(skipped, es, q)
    ensures SkippedInv(skipped, Extend(es, p, k), q)
  {
    hide Heard, History, Extend;
    forall i | 0 <= i < |skipped|
      ensures Heard(Extend(es, p, k), q, skipped[i].remoteDh)
    {
      ExtendHeard(es, p, k, q, skipped[i].remoteDh, used);
    }
  }

  lemma {:induction false} ExtendSent(w: World, w': World, es: seq<Epoch>, p: Party, k: nat)
    requires |es| >= 2 && es[|es| - 2].sender == p && es[|es| - 1].sender == Other(p)
    requires SentInv(w, es) && w'.sent == w.sent && w'.At(Other(p)) == w.At(Other(p))
    requires w'.At(p).sessionId == w.At(p).sessionId && w'.At(p).suite == w.At(p).suite
    requires w'.At(p).previousSendingChainLen == w.At(p).sendingCount
    ensures SentInv(w', Extend(es, p, k))
  {
    hide Honest, Extend, DistinctIds;
    forall i | 0 <= i < |w'.sent|
      ensures Honest(w'.At(w'.sent[i].sender), Extend(es, p, k), w'.sent[i])
    {
      var s := w.sent[i];
      ExtendHonest(w.At(s.sender), w'.At(s.sender), es, s, p, k);
    }
  }

  /** The endpoint that is now a step behind keeps its invariant. */
  lemma {:induction false} ExtendPeer(q: Ratchet, r: Ratchet, r': Ratchet, es: seq<Epoch>, p: Party, k: nat,
                                      used: set<nat>, consumed: set<FrameId>)
    requires History(es, used) && es[|es| - 2].sender == p && k !in used
    requires PartyInv(q, r, es, Other(p), consumed)
    requires r'.previousSendingChainLen == r.sendingCount
    ensures PartyInv(q, r', Extend(es, p, k), Other(p), consumed)
  {
    hide SkippedInv, Accounted, OnChain;
    ExtendSkipped(q.skipped, es, p, k, Other(p), used);
  }

  // ---- rotating --------------------------------------------------------------------------

  /** Before the first root step the two epochs may be listed in either order. */
  lemma {:induction false} SwapInv(w: World, es: seq<Epoch>)
    requires Inv(w, es) && |es| == 2
    ensures Inv(w, [es[1], es[0]])
  {
    var es' := [es[1], es[0]];
    forall k | 0 <= k < |w.sent|
      ensures Honest(w.At(w.sent[k].sender), es', w.sent[k])
    {
      SwapHonest(w.At(w.sent[k].sender), es, w.sent[k]);
    }
    forall p: Party, key | Heard(es, p, key)
      ensures Heard(es', p, key)
    {
      SwapHeard(es, p, key);
    }
    hide Heard, Honest, Accounted, OnChain;
  }

  lemma {:induction false} SwapHonest(r: Ratchet, es: seq<Epoch>, s: SentFrame)
    requires |es| == 2 && es[0].sender == Other(es[1].sender) && Honest(r, es, s)
    ensures Honest(r, [es[1], es[0]], s)
  {
    var e: nat :| FromEpoch(r, es, s, e);
    assert [es[1], es[0]][1 - e] == es[e];
    assert FromEpoch(r, [es[1], es[0]], s, 1 - e);
  }

  lemma {:induction false} SwapHeard(es: seq<Epoch>, p: Party, key: PublicKey)
    requires |es| == 2 && es[0].sender == Other(es[1].sender) && Heard(es, p, key)
    ensures Heard([es[1], es[0]], p, key)
  {
    var e :| 0 <= e <= Listening(es, p) < |es| && es[e].sender == Other(p) && key == Generated(es[e].key);
    assert [es[1], es[0]][1 - e] == es[e];
  }

  /** Equal roots mean that no root step was taken. */
  lemma {:induction false} EqualRootsAreInitial(w: World, es: seq<Epoch>)
    requires Inv(w, es)
    ensures RootsEqual(w) <==> |es| == 2
  {
    assert Endpoint(w.alice, es, Alice) && Endpoint(w.bob, es, Bob);
    hide SentInv, ReceivedInv, PartiesInv;
    var m := |es|;
    assert Level(es[m - 1].root) == Depth(m - 1) && Level(es[m - 2].root) == Depth(m - 2);
  }

  lemma {:induction false} RotateInv(w: World, es: seq<Epoch>, e: Event) returns (es': seq<Epoch>)
    requires Inv(w, es) && e.Rotate? && Allowed(w, e)
    ensures Inv(Step(w, e), es')
  {
    var p := e.rotator;
    EqualRootsAreInitial(w, es);
    es' := es;
    if es[0].sender != p {
      SwapInv(w, es);
      es' := [es[1], es[0]];
    }
    if e.generated.Some? {
      RotateOrdered(w, es', e);
      es' := Extend(es', p, e.generated.value);
    }
  }

  lemma {:induction false} RotateOrdered(w: World, es: seq<Epoch>, e: Event)
    requires Inv(w, es) && e.Rotate? && Allowed(w, e) && e.generated.Some?
    requires |es| == 2 && es[0].sender == e.rotator
    ensures Inv(Step(w, e), Extend(es, e.rotator, e.generated.value))
  {
    var p, k := e.rotator, e.generated.value;
    var w', r, peer := Step(w, e), w.At(p), w.At(Other(p));
    assert PartyInv(r, peer, es, p, OpenedBy(w.received, p));
    assert PartyInv(peer, r, es, Other(p), OpenedBy(w.received, Other(p)));
    RotateParty(r, peer, es, p, k, w.used, OpenedBy(w.received, p));
    ExtendHistory(es, w.used, p, k);
    hide PartyInv, SentInv, ReceivedInv, Extend;
    ExtendSent(w, w', es, p, k);
    ExtendReceived(w.received, w.sent, es, p, k, w.used);
    ExtendPeer(peer, r, w'.At(p), es, p, k, w.used, OpenedBy(w.received, Other(p)));
  }

  lemma {:induction false} RotateParty(r: Ratchet, peer: Ratchet, es: seq<Epoch>, p: Party, k: nat, used: set<nat>,
                                       consumed: set<FrameId>)
    requires History(es, used) && |es| == 2 && es[0].sender == p && k !in used
    requires PartyInv(r, peer, es, p, consumed)
    ensures Rotated(r, Some(k)).1.Ok? && Rotated(r, Some(k)).0.previousSendingChainLen == r.sendingCount
    ensures PartyInv(Rotated(r, Some(k)).0, peer, Extend(es, p, k), p, consumed)
  {
    hide SkippedInv, OnChain, Accounted;
    ExtendSkipped(r.skipped, es, p, k, p, used);
  }
}
