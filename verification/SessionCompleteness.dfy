/** In a run every number of a chain, up to its length, was really sent. */
module SessionCompleteness {
  import opened Common
  import opened KeyTerms
  import opened Schedule
  import opened Ratchet
  import opened Session
  import opened SessionInvariant
  import opened SessionDelivery

  /** The peer's length of the chain that `r` receives on. */
  function ChainLength(r: Ratchet, peer: Ratchet): u32 {
    if r.remoteDh == Generated(peer.dhPair) then peer.sendingCount else peer.previousSendingChainLen
  }

  ghost predicate WasSent(sent: seq<SentFrame>, sender: Party, id: FrameId) {
    exists k :: 0 <= k < |sent| && sent[k].sender == sender && IdOf(sent[k].frame) == id
  }

  /** `sender` sent the numbers below `n` under `key`. */
  ghost predicate AllSent(sent: seq<SentFrame>, sender: Party, key: PublicKey, n: u32) {
    forall i: u32 :: i < n ==> WasSent(sent, sender, FrameId(key, i))
  }

  ghost predicate PartyComplete(sent: seq<SentFrame>, r: Ratchet, peer: Ratchet, p: Party) {
    && AllSent(sent, p, Generated(r.dhPair), r.sendingCount)
    && AllSent(sent, Other(p), r.remoteDh, ChainLength(r, peer))
  }

  ghost predicate Complete(w: World) {
    PartyComplete(w.sent, w.alice, w.bob, Alice) && PartyComplete(w.sent, w.bob, w.alice, Bob)
  }

  lemma {:induction false} AllSentGrows(sent: seq<SentFrame>, more: seq<SentFrame>, sender: Party, key: PublicKey,
                                        n: u32)
    requires AllSent(sent, sender, key, n)
    ensures AllSent(sent + more, sender, key, n)
  {
    forall i: u32 | i < n
      ensures WasSent(sent + more, sender, FrameId(key, i))
    {
      assert WasSent(sent, sender, FrameId(key, i));
      var k :| 0 <= k < |sent| && sent[k].sender == sender && IdOf(sent[k].frame) == FrameId(key, i);
      assert (sent + more)[k] == sent[k];
    }
  }

  lemma {:induction false} AllSentNext(sent: seq<SentFrame>, s: SentFrame, key: PublicKey, n: u32)
    requires AllSent(sent, s.sender, key, n) && IdOf(s.frame) == FrameId(key, n) && n < U32_MAX
    ensures AllSent(sent + [s], s.sender, key, n + 1)
  {
    AllSentGrows(sent, [s], s.sender, key, n);
    assert (sent + [s])[|sent|] == s;
    assert WasSent(sent + [s], s.sender, FrameId(key, n));
  }

  lemma {:induction false} EncryptComplete(w: World, e: Event)
    requires Complete(w) && e.Encrypt?
    ensures Complete(Step(w, e))
  {
    var p := e.sender;
    var r, peer := w.At(p), w.At(Other(p));
    var (r', outcome) := Encrypted(r, e.kind, e.plaintext, e.nonceReady);
    if outcome.Ok? {
      var s := SentFrame(p, e.kind, e.plaintext, outcome.value);
      hide AllSent;
      AllSentGrows(w.sent, [s], Other(p), Generated(peer.dhPair), peer.sendingCount);
      AllSentGrows(w.sent, [s], Other(p), r.remoteDh, ChainLength(r, peer));
      AllSentGrows(w.sent, [s], p, peer.remoteDh, ChainLength(peer, r));
      AllSentNext(w.sent, s, Generated(r.dhPair), r.sendingCount);
    }
  }

  lemma {:induction false} NoneSent(sent: seq<SentFrame>, sender: Party, key: PublicKey)
    ensures AllSent(sent, sender, key, 0)
  {
  }

  /**
   `p` starts a sending chain under a new key, while its peer listens to its old
   key: the peer's chain is now the previous one, with its full length announced.
   */
  lemma {:induction false} NewChainComplete(sent: seq<SentFrame>, r: Ratchet, peer: Ratchet, r': Ratchet, p: Party)
    requires PartyComplete(sent, r, peer, p) && PartyComplete(sent, peer, r, Other(p))
    requires peer.remoteDh == Generated(r.dhPair) && r'.dhPair != r.dhPair
    requires r'.sendingCount == 0 && r'.previousSendingChainLen == r.sendingCount
    requires r'.remoteDh == r.remoteDh || r'.remoteDh == Generated(peer.dhPair)
    ensures PartyComplete(sent, r', peer, p) && PartyComplete(sent, peer, r', Other(p))
  {
    hide AllSent;
    NoneSent(sent, p, Generated(r'.dhPair));
  }

  /** Who may start a sending chain is heard by the peer under its present key, and draws a new one. */
  lemma {:induction false} RotateComplete(w: World, es: seq<Epoch>, e: Event)
    requires Inv(w, es) && Complete(w) && e.Rotate? && Allowed(w, e)
    ensures Complete(Step(w, e))
  {
    var p := e.rotator;
    var r, peer, r' := w.At(p), w.At(Other(p)), Rotated(w.At(p), e.generated).0;
    EqualRootsAreInitial(w, es);
    assert Endpoint(w.alice, es, Alice) && Endpoint(w.bob, es, Bob);
    hide SentInv, ReceivedInv, PartiesInv, AllSent;
    if r' != r {
      NewChainComplete(w.sent, r, peer, r', p);
    }
  }

  lemma {:induction false} DeliverComplete(w: World, es: seq<Epoch>, e: Event)
    requires Inv(w, es) && Complete(w) && e.Deliver? && Allowed(w, e)
    ensures Complete(Step(w, e))
  {
    var p := e.receiver;
    var r, peer := w.At(p), w.At(Other(p));
    var (r', outcome) := Decrypted(r, e.frame, e.generated);
    hide AllSent, Inv;
    if e.frame.header.ratchetPublic == r.remoteDh || outcome.Err? {
      SendingKept(r, e.frame, e.generated);
    } else {
      var k := NewIsFromAhead(w, es, p, e.frame, e.generated);
      NewSendingChain(w, es, p, e.frame, e.generated);
      hide Decrypted;
      NewChainComplete(w.sent, r, peer, r', p);
    }
  }

  lemma {:induction false} SendingKept(r: Ratchet, f: Frame, generated: Option<nat>)
    requires f.header.ratchetPublic == r.remoteDh || Decrypted(r, f, generated).1.Err?
    ensures var r' := Decrypted(r, f, generated).0;
            && r'.dhPair == r.dhPair && r'.remoteDh == r.remoteDh && r'.sendingCount == r.sendingCount
            && r'.previousSendingChainLen == r.previousSendingChainLen
  {
    hide RangeOf, Position, WithRemote;
  }

  lemma {:induction false} NewSendingChain(w: World, es: seq<Epoch>, p: Party, f: Frame, generated: Option<nat>)
    requires Inv(w, es) && FreshIn(w, generated)
    requires f.header.ratchetPublic != w.At(p).remoteDh && Decrypted(w.At(p), f, generated).1.Ok?
    requires |es| >= 3 && es[|es| - 2].sender == p && f.header.ratchetPublic == Generated(es[|es| - 1].key)
    ensures var r, peer, r' := w.At(p), w.At(Other(p)), Decrypted(w.At(p), f, generated).0;
            && peer.remoteDh == Generated(r.dhPair) && r'.dhPair != r.dhPair
            && r'.sendingCount == 0 && r'.previousSendingChainLen == r.sendingCount
            && r'.remoteDh == Generated(peer.dhPair)
  {
    assert Endpoint(w.alice, es, Alice) && Endpoint(w.bob, es, Bob);
    hide SentInv, ReceivedInv, PartiesInv;
  }

  lemma {:induction false} CompleteStep(w: World, es: seq<Epoch>, e: Event)
    requires Inv(w, es) && Complete(w) && Allowed(w, e)
    ensures Complete(Step(w, e))
  {
    hide Inv, Step, Allowed, Complete;
    match e {
      case Encrypt(_, _, _, _) => EncryptComplete(w, e);
      case Deliver(_, _, _) => DeliverComplete(w, es, e);
      case Rotate(_, _) => RotateComplete(w, es, e);
    }
  }

  lemma {:induction false} RunComplete(w: World, es: seq<Epoch>, events: seq<Event>, end: World)
    requires Inv(w, es) && Complete(w) && Reaches(w, events, end)
    ensures Complete(end)
    decreases |events|
  {
    hide Inv, Step, Allowed, Complete;
    if |events| > 0 {
      CompleteStep(w, es, events[0]);
      var mid := SessionDelivery.StepInv(w, es, events[0]);
      RunComplete(Step(w, events[0]), mid, events[1..], end);
    }
  }

  /** In every reachable world all numbers below each chain's length were sent. */
  lemma {:induction false} ReachableComplete(w: World)
    requires Reachable(w)
    ensures Complete(w)
  {
    var start, events :| IsStart(start) && Reaches(start, events, w);
    var es := StartInv(start);
    assert Complete(start);
    hide Inv, IsStart, Complete, Reachable;
    RunComplete(start, es, events, w);
  }
}
