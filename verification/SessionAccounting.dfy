/**
 Frames and keys of superseded ratchet keys: each frame is opened or its key is
 retained, and a key retained so stays for the rest of the run.
 */
module SessionAccounting {
  import opened Common
  import opened KeyTerms
  import opened Schedule
  import opened Ratchet
  import opened Session
  import opened SessionInvariant
  import opened SessionDelivery
  import opened SessionCompleteness
  import opened SessionTheorems

  /** `x` is the key of a frame that `sender` sent. */
  ghost predicate FromSent(sent: seq<SentFrame>, sender: Party, x: SkippedMessageKey) {
    exists k :: 0 <= k < |sent| && KeyOfSent(sent[k], sender, x)
  }

  predicate KeyOfSent(s: SentFrame, sender: Party, x: SkippedMessageKey) {
    && s.sender == sender && IdOf(s.frame) == KeyIdOf(x)
    && s.frame.ciphertext.Sealed? && s.frame.ciphertext.key == x.key
  }

  ghost predicate AllFromSent(sent: seq<SentFrame>, sender: Party, skipped: seq<SkippedMessageKey>) {
    forall a :: 0 <= a < |skipped| ==> FromSent(sent, sender, skipped[a])
  }

  /** Frames under keys other than `remote` and `newest` are opened or retained, and never both. */
  ghost predicate Settled(sent: seq<SentFrame>, sender: Party, remote: PublicKey, newest: PublicKey,
                          retained: set<FrameId>, consumed: set<FrameId>)
  {
    forall k :: 0 <= k < |sent| && sent[k].sender == sender ==>
      var id := IdOf(sent[k].frame);
      id.ratchetPublic != remote && id.ratchetPublic != newest ==> (id in consumed) != (id in retained)
  }

  ghost predicate PartySettled(w: World, p: Party) {
    var r := w.At(p);
    && AllFromSent(w.sent, Other(p), r.skipped)
    && Settled(w.sent, Other(p), r.remoteDh, Generated(w.At(Other(p)).dhPair), Retained(r.skipped),
               OpenedBy(w.received, p))
  }

  // ---- retained keys belong to sent frames ----------------------------------------------------

  lemma {:induction false} FromSentGrows(sent: seq<SentFrame>, more: seq<SentFrame>, sender: Party,
                                         x: SkippedMessageKey)
    requires FromSent(sent, sender, x)
    ensures FromSent(sent + more, sender, x)
  {
    var k :| 0 <= k < |sent| && KeyOfSent(sent[k], sender, x);
    assert (sent + more)[k] == sent[k];
  }

  /** A number that was sent under the current remote key, with its key on the receiving chain's epoch. */
  lemma {:induction false} SentKeyFromBase(w: World, es: seq<Epoch>, p: Party, x: SkippedMessageKey)
    requires Inv(w, es) && x.remoteDh == w.At(p).remoteDh
    requires WasSent(w.sent, Other(p), KeyIdOf(x)) && x.key == KeyAt(es[Listening(es, p)].base, x.messageNumber)
    ensures FromSent(w.sent, Other(p), x)
  {
    var k :| 0 <= k < |w.sent| && w.sent[k].sender == Other(p) && IdOf(w.sent[k].frame) == KeyIdOf(x);
    assert Honest(w.At(w.sent[k].sender), es, w.sent[k]);
    HonestUnderRemote(w, es, p, w.sent[k]);
    hide Inv, Honest;
    assert KeyOfSent(w.sent[k], Other(p), x);
  }

  /** A key retained for the current remote key belongs to a sent frame. */
  lemma {:induction false} CurrentFromSent(w: World, es: seq<Epoch>, p: Party, a: nat)
    requires Inv(w, es) && Complete(w)
    requires a < |w.At(p).skipped| && w.At(p).skipped[a].remoteDh == w.At(p).remoteDh
    ensures FromSent(w.sent, Other(p), w.At(p).skipped[a])
  {
    var r, peer, x := w.At(p), w.At(Other(p)), w.At(p).skipped[a];
    assert PartyInv(r, peer, es, p, OpenedBy(w.received, p));
    LengthsAgree(w, es, p);
    assert x.messageNumber < ChainLength(r, peer);
    assert AllSent(w.sent, Other(p), r.remoteDh, ChainLength(r, peer));
    assert WasSent(w.sent, Other(p), FrameId(r.remoteDh, x.messageNumber));
    hide Inv, Endpoint, SkippedInv, Accounted, WasSent;
    SentKeyFromBase(w, es, p, x);
  }

  /** A key derived for the rest of the current chain belongs to a sent frame. */
  lemma {:induction false} DerivedFromSent(w: World, es: seq<Epoch>, p: Party, n: u32)
    requires Inv(w, es) && Complete(w)
    requires w.At(p).receivingCount <= n < ChainLength(w.At(p), w.At(Other(p)))
    ensures var r := w.At(p);
            FromSent(w.sent, Other(p),
                     SkippedMessageKey(r.remoteDh, n, KeyAt(r.receivingChain, n - r.receivingCount)))
  {
    var r := w.At(p);
    assert Endpoint(r, es, p);
    assert AllSent(w.sent, Other(p), r.remoteDh, ChainLength(r, w.At(Other(p))));
    assert WasSent(w.sent, Other(p), FrameId(r.remoteDh, n));
    KeyFromBase(r, es[Listening(es, p)].base, n);
    hide Inv, WasSent;
    SentKeyFromBase(w, es, p, SkippedMessageKey(r.remoteDh, n, KeyAt(r.receivingChain, n - r.receivingCount)));
  }

  // ---- what one delivery does to the retained list ---------------------------------------------

  /** The ranges that the new-ratchet path appends. */
  function OldRange(r: Ratchet, f: Frame): seq<SkippedMessageKey>
    requires r.receivingCount <= f.header.previousChainLen
  {
    WithRemote(r.remoteDh, KeysBetween(r.receivingChain, r.receivingCount, f.header.previousChainLen))
  }

  lemma {:induction false} NewAppends(r: Ratchet, f: Frame, generated: Option<nat>) returns (base: Secret)
    requires f.header.ratchetPublic != r.remoteDh && Decrypted(r, f, generated).1.Ok?
    ensures r.receivingCount <= f.header.previousChainLen
    ensures var r' := Decrypted(r, f, generated).0;
            && r'.skipped == r.skipped + OldRange(r, f)
                             + WithRemote(f.header.ratchetPublic, KeysBetween(base, 0, f.header.messageNumber))
            && r'.remoteDh == f.header.ratchetPublic
  {
    base := RootStep(r.rootKey, DiffieHellman(r.dhPair, f.header.ratchetPublic).value).1;
    hide WithRemote, KeysBetween;
  }

  /** Under the current remote key a delivery keeps every entry of another key, and adds none. */
  lemma {:induction false} SameKeepsOthers(r: Ratchet, f: Frame, generated: Option<nat>, x: SkippedMessageKey)
    requires f.header.ratchetPublic == r.remoteDh || Decrypted(r, f, generated).1.Err?
    requires x.remoteDh != r.remoteDh
    ensures Decrypted(r, f, generated).0.remoteDh == r.remoteDh
    ensures x in Decrypted(r, f, generated).0.skipped <==> x in r.skipped
  {
    var r' := Decrypted(r, f, generated).0;
    if f.header.ratchetPublic == r.remoteDh && Decrypted(r, f, generated).1.Ok? {
      if f.header.messageNumber < r.receivingCount {
        var i := Position(r.skipped, r.remoteDh, f.header.messageNumber);
        RemovedIn(r.skipped, i, x);
      } else {
        hide KeysBetween, Position;
        var range := RangeOf(r.receivingChain, r.receivingCount, f.header.messageNumber, |r.skipped|).value.1;
        assert r'.skipped == r.skipped + WithRemote(r.remoteDh, range);
      }
    }
  }

  lemma {:induction false} RemovedIn(s: seq<SkippedMessageKey>, i: nat, x: SkippedMessageKey)
    requires i < |s| && x != s[i]
    ensures x in RemoveAt(s, i) <==> x in s
  {
    var t := RemoveAt(s, i);
    if x in s {
      var k :| 0 <= k < |s| && s[k] == x;
      assert t[if k < i then k else k - 1] == x;
    }
  }

  lemma {:induction false} RetainedIff(s: seq<SkippedMessageKey>, id: FrameId)
    ensures id in Retained(s) <==> exists x :: x in s && KeyIdOf(x) == id
  {
    if id in Retained(s) {
      var k :| 0 <= k < |s| && KeyIdOf(s[k]) == id;
      assert s[k] in s;
    }
  }

  // ---- stale keys stay --------------------------------------------------------------------------

  /** One step keeps every entry that is retained for another key than the current one. */
  lemma {:induction false} StaleStep(w: World, es: seq<Epoch>, e: Event, p: Party, x: SkippedMessageKey)
    requires Inv(w, es) && Allowed(w, e)
    requires x in w.At(p).skipped && x.remoteDh != w.At(p).remoteDh
    ensures x in Step(w, e).At(p).skipped && x.remoteDh != Step(w, e).At(p).remoteDh
  {
    hide Inv;
    if e.Deliver? && e.receiver == p {
      var r, f := w.At(p), e.frame;
      if f.header.ratchetPublic == r.remoteDh || Decrypted(r, f, e.generated).1.Err? {
        SameKeepsOthers(r, f, e.generated, x);
      } else {
        var base := NewAppends(r, f, e.generated);
        StaleNotNewest(w, es, p, f, e.generated, x);
        hide Decrypted;
      }
    }
  }

  lemma {:induction false} StaleNotNewest(w: World, es: seq<Epoch>, p: Party, f: Frame, generated: Option<nat>,
                                          x: SkippedMessageKey)
    requires Inv(w, es) && Available(w, f) && x in w.At(p).skipped
    requires f.header.ratchetPublic != w.At(p).remoteDh && Decrypted(w.At(p), f, generated).1.Ok?
    ensures x.remoteDh != f.header.ratchetPublic
  {
    var k := NewIsFromAhead(w, es, p, f, generated);
    var a :| 0 <= a < |w.At(p).skipped| && w.At(p).skipped[a] == x;
    assert PartyInv(w.At(p), w.At(Other(p)), es, p, OpenedBy(w.received, p));
    assert Heard(es, p, x.remoteDh);
    NewestIsPeers(w, es, p);
    HeardIsNotAhead(w, es, p, x.remoteDh);
  }

  lemma {:induction false} NewestIsPeers(w: World, es: seq<Epoch>, p: Party)
    requires Inv(w, es) && es[|es| - 1].sender == Other(p)
    ensures w.At(Other(p)).dhPair == es[|es| - 1].key
  {
    assert Endpoint(w.At(Other(p)), es, Other(p));
    hide SentInv, ReceivedInv, PartiesInv;
  }

  /** Once a key is retained under a superseded ratchet key it stays retained, for the rest of any run. */
  lemma {:induction false} StaleKeysStay(w: World, events: seq<Event>, end: World, p: Party, x: SkippedMessageKey)
    requires Reachable(w) && Reaches(w, events, end)
    requires x in w.At(p).skipped && x.remoteDh != w.At(p).remoteDh
    ensures x in end.At(p).skipped && x.remoteDh != end.At(p).remoteDh
  {
    var es := ReachableInv(w);
    hide Reachable;
    StaleRun(w, es, events, end, p, x);
  }

  lemma {:induction false} StaleRun(w: World, es: seq<Epoch>, events: seq<Event>, end: World, p: Party,
                                    x: SkippedMessageKey)
    requires Inv(w, es) && Reaches(w, events, end)
    requires x in w.At(p).skipped && x.remoteDh != w.At(p).remoteDh
    ensures x in end.At(p).skipped && x.remoteDh != end.At(p).remoteDh
    decreases |events|
  {
    hide Inv, Step, Allowed;
    if |events| > 0 {
      var mid := StepInv(w, es, events[0]);
      StaleStep(w, es, events[0], p, x);
      StaleRun(Step(w, events[0]), mid, events[1..], end, p, x);
    }
  }

  /** The retained entries of other keys than `remote`, and those of `remote`. */
  function Stale(skipped: seq<SkippedMessageKey>, remote: PublicKey): set<SkippedMessageKey> {
    set x | x in skipped && x.remoteDh != remote
  }

  function Live(skipped: seq<SkippedMessageKey>, remote: PublicKey): set<SkippedMessageKey> {
    set x | x in skipped && x.remoteDh == remote
  }

  /** So the room for gaps in the current chain only shrinks: stale entries of now count against it for ever. */
  lemma {:induction false} RoomOnlyShrinks(w: World, events: seq<Event>, end: World, p: Party)
    requires Reachable(w) && Reaches(w, events, end)
    ensures var r, r' := w.At(p), end.At(p);
            && Stale(r.skipped, r.remoteDh) <= Stale(r'.skipped, r'.remoteDh)
            && |Live(r'.skipped, r'.remoteDh)| + |Stale(r.skipped, r.remoteDh)| <= MAX_SKIPPED_KEYS
  {
    var r, r' := w.At(p), end.At(p);
    forall x | x in Stale(r.skipped, r.remoteDh)
      ensures x in Stale(r'.skipped, r'.remoteDh)
    {
      StaleKeysStay(w, events, end, p, x);
    }
    var es := ReachableInv(w);
    hide Reachable, Reaches;
    es := RunInv(w, es, events, end);
    assert PartyInv(r', end.At(Other(p)), es, p, OpenedBy(end.received, p));
    hide Inv;
    ElementsBound(r'.skipped);
    var all, stale, live := Elements(r'.skipped), Stale(r'.skipped, r'.remoteDh), Live(r'.skipped, r'.remoteDh);
    assert all == stale + live && stale !! live;
    SubsetSize(Stale(r.skipped, r.remoteDh), stale);
  }

  function Elements(s: seq<SkippedMessageKey>): set<SkippedMessageKey> {
    set x | x in s
  }

  lemma {:induction false} ElementsBound(s: seq<SkippedMessageKey>)
    ensures |Elements(s)| <= |s|
  {
    if |s| > 0 {
      ElementsBound(s[1..]);
      assert Elements(s) == {s[0]} + Elements(s[1..]);
    }
  }

  lemma {:induction false} SubsetSize(a: set<SkippedMessageKey>, b: set<SkippedMessageKey>)
    requires a <= b
    ensures |a| <= |b|
  {
    assert b == a + (b - a);
  }

  /** What a delivery to `p` changes, field by field. */
  lemma {:induction false} DeliverState(w: World, e: Event)
    requires e.Deliver?
    ensures var (w', p) := (Step(w, e), e.receiver);
            var (r', outcome) := Decrypted(w.At(p), e.frame, e.generated);
            && w'.At(p) == r' && w'.At(Other(p)) == w.At(Other(p)) && w'.sent == w.sent
            && (outcome.Err? ==> w'.received == w.received)
            && (outcome.Ok? ==>
                  && OpenedBy(w'.received, p) == OpenedBy(w.received, p) + {IdOf(e.frame)}
                  && OpenedBy(w'.received, Other(p)) == OpenedBy(w.received, Other(p)))
  {
    var outcome := Decrypted(w.At(e.receiver), e.frame, e.generated).1;
    hide Decrypted, OpenedBy;
    if outcome.Ok? {
      OpenedByAppend(w.received, Receipt(e.receiver, outcome.value, e.frame), Alice);
      OpenedByAppend(w.received, Receipt(e.receiver, outcome.value, e.frame), Bob);
    }
  }

  // ---- every superseded frame is opened or retained ----------------------------------------------

  /** Nothing that belongs to `p` changes, except that its peer may move on from the key `p` listens to. */
  lemma {:induction false} SettledUnchanged(w: World, w': World, p: Party)
    requires PartySettled(w, p)
    requires w'.At(p).skipped == w.At(p).skipped && w'.At(p).remoteDh == w.At(p).remoteDh
    requires OpenedBy(w'.received, p) == OpenedBy(w.received, p) && w'.sent == w.sent
    requires w'.At(Other(p)).dhPair == w.At(Other(p)).dhPair || Generated(w.At(Other(p)).dhPair) == w.At(p).remoteDh
    ensures PartySettled(w', p)
  {
    hide FromSent;
  }

  lemma {:induction false} SettledEncrypt(w: World, e: Event, p: Party)
    requires PartySettled(w, p) && e.Encrypt?
    ensures PartySettled(Step(w, e), p)
  {
    var w' := Step(w, e);
    hide FromSent;
    if w'.sent != w.sent {
      var s := w'.sent[|w.sent|];
      assert w'.sent == w.sent + [s];
      assert s.sender == e.sender && IdOf(s.frame).ratchetPublic == Generated(w.At(e.sender).dhPair);
      forall a | 0 <= a < |w.At(p).skipped|
        ensures FromSent(w'.sent, Other(p), w.At(p).skipped[a])
      {
        FromSentGrows(w.sent, [s], Other(p), w.At(p).skipped[a]);
      }
    }
  }

  lemma {:induction false} SettledRotate(w: World, es: seq<Epoch>, e: Event, p: Party)
    requires Inv(w, es) && PartySettled(w, p) && e.Rotate? && Allowed(w, e)
    ensures PartySettled(Step(w, e), p)
  {
    EqualRootsAreInitial(w, es);
    assert Endpoint(w.alice, es, Alice) && Endpoint(w.bob, es, Bob);
    hide SentInv, ReceivedInv, PartiesInv, PartySettled;
    SettledUnchanged(w, Step(w, e), p);
  }

  /** A delivery to the other party. */
  lemma {:induction false} SettledOther(w: World, es: seq<Epoch>, e: Event, p: Party)
    requires Inv(w, es) && PartySettled(w, p) && e.Deliver? && e.receiver == Other(p) && Allowed(w, e)
    ensures PartySettled(Step(w, e), p)
  {
    hide PartySettled, Inv, Step, OpenedBy, Decrypted;
    var r, f := w.At(Other(p)), e.frame;
    DeliverState(w, e);
    if f.header.ratchetPublic == r.remoteDh || Decrypted(r, f, e.generated).1.Err? {
      SendingKept(r, f, e.generated);
    } else {
      var k := NewAhead(w, es, Other(p), f, e.generated);
      NewSendingChain(w, es, Other(p), f, e.generated);
    }
    SettledUnchanged(w, Step(w, e), p);
  }

  lemma {:induction false} NewAhead(w: World, es: seq<Epoch>, p: Party, f: Frame, generated: Option<nat>)
    returns (k: nat)
    requires Inv(w, es) && Available(w, f)
    requires f.header.ratchetPublic != w.At(p).remoteDh && Decrypted(w.At(p), f, generated).1.Ok?
    ensures |es| >= 3 && es[|es| - 2].sender == p && es[|es| - 1].sender == Other(p)
    ensures f.header.ratchetPublic == Generated(es[|es| - 1].key) == Generated(w.At(Other(p)).dhPair)
    ensures k < |w.sent| && w.sent[k].frame == f
  {
    hide Inv, DecryptedNew;
    k := NewIsFromAhead(w, es, p, f, generated);
    NewestIsPeers(w, es, p);
  }

  /** A delivery under the current remote key, or one that fails. */
  lemma {:induction false} SettledSame(w: World, es: seq<Epoch>, e: Event, p: Party)
    requires Inv(w, es) && PartySettled(w, p) && e.Deliver? && e.receiver == p && Allowed(w, e)
    requires e.frame.header.ratchetPublic == w.At(p).remoteDh || Decrypted(w.At(p), e.frame, e.generated).1.Err?
    ensures var (w', r') := (Step(w, e), Step(w, e).At(p));
            Settled(w'.sent, Other(p), r'.remoteDh, Generated(w'.At(Other(p)).dhPair), Retained(r'.skipped),
                    OpenedBy(w'.received, p))
  {
    hide Inv, Step, OpenedBy, Retained, Decrypted, FromSent;
    var r, w', f := w.At(p), Step(w, e), e.frame;
    DeliverState(w, e);
    SendingKept(r, f, e.generated);
    forall id: FrameId | id.ratchetPublic != r.remoteDh
      ensures id in Retained(w'.At(p).skipped) <==> id in Retained(r.skipped)
    {
      SameRetained(r, f, e.generated, id);
    }
  }

  lemma {:induction false} SameRetained(r: Ratchet, f: Frame, generated: Option<nat>, id: FrameId)
    requires f.header.ratchetPublic == r.remoteDh || Decrypted(r, f, generated).1.Err?
    requires id.ratchetPublic != r.remoteDh
    ensures id in Retained(Decrypted(r, f, generated).0.skipped) <==> id in Retained(r.skipped)
  {
    hide Decrypted, Retained;
    RetainedIff(r.skipped, id);
    RetainedIff(Decrypted(r, f, generated).0.skipped, id);
    forall x | KeyIdOf(x) == id
      ensures x in Decrypted(r, f, generated).0.skipped <==> x in r.skipped
    {
      SameKeepsOthers(r, f, generated, x);
    }
  }

  /** A delivery that supersedes the current remote key: its frames are opened, retained, or retained now. */
  lemma {:induction false} SettledNew(w: World, es: seq<Epoch>, e: Event, p: Party)
    requires Inv(w, es) && PartySettled(w, p) && e.Deliver? && e.receiver == p && Allowed(w, e)
    requires e.frame.header.ratchetPublic != w.At(p).remoteDh && Decrypted(w.At(p), e.frame, e.generated).1.Ok?
    ensures var (w', r') := (Step(w, e), Step(w, e).At(p));
            Settled(w'.sent, Other(p), r'.remoteDh, Generated(w'.At(Other(p)).dhPair), Retained(r'.skipped),
                    OpenedBy(w'.received, p))
  {
    hide Inv, Step, OpenedBy, Retained, Decrypted, FromSent, OldRange, WithRemote, KeysBetween;
    var r, f := w.At(p), e.frame;
    DeliverState(w, e);
    var k := NewAhead(w, es, p, f, e.generated);
    var range, news := NewRetains(r, f, e.generated);
    AccountedNow(w, es, p);
    forall j | 0 <= j < |w.sent| && IdOf(w.sent[j].frame).ratchetPublic == r.remoteDh
      ensures IdOf(w.sent[j].frame).number < f.header.previousChainLen
    {
      OldChainEnds(w, es, p, j, k);
    }
    SettledLater(w.sent, Other(p), r.remoteDh, f.header.ratchetPublic, r.receivingCount, f.header.previousChainLen,
                 Retained(r.skipped), OpenedBy(w.received, p), range, news, IdOf(f));
  }

  lemma {:induction false} AccountedNow(w: World, es: seq<Epoch>, p: Party)
    requires Inv(w, es)
    ensures Accounted(w.At(p).remoteDh, w.At(p).receivingCount, Retained(w.At(p).skipped), OpenedBy(w.received, p))
  {
    assert PartyInv(w.At(p), w.At(Other(p)), es, p, OpenedBy(w.received, p));
    hide Inv;
  }

  /** The ids that the new-ratchet path adds to the retained ones. */
  lemma {:induction false} NewRetains(r: Ratchet, f: Frame, generated: Option<nat>)
    returns (range: set<FrameId>, news: set<FrameId>)
    requires f.header.ratchetPublic != r.remoteDh && Decrypted(r, f, generated).1.Ok?
    ensures Retained(Decrypted(r, f, generated).0.skipped) == Retained(r.skipped) + range + news
    ensures Decrypted(r, f, generated).0.remoteDh == f.header.ratchetPublic
    ensures forall id: FrameId :: id in range <==>
              id.ratchetPublic == r.remoteDh && r.receivingCount <= id.number < f.header.previousChainLen
    ensures forall id :: id in news ==> id.ratchetPublic == f.header.ratchetPublic
  {
    hide Decrypted, WithRemote, KeysBetween, Retained;
    var base := NewAppends(r, f, generated);
    var added := WithRemote(f.header.ratchetPublic, KeysBetween(base, 0, f.header.messageNumber));
    RetainedRange(r.remoteDh, r.receivingChain, r.receivingCount, f.header.previousChainLen);
    RetainedRange(f.header.ratchetPublic, base, 0, f.header.messageNumber);
    RetainedAppend(r.skipped, OldRange(r, f));
    RetainedAppend(r.skipped + OldRange(r, f), added);
    range, news := Retained(OldRange(r, f)), Retained(added);
  }

  /** `remote` is superseded by `newest`: its numbers up to `length` are settled, and older keys are not touched. */
  lemma {:induction false} SettledLater(sent: seq<SentFrame>, sender: Party, remote: PublicKey, newest: PublicKey,
                                        count: u32, length: u32, retained: set<FrameId>, consumed: set<FrameId>,
                                        range: set<FrameId>, news: set<FrameId>, arrived: FrameId)
    requires Settled(sent, sender, remote, newest, retained, consumed) && remote != newest
    requires Accounted(remote, count, retained, consumed)
    requires forall j :: 0 <= j < |sent| && IdOf(sent[j].frame).ratchetPublic == remote ==>
               IdOf(sent[j].frame).number < length
    requires forall id: FrameId :: id in range <==> id.ratchetPublic == remote && count <= id.number < length
    requires (forall id :: id in news ==> id.ratchetPublic == newest) && arrived.ratchetPublic == newest
    ensures Settled(sent, sender, newest, newest, retained + range + news, consumed + {arrived})
  {
    forall k | 0 <= k < |sent| && sent[k].sender == sender && IdOf(sent[k].frame).ratchetPublic != newest
      ensures (IdOf(sent[k].frame) in consumed + {arrived}) != (IdOf(sent[k].frame) in retained + range + news)
    {
      var id := IdOf(sent[k].frame);
      if id.ratchetPublic == remote {
        assert id == FrameId(remote, id.number);
      }
    }
  }

  /** Under the key that `sent[k]` supersedes nothing was sent beyond the length it announces. */
  lemma {:induction false} OldChainEnds(w: World, es: seq<Epoch>, p: Party, j: nat, k: nat)
    requires Inv(w, es) && j < |w.sent| && w.sent[j].frame.header.ratchetPublic == w.At(p).remoteDh
    requires k < |w.sent|
    requires w.sent[k].frame.header.ratchetPublic == Generated(w.At(Other(p)).dhPair) != w.At(p).remoteDh
    ensures w.sent[j].frame.header.messageNumber < w.sent[k].frame.header.previousChainLen
    ensures w.sent[k].frame.header.previousChainLen == ChainLength(w.At(p), w.At(Other(p)))
  {
    assert Honest(w.At(w.sent[j].sender), es, w.sent[j]) && Honest(w.At(w.sent[k].sender), es, w.sent[k]);
    HonestUnderRemote(w, es, p, w.sent[j]);
    AheadFacts(w, es, p, w.sent[k]);
    hide Inv, Honest;
  }

  /** After any delivery to `p`, all its retained keys belong to sent frames. */
  lemma {:induction false} DeliveredFromSent(w: World, es: seq<Epoch>, e: Event, es': seq<Epoch>, p: Party)
    requires Inv(w, es) && Complete(w) && AllFromSent(w.sent, Other(p), w.At(p).skipped)
    requires e.Deliver? && e.receiver == p && Allowed(w, e)
    requires Inv(Step(w, e), es') && Complete(Step(w, e))
    ensures AllFromSent(Step(w, e).sent, Other(p), Step(w, e).At(p).skipped)
  {
    hide Inv, Complete, FromSent, Step, Decrypted;
    var w', r, f := Step(w, e), w.At(p), e.frame;
    DeliverState(w, e);
    forall a | 0 <= a < |w'.At(p).skipped|
      ensures FromSent(w'.sent, Other(p), w'.At(p).skipped[a])
    {
      var x := w'.At(p).skipped[a];
      if x.remoteDh == w'.At(p).remoteDh {
        CurrentFromSent(w', es', p, a);
      } else {
        OlderFromSent(w, es, p, f, e.generated, x);
      }
    }
  }

  /** What is retained after a delivery for another key than the current one belongs to a sent frame. */
  lemma {:induction false} OlderFromSent(w: World, es: seq<Epoch>, p: Party, f: Frame, generated: Option<nat>,
                                         x: SkippedMessageKey)
    requires Inv(w, es) && Complete(w) && AllFromSent(w.sent, Other(p), w.At(p).skipped)
    requires Available(w, f)
    requires var r' := Decrypted(w.At(p), f, generated).0; x in r'.skipped && x.remoteDh != r'.remoteDh
    ensures FromSent(w.sent, Other(p), x)
  {
    hide Inv, Complete, FromSent, Decrypted;
    var r := w.At(p);
    if f.header.ratchetPublic == r.remoteDh || Decrypted(r, f, generated).1.Err? {
      SendingKept(r, f, generated);
      SameKeepsOthers(r, f, generated, x);
    } else {
      var k := NewAhead(w, es, p, f, generated);
      var base := NewAppends(r, f, generated);
      StaleOrOld(w, es, p, f, generated, k, x);
    }
  }

  lemma {:induction false} StaleOrOld(w: World, es: seq<Epoch>, p: Party, f: Frame, generated: Option<nat>, k: nat,
                                      x: SkippedMessageKey)
    requires Inv(w, es) && Complete(w) && AllFromSent(w.sent, Other(p), w.At(p).skipped)
    requires f.header.ratchetPublic != w.At(p).remoteDh && Decrypted(w.At(p), f, generated).1.Ok?
    requires f.header.ratchetPublic == Generated(w.At(Other(p)).dhPair)
    requires k < |w.sent| && w.sent[k].frame == f
    requires x in Decrypted(w.At(p), f, generated).0.skipped && x.remoteDh != f.header.ratchetPublic
    ensures FromSent(w.sent, Other(p), x)
  {
    hide Inv, Complete, FromSent, Decrypted, WithRemote, KeysBetween, OldRange;
    var r := w.At(p);
    var base := NewAppends(r, f, generated);
    RemoteOf(f.header.ratchetPublic, KeysBetween(base, 0, f.header.messageNumber), x);
    if x !in r.skipped {
      OldRangeEntry(r, f, x);
      AheadEnds(w, es, p, k);
      DerivedFromSent(w, es, p, x.messageNumber);
    }
  }

  lemma {:induction false} RemoteOf(remote: PublicKey, keys: seq<NumberedKey>, x: SkippedMessageKey)
    ensures x in WithRemote(remote, keys) ==> x.remoteDh == remote
  {
  }

  lemma {:induction false} OldRangeEntry(r: Ratchet, f: Frame, x: SkippedMessageKey)
    requires r.receivingCount <= f.header.previousChainLen && x in OldRange(r, f)
    ensures r.receivingCount <= x.messageNumber < f.header.previousChainLen
    ensures x == SkippedMessageKey(r.remoteDh, x.messageNumber,
                                   KeyAt(r.receivingChain, x.messageNumber - r.receivingCount))
  {
  }

  lemma {:induction false} AheadEnds(w: World, es: seq<Epoch>, p: Party, k: nat)
    requires Inv(w, es) && k < |w.sent|
    requires w.sent[k].frame.header.ratchetPublic == Generated(w.At(Other(p)).dhPair) != w.At(p).remoteDh
    ensures w.sent[k].frame.header.previousChainLen == ChainLength(w.At(p), w.At(Other(p)))
  {
    assert Honest(w.At(w.sent[k].sender), es, w.sent[k]);
    AheadFacts(w, es, p, w.sent[k]);
    hide Inv, Honest;
  }

  lemma {:induction false} SettledStep(w: World, es: seq<Epoch>, e: Event, es': seq<Epoch>, p: Party)
    requires Inv(w, es) && Complete(w) && PartySettled(w, p) && Allowed(w, e)
    requires Inv(Step(w, e), es') && Complete(Step(w, e))
    ensures PartySettled(Step(w, e), p)
  {
    match e {
      case Encrypt(_, _, _, _) =>
        hide Inv, Complete, Allowed;
        SettledEncrypt(w, e, p);
      case Rotate(_, _) =>
        hide Inv, Step, Allowed, PartySettled;
        SettledRotate(w, es, e, p);
      case Deliver(q, f, generated) =>
        hide Inv, Step, Allowed, Complete, Decrypted, AllFromSent, Settled;
        if q != p {
          SettledOther(w, es, e, p);
        } else {
          DeliveredFromSent(w, es, e, es', p);
          if f.header.ratchetPublic == w.At(p).remoteDh || Decrypted(w.At(p), f, generated).1.Err? {
            SettledSame(w, es, e, p);
          } else {
            SettledNew(w, es, e, p);
          }
        }
    }
  }

  lemma {:induction false} RunSettled(w: World, es: seq<Epoch>, events: seq<Event>, end: World, p: Party)
    requires Inv(w, es) && Complete(w) && PartySettled(w, p) && Reaches(w, events, end)
    ensures PartySettled(end, p)
    decreases |events|
  {
    hide Inv, Step, Allowed, Complete, PartySettled;
    if |events| > 0 {
      CompleteStep(w, es, events[0]);
      var mid := StepInv(w, es, events[0]);
      SettledStep(w, es, events[0], mid, p);
      RunSettled(Step(w, events[0]), mid, events[1..], end, p);
    }
  }

  /**
   In every run: each frame that the peer sent under a superseded ratchet key was
   opened or its key is retained, and never both; and each retained key, of whatever
   ratchet key, is the key of a frame that the peer sent.
   */
  lemma {:induction false} AccountingOfSuperseded(w: World, p: Party)
    requires Reachable(w)
    ensures var r, newest := w.At(p), Generated(w.At(Other(p)).dhPair);
            && Settled(w.sent, Other(p), r.remoteDh, newest, Retained(r.skipped), OpenedBy(w.received, p))
            && AllFromSent(w.sent, Other(p), r.skipped)
  {
    var start, events :| IsStart(start) && Reaches(start, events, w);
    var es := StartInv(start);
    assert Complete(start) && PartySettled(start, p);
    hide Inv, IsStart, Complete, Reachable, Settled, AllFromSent;
    RunSettled(start, es, events, w, p);
  }
}
