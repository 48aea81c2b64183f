/** What a delivery may do in a run, and that it keeps the invariant. */
module SessionDelivery {
  import opened Common
  import opened KeyTerms
  import opened Schedule
  import opened Ratchet
  import opened Session
  import opened SessionInvariant

  // ---- the identity of an opened frame ------------------------------------------------------

  lemma {:induction false} DistinctBases(es: seq<Epoch>, used: set<nat>, i: nat, j: nat)
    requires History(es, used) && i < |es| && j < |es| && es[i].base == es[j].base
    ensures i == j
  {
    assert Depth(i) == Level(es[i].base) == Level(es[j].base) == Depth(j);
  }

  /** A network frame that opens with a key of some chain was sent, as it is, under that key. */
  lemma {:induction false} OpenedIsSent(w: World, es: seq<Epoch>, f: Frame, base: Secret, n: nat) returns (k: nat,
                                        e: nat)
    requires Inv(w, es) && Available(w, f)
    requires f.Open(KeyAt(base, n)).Ok? && !base.NextChain?
    ensures k < |w.sent| && w.sent[k].frame == f && w.sent[k].plaintext == f.ciphertext.plaintext
    ensures FromEpoch(w.At(w.sent[k].sender), es, w.sent[k], e)
    ensures es[e].base == base && f.header.messageNumber == n
  {
    hide PartiesInv, ReceivedInv;
    k :| 0 <= k < |w.sent| && w.sent[k].frame.ciphertext == f.ciphertext;
    var s := w.sent[k];
    assert Honest(w.At(s.sender), es, s);
    e :| FromEpoch(w.At(s.sender), es, s, e);
    assert !es[e].base.NextChain?;
    KeyDeterminesPosition(base, n, es[e].base, s.frame.header.messageNumber);
  }

  /** The key for a number at or after the count, seen from the start of the epoch. */
  lemma {:induction false} KeyFromBase(r: Ratchet, base: Secret, n: u32)
    requires r.receivingChain == Advance(base, r.receivingCount) && r.receivingCount <= n
    ensures KeyAt(r.receivingChain, n - r.receivingCount) == KeyAt(base, n)
    ensures Advance(r.receivingChain, n - r.receivingCount) == Advance(base, n)
  {
    AdvanceAdd(base, r.receivingCount, n - r.receivingCount);
  }

  // ---- bookkeeping of retained and consumed ids ---------------------------------------------

  lemma {:induction false} RetainedAppend(a: seq<SkippedMessageKey>, b: seq<SkippedMessageKey>)
    ensures Retained(a + b) == Retained(a) + Retained(b)
  {
    forall x | x in Retained(b)
      ensures x in Retained(a + b)
    {
      var k :| 0 <= k < |b| && KeyIdOf(b[k]) == x;
      assert (a + b)[|a| + k] == b[k];
    }
    forall x | x in Retained(a)
      ensures x in Retained(a + b)
    {
      var k :| 0 <= k < |a| && KeyIdOf(a[k]) == x;
      assert (a + b)[k] == a[k];
    }
  }

  lemma {:induction false} RetainedRemove(s: seq<SkippedMessageKey>, i: nat)
    requires i < |s| && UniqueKeys(s)
    ensures Retained(RemoveAt(s, i)) == Retained(s) - {KeyIdOf(s[i])}
    ensures UniqueKeys(RemoveAt(s, i))
  {
    var r := RemoveAt(s, i);
    forall x | x in Retained(s) - {KeyIdOf(s[i])}
      ensures x in Retained(r)
    {
      var k :| 0 <= k < |s| && KeyIdOf(s[k]) == x;
      assert r[if k < i then k else k - 1] == s[k];
    }
  }

  /** The ids of keys derived for `start .. end` under one remote key are exactly those numbers. */
  lemma {:induction false} RetainedRange(remote: PublicKey, chain: Secret, start: u32, end: u32)
    requires start <= end
    ensures var keys := WithRemote(remote, KeysBetween(chain, start, end));
            && UniqueKeys(keys)
            && forall x: FrameId :: x in Retained(keys) <==> x.ratchetPublic == remote && start <= x.number < end
  {
    var keys := WithRemote(remote, KeysBetween(chain, start, end));
    forall x: FrameId | x.ratchetPublic == remote && start <= x.number < end
      ensures x in Retained(keys)
    {
      assert KeyIdOf(keys[x.number - start]) == x;
    }
  }

  lemma {:induction false} UniqueAppend(a: seq<SkippedMessageKey>, b: seq<SkippedMessageKey>)
    requires UniqueKeys(a) && UniqueKeys(b) && Retained(a) !! Retained(b)
    ensures UniqueKeys(a + b)
  {
    forall i, j | 0 <= i < |a| && 0 <= j < |b|
      ensures KeyIdOf(a[i]) != KeyIdOf(b[j])
    {
      assert KeyIdOf(a[i]) in Retained(a) && KeyIdOf(b[j]) in Retained(b);
    }
  }

  lemma {:induction false} OpenedByAppend(received: seq<Receipt>, x: Receipt, p: Party)
    ensures OpenedBy(received + [x], p) ==
            if x.receiver == p then OpenedBy(received, p) + {IdOf(x.frame)} else OpenedBy(received, p)
  {
    var more := received + [x];
    forall id | id in OpenedBy(received, p)
      ensures id in OpenedBy(more, p)
    {
      var k :| 0 <= k < |received| && received[k].receiver == p && IdOf(received[k].frame) == id;
      assert more[k] == received[k];
    }
    if x.receiver == p {
      assert more[|received|] == x;
    }
  }

  // ---- the receiving endpoint after a successful delivery -------------------------------------

  lemma {:induction false} SkippedParty(r: Ratchet, peer: Ratchet, es: seq<Epoch>, p: Party, consumed: set<FrameId>,
                                        f: Frame)
    requires |es| >= 2 && PartyInv(r, peer, es, p, consumed)
    requires f.header.ratchetPublic == r.remoteDh && f.header.messageNumber < r.receivingCount
    requires DecryptedSkipped(r, f).1.Ok?
    ensures PartyInv(DecryptedSkipped(r, f).0, peer, es, p, consumed + {IdOf(f)})
    ensures IdOf(f) !in consumed
    ensures f.Open(KeyAt(es[Listening(es, p)].base, f.header.messageNumber)).Ok?
  {
    var i := Position(r.skipped, r.remoteDh, f.header.messageNumber);
    RetainedRemove(r.skipped, i);
    assert KeyIdOf(r.skipped[i]) == IdOf(f);
    assert IdOf(f) in Retained(r.skipped);
    hide Heard, Endpoint, Retained;
  }

  /** The epoch `p` listens to is its peer's, and its key counts as heard. */
  lemma {:induction false} ListeningToPeer(r: Ratchet, es: seq<Epoch>, p: Party, used: set<nat>)
    requires History(es, used) && Endpoint(r, es, p)
    ensures Listening(es, p) < |es| && es[Listening(es, p)].sender == Other(p)
    ensures Heard(es, p, r.remoteDh)
  {
  }

  /** Opening `target` and retaining everything from the count up to it moves the count past it. */
  lemma {:induction false} AccountedAdvance(remote: PublicKey, count: u32, target: u32, retained: set<FrameId>,
                                            added: set<FrameId>,
                         consumed: set<FrameId>)
    requires Accounted(remote, count, retained, consumed) && count <= target < U32_MAX
    requires forall x: FrameId :: x in added <==> x.ratchetPublic == remote && count <= x.number < target
    ensures Accounted(remote, target + 1, retained + added, consumed + {FrameId(remote, target)})
    ensures FrameId(remote, target) !in consumed && retained !! added
  {
    forall x | x in added
      ensures x !in retained
    {
      assert x == FrameId(remote, x.number);
    }
  }

  lemma {:induction false} OnChainAppend(skipped: seq<SkippedMessageKey>, r: Ratchet, base: Secret, target: u32)
    requires OnChain(skipped, r.remoteDh, r.receivingCount, base) && r.receivingCount <= target < U32_MAX
    requires r.receivingChain == Advance(base, r.receivingCount)
    ensures OnChain(skipped + WithRemote(r.remoteDh, KeysBetween(r.receivingChain, r.receivingCount, target)),
                    r.remoteDh, target + 1, base)
  {
    var numbered := KeysBetween(r.receivingChain, r.receivingCount, target);
    var more := WithRemote(r.remoteDh, numbered);
    forall k | 0 <= k < |more|
      ensures more[k].messageNumber <= target && more[k].key == KeyAt(base, more[k].messageNumber)
    {
      assert more[k] == SkippedMessageKey(r.remoteDh, numbered[k].number, numbered[k].key);
      KeyFromBase(r, base, r.receivingCount + k);
    }
    hide KeyAt, KeysBetween, WithRemote;
  }

  lemma {:induction false} SkippedAppend(skipped: seq<SkippedMessageKey>, es: seq<Epoch>, p: Party, remote: PublicKey,
                      chain: Secret, start: u32, end: u32)
    requires |es| >= 2 && SkippedInv(skipped, es, p) && Heard(es, p, remote)
    requires start <= end && |skipped| + (end - start) <= MAX_SKIPPED_KEYS
    requires forall n: u32 :: start <= n < end ==> FrameId(remote, n) !in Retained(skipped)
    ensures var keys := WithRemote(remote, KeysBetween(chain, start, end));
            && SkippedInv(skipped + keys, es, p)
            && Retained(skipped + keys) == Retained(skipped) + Retained(keys)
            && forall x: FrameId :: x in Retained(keys) <==> x.ratchetPublic == remote && start <= x.number < end
  {
    var keys := WithRemote(remote, KeysBetween(chain, start, end));
    RetainedRange(remote, chain, start, end);
    RetainedAppend(skipped, keys);
    forall x | x in Retained(keys)
      ensures x !in Retained(skipped)
    {
      assert x == FrameId(remote, x.number);
    }
    UniqueAppend(skipped, keys);
    hide Heard, Retained;
  }

  lemma {:induction false} SameParty(r: Ratchet, peer: Ratchet, es: seq<Epoch>, p: Party, consumed: set<FrameId>,
                                     f: Frame)
    requires |es| >= 2 && Heard(es, p, r.remoteDh) && PartyInv(r, peer, es, p, consumed)
    requires f.header.ratchetPublic == r.remoteDh
    requires r.receivingCount <= f.header.messageNumber < PeerLength(peer, es, p)
    requires DecryptedSame(r, f).1.Ok?
    ensures PartyInv(DecryptedSame(r, f).0, peer, es, p, consumed + {IdOf(f)})
    ensures IdOf(f) !in consumed
  {
    var count, target, base := r.receivingCount, f.header.messageNumber, es[Listening(es, p)].base;
    hide Heard, Retained, WithRemote, Accounted, OnChain, SkippedInv;
    KeyFromBase(r, base, target);
    OnChainAppend(r.skipped, r, base, target);
    assert forall n: u32 :: count <= n ==> FrameId(r.remoteDh, n) !in Retained(r.skipped) by {
      NotRetained(r.remoteDh, count, Retained(r.skipped), consumed);
    }
    SkippedAppend(r.skipped, es, p, r.remoteDh, r.receivingChain, count, target);
    var keys := WithRemote(r.remoteDh, KeysBetween(r.receivingChain, count, target));
    AccountedAdvance(r.remoteDh, count, target, Retained(r.skipped), Retained(keys), consumed);
  }

  lemma {:induction false} NotRetained(remote: PublicKey, count: u32, retained: set<FrameId>, consumed: set<FrameId>)
    requires Accounted(remote, count, retained, consumed)
    ensures forall n: u32 :: count <= n ==> FrameId(remote, n) !in retained && FrameId(remote, n) !in consumed
  {
  }

  // ---- a delivery that starts a new ratchet ---------------------------------------------------

  /** No id under a key not yet heard is retained. */
  lemma {:induction false} UnheardNotRetained(skipped: seq<SkippedMessageKey>, es: seq<Epoch>, p: Party,
                                              remote: PublicKey)
    requires |es| >= 2 && SkippedInv(skipped, es, p) && !Heard(es, p, remote)
    ensures forall n: u32 :: FrameId(remote, n) !in Retained(skipped)
  {
    hide Heard;
  }

  /** The endpoint that is a step behind takes the step: its own new epoch is `k`'s. */
  lemma {:induction false} NewParty(r: Ratchet, peer: Ratchet, es: seq<Epoch>, p: Party, used: set<nat>, k: nat,
                 consumed: set<FrameId>, f: Frame)
    requires History(es, used) && |es| >= 3 && es[|es| - 2].sender == p && k !in used
    requires PartyInv(r, peer, es, p, consumed)
    requires f.header.ratchetPublic == Generated(es[|es| - 1].key) && f.header.messageNumber < peer.sendingCount
    requires forall n: u32 :: FrameId(f.header.ratchetPublic, n) !in consumed
    requires DecryptedNew(r, f, Some(k)).1.Ok?
    ensures PartyInv(DecryptedNew(r, f, Some(k)).0, peer, Extend(es, p, k), p, consumed + {IdOf(f)})
  {
    var es', r' := Extend(es, p, k), DecryptedNew(r, f, Some(k)).0;
    var n := NewRatchetOf(r, f, Some(k)).value;
    var m, remote, target := |es|, f.header.ratchetPublic, f.header.messageNumber;
    var prev := f.header.previousChainLen;
    var chain := es[m - 1].base;
    assert n.oldSkipped == KeysBetween(r.receivingChain, r.receivingCount, prev);
    assert n.newSkipped == KeysBetween(chain, 0, target);
    assert Endpoint(r', es', p);
    NewKeysRetained(r, es, p, used, k, consumed, prev, remote, target);
    hide Heard, Retained, WithRemote, Accounted, OnChain, SkippedInv, Extend;
  }

  lemma {:induction false} NewKeysRetained(r: Ratchet, es: seq<Epoch>, p: Party, used: set<nat>, k: nat,
                                           consumed: set<FrameId>,
                        prev: u32, remote: PublicKey, target: u32)
    requires History(es, used) && |es| >= 3 && es[|es| - 2].sender == p && k !in used
    requires Endpoint(r, es, p) && SkippedInv(r.skipped, es, p)
    requires Accounted(r.remoteDh, r.receivingCount, Retained(r.skipped), consumed)
    requires r.receivingCount <= prev && |r.skipped| + (prev - r.receivingCount) + target <= MAX_SKIPPED_KEYS
    requires remote == Generated(es[|es| - 1].key)
    requires forall n: u32 :: FrameId(remote, n) !in consumed
    ensures var base := es[|es| - 1].base;
            var skipped := r.skipped + WithRemote(r.remoteDh, KeysBetween(r.receivingChain, r.receivingCount, prev))
                           + WithRemote(remote, KeysBetween(base, 0, target));
            && SkippedInv(skipped, Extend(es, p, k), p)
            && OnChain(skipped, remote, target + 1, base)
            && Accounted(remote, target + 1, Retained(skipped), consumed + {FrameId(remote, target)})
  {
    var base, es' := es[|es| - 1].base, Extend(es, p, k);
    var oldKeys := WithRemote(r.remoteDh, KeysBetween(r.receivingChain, r.receivingCount, prev));
    var newKeys := WithRemote(remote, KeysBetween(base, 0, target));
    assert Heard(es, p, r.remoteDh) by {
      ListeningToPeer(r, es, p, used);
    }
    assert !Heard(es, p, remote);
    assert Heard(es', p, remote) by {
      assert es'[|es| - 1] == es[|es| - 1] && Listening(es', p) == |es| - 1;
    }
    NotRetained(r.remoteDh, r.receivingCount, Retained(r.skipped), consumed);
    assert base == Advance(base, 0);
    hide Heard, Retained, WithRemote, Extend, Accounted, OnChain, History, Endpoint;
    SkippedAppend(r.skipped, es, p, r.remoteDh, r.receivingChain, r.receivingCount, prev);
    UnheardNotRetained(r.skipped + oldKeys, es, p, remote);
    ExtendSkipped(r.skipped + oldKeys, es, p, k, p, used);
    SkippedAppend(r.skipped + oldKeys, es', p, remote, base, 0, target);
    NewRemote(r.skipped + oldKeys, remote, target, base, consumed);
  }

  lemma {:induction false} NewRemote(skipped: seq<SkippedMessageKey>, remote: PublicKey, target: u32, base: Secret,
                                     consumed: set<FrameId>)
    requires forall n: u32 :: FrameId(remote, n) !in Retained(skipped) && FrameId(remote, n) !in consumed
    requires target < U32_MAX
    ensures var keys := WithRemote(remote, KeysBetween(base, 0, target));
            && OnChain(skipped + keys, remote, target + 1, base)
            && Accounted(remote, target + 1, Retained(skipped + keys), consumed + {FrameId(remote, target)})
  {
    var keys := WithRemote(remote, KeysBetween(base, 0, target));
    RetainedRange(remote, base, 0, target);
    RetainedAppend(skipped, keys);
    forall a | 0 <= a < |skipped|
      ensures skipped[a].remoteDh != remote
    {
      assert KeyIdOf(skipped[a]) in Retained(skipped);
    }
    AccountedAdvance(remote, 0, target, Retained(skipped), Retained(keys), consumed);
  }

  // ---- which frames open ----------------------------------------------------------------------

  /** A frame that opens under the current remote key was sent by the peer in that epoch. */
  lemma {:induction false} SameIsFromListening(w: World, es: seq<Epoch>, p: Party, f: Frame) returns (k: nat)
    requires Inv(w, es) && Available(w, f) && f.header.ratchetPublic == w.At(p).remoteDh
    requires f.Open(KeyAt(es[Listening(es, p)].base, f.header.messageNumber)).Ok?
    ensures k < |w.sent|
    ensures w.sent[k] == SentFrame(Other(p), f.header.kind, f.ciphertext.plaintext, f)
    ensures f.header.messageNumber < PeerLength(w.At(Other(p)), es, p) && f.header.messageNumber < U32_MAX
  {
    var j := Listening(es, p);
    assert Endpoint(w.At(p), es, p);
    ListeningToPeer(w.At(p), es, p, w.used);
    hide PartiesInv, ReceivedInv, SentInv;
    var e: nat;
    k, e := OpenedIsSent(w, es, f, es[j].base, f.header.messageNumber);
    DistinctBases(es, w.used, e, j);
  }

  /** The path of a successful decryption under the current remote key opens with that epoch's key. */
  lemma {:induction false} SameOpensFromBase(r: Ratchet, peer: Ratchet, es: seq<Epoch>, p: Party,
                                             consumed: set<FrameId>, f: Frame)
    requires |es| >= 2 && PartyInv(r, peer, es, p, consumed) && f.header.ratchetPublic == r.remoteDh
    requires DecryptedSame(r, f).1.Ok? || DecryptedSame(r, f).0 != r
    ensures f.Open(KeyAt(es[Listening(es, p)].base, f.header.messageNumber)).Ok?
  {
    hide SkippedInv, Accounted;
    if f.header.messageNumber >= r.receivingCount {
      KeyFromBase(r, es[Listening(es, p)].base, f.header.messageNumber);
    }
  }

  /**
   A frame that opens under a new ratchet key was sent by the peer in the newest
   epoch, and the receiver is a root step behind. Any other key that this path can
   derive sits at a root depth no sealing key of that run has.
   */
  lemma {:induction false} NewIsFromAhead(w: World, es: seq<Epoch>, p: Party, f: Frame,
                                          generated: Option<nat>) returns (k: nat)
    requires Inv(w, es) && Available(w, f)
    requires DecryptedNew(w.At(p), f, generated).1.Ok?
    ensures |es| >= 3 && es[|es| - 2].sender == p && es[|es| - 1].sender == Other(p)
    ensures f.header.ratchetPublic == Generated(es[|es| - 1].key)
    ensures k < |w.sent|
    ensures w.sent[k] == SentFrame(Other(p), f.header.kind, f.ciphertext.plaintext, f)
    ensures f.header.messageNumber < w.At(Other(p)).sendingCount
  {
    var r, i := w.At(p), Current(es, p);
    assert Endpoint(r, es, p);
    hide PartiesInv, ReceivedInv, SentInv;
    var dh := DiffieHellman(r.dhPair, f.header.ratchetPublic).value;
    var (root, base) := RootStep(r.rootKey, dh);
    assert f.Open(KeyAt(base, f.header.messageNumber)).Ok?;
    assert Level(base) == Depth(i) + 1;
    var e: nat;
    k, e := OpenedIsSent(w, es, f, base, f.header.messageNumber);
    assert Level(es[e].base) == Depth(e);
  }

  /** Every failed delivery leaves the receiver as it was. */
  lemma {:induction false} FailedDeliveryChangesNothing(w: World, es: seq<Epoch>, p: Party, f: Frame,
                                                        generated: Option<nat>)
    requires Inv(w, es) && Available(w, f)
    requires Decrypted(w.At(p), f, generated).1.Err?
    ensures Decrypted(w.At(p), f, generated).0 == w.At(p)
  {
    var r, peer := w.At(p), w.At(Other(p));
    if Decrypted(r, f, generated).0 != r {
      OnlyLateOverflow(r, f, generated);
      assert PartyInv(r, peer, es, p, OpenedBy(w.received, p));
      hide Inv, PartyInv, Decrypted, DecryptedSame;
      SameOpensFromBase(r, peer, es, p, OpenedBy(w.received, p), f);
      var k := SameIsFromListening(w, es, p, f);
    }
  }

  /** The one failing exit that has already changed the state. */
  lemma {:induction false} OnlyLateOverflow(r: Ratchet, f: Frame, generated: Option<nat>)
    requires Decrypted(r, f, generated).1.Err? && Decrypted(r, f, generated).0 != r
    ensures f.header.ratchetPublic == r.remoteDh && f.header.messageNumber == U32_MAX
    ensures DecryptedSame(r, f).0 != r
  {
  }

  // ---- preservation ---------------------------------------------------------------------------

  lemma {:induction false} MoreUsed(w: World, es: seq<Epoch>, generated: Option<nat>)
    requires Inv(w, es)
    ensures Inv(Using(w, generated), es)
  {
    hide Honest, DistinctIds, ReceivedInv, PartyInv;
  }

  lemma {:induction false} HonestSame(w: World, w': World, es: seq<Epoch>, p: Party)
    requires |es| >= 2 && SentInv(w, es) && w'.sent == w.sent && w'.At(Other(p)) == w.At(Other(p))
    requires w'.At(p).sessionId == w.At(p).sessionId && w'.At(p).suite == w.At(p).suite
    requires w'.At(p).sendingCount == w.At(p).sendingCount
    requires w'.At(p).previousSendingChainLen == w.At(p).previousSendingChainLen
    ensures SentInv(w', es)
  {
    forall k | 0 <= k < |w.sent|
      ensures Honest(w'.At(w.sent[k].sender), es, w.sent[k])
    {
      var r := w.At(w.sent[k].sender);
      assert Honest(r, es, w.sent[k]);
      var e :| FromEpoch(r, es, w.sent[k], e);
      assert FromEpoch(w'.At(w.sent[k].sender), es, w.sent[k], e);
    }
  }

  lemma {:induction false} ReceivedAppend(received: seq<Receipt>, sent: seq<SentFrame>, es: seq<Epoch>, x: Receipt)
    requires |es| >= 2 && ReceivedInv(received, sent, es)
    requires Genuine(sent, x) && Heard(es, x.receiver, x.frame.header.ratchetPublic)
    requires IdOf(x.frame) !in OpenedBy(received, x.receiver)
    ensures ReceivedInv(received + [x], sent, es)
  {
    hide Heard, Genuine;
    forall a | 0 <= a < |received| && received[a].receiver == x.receiver
      ensures IdOf(received[a].frame) != IdOf(x.frame)
    {
      assert IdOf(received[a].frame) in OpenedBy(received, x.receiver);
    }
  }

  lemma {:induction false} PeerKept(peer: Ratchet, r: Ratchet, r': Ratchet, es: seq<Epoch>, q: Party,
                                    consumed: set<FrameId>)
    requires |es| >= 2 && PartyInv(peer, r, es, q, consumed)
    requires r'.sendingCount == r.sendingCount && r'.previousSendingChainLen == r.previousSendingChainLen
    ensures PartyInv(peer, r', es, q, consumed)
  {
    hide SkippedInv, OnChain, Accounted, Endpoint;
  }

  lemma {:induction false} SameInv(w: World, es: seq<Epoch>, e: Event)
    requires Inv(w, es) && e.Deliver? && Allowed(w, e)
    requires e.frame.header.ratchetPublic == w.At(e.receiver).remoteDh
    requires Decrypted(w.At(e.receiver), e.frame, e.generated).1.Ok?
    ensures Inv(Step(w, e), es)
  {
    var p, f := e.receiver, e.frame;
    var r, peer, consumed := w.At(p), w.At(Other(p)), OpenedBy(w.received, p);
    var x := Receipt(p, f.ciphertext.plaintext, f);
    var w1 := w.With(p, DecryptedSame(r, f).0);
    var w' := w1.(received := w.received + [x]);
    assert PartyInv(r, peer, es, p, consumed);
    assert PartyInv(peer, r, es, Other(p), OpenedBy(w.received, Other(p)));
    assert Heard(es, p, r.remoteDh) by {
      ListeningToPeer(r, es, p, w.used);
    }
    SameStep(r, peer, es, p, consumed, f, w);
    hide PartyInv, SentInv, ReceivedInv, History, Heard;
    OpenedByAppend(w.received, x, Alice);
    OpenedByAppend(w.received, x, Bob);
    ReceivedAppend(w.received, w.sent, es, x);
    HonestSame(w, w', es, p);
    PeerKept(peer, r, w'.At(p), es, Other(p), OpenedBy(w.received, Other(p)));
    assert PartiesInv(w', es);
    MoreUsed(w', es, e.generated);
  }

  lemma {:induction false} SameCommit(r: Ratchet, f: Frame)
    requires DecryptedSame(r, f).1.Ok?
    ensures var r' := DecryptedSame(r, f).0;
            && r'.sessionId == r.sessionId && r'.suite == r.suite
            && r'.sendingCount == r.sendingCount && r'.previousSendingChainLen == r.previousSendingChainLen
    ensures DecryptedSame(r, f).1.value == f.ciphertext.plaintext
    ensures f.header.messageNumber < r.receivingCount ==> DecryptedSame(r, f) == DecryptedSkipped(r, f)
  {
  }

  lemma {:induction false} SameStep(r: Ratchet, peer: Ratchet, es: seq<Epoch>, p: Party, consumed: set<FrameId>,
                                    f: Frame, w: World)
    requires Inv(w, es) && Available(w, f) && r == w.At(p) && peer == w.At(Other(p))
    requires Heard(es, p, r.remoteDh) && PartyInv(r, peer, es, p, consumed)
    requires f.header.ratchetPublic == r.remoteDh && DecryptedSame(r, f).1.Ok?
    ensures var r' := DecryptedSame(r, f).0;
            && PartyInv(r', peer, es, p, consumed + {IdOf(f)})
            && r'.sessionId == r.sessionId && r'.suite == r.suite
            && r'.sendingCount == r.sendingCount && r'.previousSendingChainLen == r.previousSendingChainLen
    ensures DecryptedSame(r, f).1.value == f.ciphertext.plaintext
    ensures IdOf(f) !in consumed
    ensures Genuine(w.sent, Receipt(p, f.ciphertext.plaintext, f))
  {
    SameOpensFromBase(r, peer, es, p, consumed, f);
    SameCommit(r, f);
    hide PartyInv, Heard, Inv, DecryptedSame, DecryptedSkipped;
    var k := SameIsFromListening(w, es, p, f);
    if f.header.messageNumber < r.receivingCount {
      SkippedParty(r, peer, es, p, consumed, f);
    } else {
      SameParty(r, peer, es, p, consumed, f);
    }
  }

  lemma {:induction false} NewInv(w: World, es: seq<Epoch>, e: Event) returns (es': seq<Epoch>)
    requires Inv(w, es) && e.Deliver? && Allowed(w, e)
    requires e.frame.header.ratchetPublic != w.At(e.receiver).remoteDh
    requires Decrypted(w.At(e.receiver), e.frame, e.generated).1.Ok?
    ensures Inv(Step(w, e), es')
  {
    var p, f, g := e.receiver, e.frame, e.generated.value;
    var r, peer, consumed := w.At(p), w.At(Other(p)), OpenedBy(w.received, p);
    var r' := DecryptedNew(r, f, e.generated).0;
    var x := Receipt(p, f.ciphertext.plaintext, f);
    es' := Extend(es, p, g);
    var k := NewIsFromAhead(w, es, p, f, e.generated);
    assert PartyInv(r, peer, es, p, consumed);
    assert PartyInv(peer, r, es, Other(p), OpenedBy(w.received, Other(p)));
    UnheardNotOpened(w.received, w.sent, es, p, f.header.ratchetPublic);
    NewParty(r, peer, es, p, w.used, g, consumed, f);
    ExtendHistory(es, w.used, p, g);
    hide PartyInv, SentInv, ReceivedInv, Heard, Extend;
    NewCommit(r, f, e.generated);
    assert Heard(es', p, f.header.ratchetPublic) by {
      NewestHeard(es, p, g);
    }
    ExtendSent(w, w.With(p, r'), es, p, g);
    ExtendReceived(w.received, w.sent, es, p, g, w.used);
    ReceivedAppend(w.received, w.sent, es', x);
    OpenedByAppend(w.received, x, Alice);
    OpenedByAppend(w.received, x, Bob);
    ExtendPeer(peer, r, r', es, p, g, w.used, OpenedBy(w.received, Other(p)));
    SentAnyReceived(w.With(p, r'), Step(w, e), es');
  }

  lemma {:induction false} SentAnyReceived(w: World, w': World, es: seq<Epoch>)
    requires |es| >= 2 && SentInv(w, es) && w'.sent == w.sent && w'.alice == w.alice && w'.bob == w.bob
    ensures SentInv(w', es)
  {
    hide Honest;
  }

  lemma {:induction false} NewestHeard(es: seq<Epoch>, p: Party, k: nat)
    requires |es| >= 2 && es[|es| - 1].sender == Other(p)
    ensures Heard(Extend(es, p, k), p, Generated(es[|es| - 1].key))
  {
    assert Extend(es, p, k)[|es| - 1] == es[|es| - 1];
  }

  lemma {:induction false} NewCommit(r: Ratchet, f: Frame, generated: Option<nat>)
    requires DecryptedNew(r, f, generated).1.Ok?
    ensures var r' := DecryptedNew(r, f, generated).0;
            && r'.sessionId == r.sessionId && r'.suite == r.suite
            && r'.previousSendingChainLen == r.sendingCount
    ensures generated.Some? && DecryptedNew(r, f, generated).1.value == f.ciphertext.plaintext
  {
  }

  /** Nothing was opened under a ratchet key the receiver has not heard. */
  lemma {:induction false} UnheardNotOpened(received: seq<Receipt>, sent: seq<SentFrame>, es: seq<Epoch>, p: Party,
                                            remote: PublicKey)
    requires |es| >= 2 && ReceivedInv(received, sent, es) && !Heard(es, p, remote)
    ensures forall n: u32 :: FrameId(remote, n) !in OpenedBy(received, p)
  {
    hide Heard;
  }

  lemma {:induction false} DeliverInv(w: World, es: seq<Epoch>, e: Event) returns (es': seq<Epoch>)
    requires Inv(w, es) && e.Deliver? && Allowed(w, e)
    ensures Inv(Step(w, e), es')
  {
    var r := w.At(e.receiver);
    if Decrypted(r, e.frame, e.generated).1.Err? {
      FailedDeliveryChangesNothing(w, es, e.receiver, e.frame, e.generated);
      es' := es;
      hide Inv;
      assert w.With(e.receiver, r) == w;
      MoreUsed(w, es, e.generated);
    } else if e.frame.header.ratchetPublic == r.remoteDh {
      es' := es;
      SameInv(w, es, e);
    } else {
      es' := NewInv(w, es, e);
    }
  }

  lemma {:induction false} StepInv(w: World, es: seq<Epoch>, e: Event) returns (es': seq<Epoch>)
    requires Inv(w, es) && Allowed(w, e)
    ensures Inv(Step(w, e), es')
  {
    hide Inv, Step, Allowed;
    match e {
      case Encrypt(_, _, _, _) =>
        es' := es;
        EncryptInv(w, es, e);
      case Deliver(_, _, _) =>
        es' := DeliverInv(w, es, e);
      case Rotate(_, _) =>
        es' := RotateInv(w, es, e);
    }
  }

  lemma {:induction false} RunInv(w: World, es: seq<Epoch>, events: seq<Event>, end: World) returns (es': seq<Epoch>)
    requires Inv(w, es) && Reaches(w, events, end)
    ensures Inv(end, es')
    decreases |events|
  {
    hide Inv, Step, Allowed;
    if |events| == 0 {
      es' := es;
    } else {
      var mid := StepInv(w, es, events[0]);
      es' := RunInv(Step(w, events[0]), mid, events[1..], end);
    }
  }

  /** Every reachable world is explained by some list of epochs. */
  lemma {:induction false} ReachableInv(w: World) returns (es: seq<Epoch>)
    requires Reachable(w)
    ensures Inv(w, es)
  {
    hide Inv, IsStart;
    var start, events :| IsStart(start) && Reaches(start, events, w);
    var es0 := StartInv(start);
    es := RunInv(start, es0, events, w);
  }
}
