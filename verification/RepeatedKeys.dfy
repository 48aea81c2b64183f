/**
 A peer that comes back to an old ratchet key: when that makes retained keys repeat,
 and that such a state can be sealed but not restored.
 */
module RepeatedKeys {
  import opened Common
  import opened ByteCoding
  import opened Primitives
  import opened KeyTerms
  import opened Schedule
  import opened Ratchet
  import opened Session
  import opened SessionDelivery
  import opened SessionAccounting
  import opened ByteNames
  import Confluence
  import PersistedSession
  import Persistence

  /** Every entry retained for `remote` has a number from `n` on. */
  predicate RetainedFrom(skipped: seq<SkippedMessageKey>, remote: PublicKey, n: u32) {
    forall a :: 0 <= a < |skipped| && skipped[a].remoteDh == remote ==> skipped[a].messageNumber >= n
  }

  lemma {:induction false} UniqueConcat(a: seq<SkippedMessageKey>, b: seq<SkippedMessageKey>)
    ensures UniqueKeys(a + b) <==> UniqueKeys(a) && UniqueKeys(b) && Retained(a) !! Retained(b)
  {
    var s := a + b;
    if UniqueKeys(s) {
      assert forall i :: 0 <= i < |a| ==> s[i] == a[i];
      assert forall j :: 0 <= j < |b| ==> s[|a| + j] == b[j];
      forall i, j | 0 <= i < j < |b|
        ensures KeyIdOf(b[i]) != KeyIdOf(b[j])
      {
        assert s[|a| + i] == b[i] && s[|a| + j] == b[j];
      }
      forall i, j | 0 <= i < |a| && 0 <= j < |b|
        ensures KeyIdOf(a[i]) != KeyIdOf(b[j])
      {
        assert s[i] == a[i] && s[|a| + j] == b[j];
      }
    }
    if UniqueKeys(a) && UniqueKeys(b) && Retained(a) !! Retained(b) {
      UniqueAppend(a, b);
    }
  }

  /** The range of the current chain never meets what is retained for it. */
  lemma {:induction false} OldRangeApart(s: Ratchet, f: Frame)
    requires s.receivingCount <= f.header.previousChainLen && Confluence.NoneAhead(s)
    ensures Retained(s.skipped) !! Retained(OldRange(s, f))
  {
    RetainedRange(s.remoteDh, s.receivingChain, s.receivingCount, f.header.previousChainLen);
    hide KeysBetween, WithRemote;
  }

  lemma {:induction false} RangeMeets(skipped: seq<SkippedMessageKey>, remote: PublicKey, base: Secret, n: u32)
    ensures Retained(skipped) !! Retained(WithRemote(remote, KeysBetween(base, 0, n))) <==>
            RetainedFrom(skipped, remote, n)
  {
    RetainedRange(remote, base, 0, n);
    hide KeysBetween, WithRemote;
    var news := Retained(WithRemote(remote, KeysBetween(base, 0, n)));
    if Retained(skipped) !! news {
      forall a | 0 <= a < |skipped| && skipped[a].remoteDh == remote
        ensures skipped[a].messageNumber >= n
      {
        assert KeyIdOf(skipped[a]) in Retained(skipped);
      }
    }
  }

  /**
   After a frame that opens under a new remote key, of any peer, the retained keys are
   unique exactly if nothing below the frame's number was retained for that key before.
   */
  lemma {:induction false} StaysUniqueExactly(s: Ratchet, f: Frame, generated: Option<nat>)
    requires UniqueKeys(s.skipped) && Confluence.NoneAhead(s)
    requires f.header.ratchetPublic != s.remoteDh && Decrypted(s, f, generated).1.Ok?
    ensures UniqueKeys(Decrypted(s, f, generated).0.skipped) <==>
            RetainedFrom(s.skipped, f.header.ratchetPublic, f.header.messageNumber)
  {
    var base := NewAppends(s, f, generated);
    var olds := OldRange(s, f);
    var news := WithRemote(f.header.ratchetPublic, KeysBetween(base, 0, f.header.messageNumber));
    OldRangeApart(s, f);
    RangeMeets(s.skipped, f.header.ratchetPublic, base, f.header.messageNumber);
    RetainedRange(s.remoteDh, s.receivingChain, s.receivingCount, f.header.previousChainLen);
    RetainedRange(f.header.ratchetPublic, base, 0, f.header.messageNumber);
    hide Decrypted, KeysBetween, WithRemote, UniqueKeys, Retained, RetainedFrom;
    UniqueConcat(s.skipped, olds);
    UniqueConcat(s.skipped + olds, news);
    RetainedAppend(s.skipped, olds);
  }

  // ---- a peer that repeats a key --------------------------------------------------------------

  /** The frame that the holder of `x` can send to `s` under that key, announcing no more of the old chain. */
  function FrameUnder(s: Ratchet, x: nat, n: u32): Frame {
    var h := FrameHeader(Message, s.sessionId, Generated(x), s.receivingCount, n);
    Frame(h, Sealed(s.suite, KeyAt(RootStep(s.rootKey, Pair(s.dhPair, x)).1, n), h, []))
  }

  /** It opens, within the budget, and retains the numbers below `n`. */
  lemma {:induction false} FrameUnderOpens(s: Ratchet, x: nat, n: u32, g: nat)
    requires s.remoteDh != Generated(x) && |s.skipped| + n <= MAX_SKIPPED_KEYS
    ensures var (s', outcome) := Decrypted(s, FrameUnder(s, x, n), Some(g));
            && outcome.Ok? && s'.remoteDh == Generated(x)
            && var base := RootStep(s.rootKey, Pair(s.dhPair, x)).1;
            s'.skipped == s.skipped + WithRemote(Generated(x), KeysBetween(base, 0, n))
  {
    hide WithRemote;
    var nothing := WithRemote(s.remoteDh, KeysBetween(s.receivingChain, s.receivingCount, s.receivingCount));
    assert nothing == [];
    assert s.skipped + nothing == s.skipped;
  }

  /** Three frames under the keys x, y and again x, where the first and the last skip number 0. */
  lemma {:induction false} ComingBackRepeats(s: Ratchet, x: nat, y: nat, g1: nat, g2: nat, g3: nat)
    requires s.remoteDh != Generated(x) && x != y && |s.skipped| + 2 <= MAX_SKIPPED_KEYS
    ensures var (s1, one) := Decrypted(s, FrameUnder(s, x, 1), Some(g1));
            var (s2, two) := Decrypted(s1, FrameUnder(s1, y, 0), Some(g2));
            var (s3, three) := Decrypted(s2, FrameUnder(s2, x, 1), Some(g3));
            && one.Ok? && two.Ok? && three.Ok? && |s3.skipped| == |s.skipped| + 2
            && !UniqueKeys(s3.skipped)
  {
    hide Decrypted, WithRemote, KeysBetween, FrameUnder;
    var s1 := Decrypted(s, FrameUnder(s, x, 1), Some(g1)).0;
    FrameUnderOpens(s, x, 1, g1);
    OneSkipped(Generated(x), RootStep(s.rootKey, Pair(s.dhPair, x)).1);
    FrameUnderOpens(s1, y, 0, g2);
    var s2 := Decrypted(s1, FrameUnder(s1, y, 0), Some(g2)).0;
    FrameUnderOpens(s2, x, 1, g3);
    OneSkipped(Generated(x), RootStep(s2.rootKey, Pair(s2.dhPair, x)).1);
    var s3 := Decrypted(s2, FrameUnder(s2, x, 1), Some(g3)).0;
    var none := WithRemote(Generated(y), KeysBetween(RootStep(s1.rootKey, Pair(s1.dhPair, y)).1, 0, 0));
    assert none == [];
    assert s2.skipped == s1.skipped;
    var n := |s.skipped|;
    assert KeyIdOf(s3.skipped[n]) == KeyIdOf(s3.skipped[n + 1]) == FrameId(Generated(x), 0);
  }

  lemma {:induction false} OneSkipped(remote: PublicKey, base: Secret)
    ensures var keys := WithRemote(remote, KeysBetween(base, 0, 1));
            |keys| == 1 && KeyIdOf(keys[0]) == FrameId(remote, 0)
  {
  }

  /** Repeated keys are sealed without complaint, and the blob is refused when it is restored. */
  lemma {:induction false} RepeatedKeysDoNotRestore(s: Ratchet, n: Naming, c: Primitives, key: Bytes32, context: Bytes,
                                                    nonce: Bytes)
    requires |s.skipped| <= MAX_SKIPPED_KEYS && !UniqueKeys(s.skipped)
    requires Sound(c) && |nonce| == Persistence.NONCE_LEN && |context| + 24 <= MAX_AAD_LEN
    ensures var sealed := Persistence.SealedState(c, PersistedSession.RecordOf(n, s), key, context, Some(nonce));
            sealed.Ok? && Persistence.RestoredState(c, key, context, 0, sealed.value) == Err(InvalidState)
  {
    var record := PersistedSession.RecordOf(n, s);
    var a, b :| 0 <= a < b < |s.skipped| && KeyIdOf(s.skipped[a]) == KeyIdOf(s.skipped[b]);
    assert Persistence.Clash(record.skipped[a], record.skipped[b]);
    hide Persistence.SealedState, Persistence.RestoredState;
    Persistence.SealThenRestore(c, record, key, context, nonce, 0);
  }
}
