/**
 What each call on a ratchet does, for any state and any argument: when it succeeds,
 every field after it, and which error it gives otherwise. All of it is written out
 in terms of the state's fields and of the key terms.
 */
module RatchetExact {
  import opened Common
  import opened KeyTerms
  import opened Schedule
  import opened Ratchet

  /** The chain secret `n` steps on. */
  function Ladder(chain: Secret, n: nat): Secret {
    if n == 0 then chain else NextChain(Ladder(chain, n - 1))
  }

  lemma {:induction false} LadderIsAdvance(chain: Secret, n: nat)
    ensures Advance(chain, n) == Ladder(chain, n) && KeyAt(chain, n) == MessageKey(Ladder(chain, n))
  {
    if n > 0 {
      LadderIsAdvance(chain, n - 1);
    }
  }

  /** One more, up to 2^64 - 1. */
  function Raised(generation: u64): u64 {
    if generation < 0xFFFF_FFFF_FFFF_FFFF then generation + 1 else generation
  }

  /** The two secrets, in either order. */
  predicate Between(dh: Shared, a: nat, b: nat) {
    multiset{dh.low, dh.high} == multiset{a, b} && dh.low <= dh.high
  }

  lemma {:induction false} PairIsUnordered(a: nat, b: nat)
    ensures Between(Pair(a, b), a, b) && Pair(a, b) == Pair(b, a)
  {
  }

  // ---- start ------------------------------------------------------------------------------------

  /** The initiator sends on the initiator-to-responder chain and receives on the other; the responder, reversely. */
  lemma {:induction false} StartsExactly(h: AuthenticatedHandshake, suite: AeadSuite)
    ensures var r := InitialRatchet(h, suite);
            && r.suite == suite && r.sessionId == h.sessionId && r.rootKey == h.rootSecret
            && r.dhPair == h.localRatchet && r.remoteDh == h.remoteRatchet
            && (h.role == Initiator ==>
                  && r.sendingChain == InitialChain(h.rootSecret, InitiatorToResponder, h.sessionId)
                  && r.receivingChain == InitialChain(h.rootSecret, ResponderToInitiator, h.sessionId))
            && (h.role == Responder ==>
                  && r.sendingChain == InitialChain(h.rootSecret, ResponderToInitiator, h.sessionId)
                  && r.receivingChain == InitialChain(h.rootSecret, InitiatorToResponder, h.sessionId))
            && r.previousSendingChainLen == r.sendingCount == r.receivingCount == r.generation == 0
            && r.skipped == []
  {
  }

  // ---- encrypt ----------------------------------------------------------------------------------

  /** The outcome of `encrypt` and every field after it. */
  lemma {:induction false} EncryptsExactly(s: Ratchet, kind: FrameKind, plaintext: seq<byte>, nonceReady: bool)
    ensures var (s', r) := Encrypted(s, kind, plaintext, nonceReady);
            if |plaintext| > 0x10_0000 - 16 then s' == s && r == Err(InvalidLength)
            else if !nonceReady then s' == s && r == Err(RandomnessUnavailable)
            else if s.sendingCount == 0xFFFF_FFFF then
              s' == s.(sendingChain := NextChain(s.sendingChain)) && r == Err(CounterExhausted)
            else
              && r.Ok?
              && r.value.header.kind == kind
              && r.value.header.sessionId == s.sessionId
              && r.value.header.ratchetPublic == Generated(s.dhPair)
              && r.value.header.previousChainLen == s.previousSendingChainLen
              && r.value.header.messageNumber == s.sendingCount
              && r.value.ciphertext == Sealed(s.suite, MessageKey(s.sendingChain), r.value.header, plaintext)
              && s' == s.(sendingChain := NextChain(s.sendingChain), sendingCount := s.sendingCount + 1,
                          generation := Raised(s.generation))
  {
  }

  // ---- rotate -----------------------------------------------------------------------------------

  /** The outcome of `rotate_sending_ratchet` and every field after it. */
  lemma {:induction false} RotatesExactly(s: Ratchet, generated: Option<nat>)
    ensures var (s', r) := Rotated(s, generated);
            if generated.None? then s' == s && r == Err(RandomnessUnavailable)
            else if s.remoteDh.LowOrder? then s' == s && r == Err(NonContributoryKeyAgreement)
            else
              && r == Ok(())
              && s'.rootKey.NextRoot? && s'.rootKey.root == s.rootKey
              && Between(s'.rootKey.dh, generated.value, s.remoteDh.secret)
              && s' == s.(rootKey := s'.rootKey, sendingChain := RootChain(s'.rootKey, s'.rootKey.dh),
                          dhPair := generated.value, previousSendingChainLen := s.sendingCount, sendingCount := 0,
                          generation := Raised(s.generation))
  {
    if generated.Some? && s.remoteDh.Generated? {
      PairIsUnordered(generated.value, s.remoteDh.secret);
    }
  }

  // ---- decrypt ----------------------------------------------------------------------------------

  /** A frame of another session or suite is refused at once, whatever its key and number. */
  lemma {:induction false} ForeignFrameRefused(s: Ratchet, f: Frame, generated: Option<nat>)
    requires f.header.sessionId != s.sessionId || f.ciphertext.suite != s.suite
    ensures Decrypted(s, f, generated) == (s, Err(RatchetStateMismatch))
  {
  }

  /** The body was sealed with `key` over the header that it arrives under. */
  predicate SealedUnder(f: Frame, key: AeadKey) {
    f.ciphertext.Sealed? && f.ciphertext.aad == f.header && f.ciphertext.key == key
  }

  /** Entry `i` is the first one retained for the frame's ratchet key and number. */
  predicate FirstRetained(s: Ratchet, f: Frame, i: nat) {
    && i < |s.skipped|
    && s.skipped[i].remoteDh == f.header.ratchetPublic && s.skipped[i].messageNumber == f.header.messageNumber
    && forall j :: 0 <= j < i ==>
         s.skipped[j].remoteDh != f.header.ratchetPublic || s.skipped[j].messageNumber != f.header.messageNumber
  }

  /** Of the current remote key, a number that the count has passed: the retained key opens it and is then gone. */
  lemma {:induction false} PassedNumberExactly(s: Ratchet, f: Frame, generated: Option<nat>)
    requires f.header.sessionId == s.sessionId && f.ciphertext.suite == s.suite
    requires f.header.ratchetPublic == s.remoteDh && f.header.messageNumber < s.receivingCount
    ensures (forall i: nat :: !FirstRetained(s, f, i)) ==>
              Decrypted(s, f, generated) == (s, Err(MessageKeyConsumed))
    ensures forall i: nat :: FirstRetained(s, f, i) ==>
              Decrypted(s, f, generated) ==
              if SealedUnder(f, s.skipped[i].key) then
                (s.(skipped := s.skipped[..i] + s.skipped[i + 1..], generation := Raised(s.generation)),
                 Ok(f.ciphertext.plaintext))
              else (s, Err(AuthenticationFailed))
  {
    var p := Position(s.skipped, f.header.ratchetPublic, f.header.messageNumber);
    if p < |s.skipped| {
      assert FirstRetained(s, f, p);
    }
    forall i: nat | FirstRetained(s, f, i)
      ensures i == p
    {
    }
  }

  /** The entries retained for the numbers from `start` on, on the chain that stands there. */
  predicate Retains(added: seq<SkippedMessageKey>, remote: PublicKey, chain: Secret, start: u32, end: u32) {
    && start <= end && |added| == end - start
    && forall j :: 0 <= j < |added| ==>
         added[j] == SkippedMessageKey(remote, start + j, MessageKey(Ladder(chain, j)))
  }

  lemma {:induction false} RangeRetains(remote: PublicKey, chain: Secret, start: u32, end: u32)
    requires start <= end
    ensures Retains(WithRemote(remote, KeysBetween(chain, start, end)), remote, chain, start, end)
  {
    forall j | 0 <= j < end - start
      ensures KeyAt(chain, j) == MessageKey(Ladder(chain, j))
    {
      LadderIsAdvance(chain, j);
    }
  }

  /** Of the current remote key, a number from the count on. */
  lemma {:induction false} AheadExactly(s: Ratchet, f: Frame, generated: Option<nat>)
    requires f.header.sessionId == s.sessionId && f.ciphertext.suite == s.suite
    requires f.header.ratchetPublic == s.remoteDh && s.receivingCount <= f.header.messageNumber
    ensures var (s', r) := Decrypted(s, f, generated);
            var gap := f.header.messageNumber - s.receivingCount;
            if |s.skipped| + gap > 1024 then s' == s && r == Err(SkippedKeyLimitExceeded)
            else if !SealedUnder(f, MessageKey(Ladder(s.receivingChain, gap))) then
              s' == s && r == Err(AuthenticationFailed)
            else if f.header.messageNumber == 0xFFFF_FFFF then
              s' == s.(receivingChain := Ladder(s.receivingChain, gap + 1)) && r == Err(CounterExhausted)
            else
              && r == Ok(f.ciphertext.plaintext)
              && s.skipped <= s'.skipped
              && Retains(s'.skipped[|s.skipped|..], s.remoteDh, s.receivingChain, s.receivingCount,
                         f.header.messageNumber)
              && s' == s.(receivingChain := Ladder(s.receivingChain, gap + 1),
                          receivingCount := f.header.messageNumber + 1,
                          skipped := s'.skipped, generation := Raised(s.generation))
  {
    var gap := f.header.messageNumber - s.receivingCount;
    LadderIsAdvance(s.receivingChain, gap);
    LadderIsAdvance(s.receivingChain, gap + 1);
    RangeRetains(s.remoteDh, s.receivingChain, s.receivingCount, f.header.messageNumber);
    hide WithRemote, KeysBetween, Retains;
    var added := WithRemote(s.remoteDh, KeysBetween(s.receivingChain, s.receivingCount, f.header.messageNumber));
    assert (s.skipped + added)[|s.skipped|..] == added;
  }

  /** Why a frame under a new remote key is refused, if it is: the first of these checks that fails. */
  function NewRefusal(s: Ratchet, f: Frame, generated: Option<nat>, key: AeadKey): Option<MefError> {
    var h := f.header;
    if h.previousChainLen < s.receivingCount then Some(RatchetStateMismatch)
    else if |s.skipped| + (h.previousChainLen - s.receivingCount) > 1024 then Some(SkippedKeyLimitExceeded)
    else if h.ratchetPublic.LowOrder? then Some(NonContributoryKeyAgreement)
    else if generated.None? then Some(RandomnessUnavailable)
    else if |s.skipped| + (h.previousChainLen - s.receivingCount) + h.messageNumber > 1024
    then Some(SkippedKeyLimitExceeded)
    else if !SealedUnder(f, key) then Some(AuthenticationFailed)
    else None
  }

  /** The chain that the other secret `x` and the local pair start on the next root. */
  function NewBase(s: Ratchet, x: nat): Secret {
    RootChain(NextRoot(s.rootKey, Pair(s.dhPair, x)), Pair(s.dhPair, x))
  }

  /** Under a new remote key. */
  lemma {:induction false} NewKeyExactly(s: Ratchet, f: Frame, generated: Option<nat>)
    requires f.header.sessionId == s.sessionId && f.ciphertext.suite == s.suite
    requires f.header.ratchetPublic != s.remoteDh
    ensures var (s', r) := Decrypted(s, f, generated);
            var x := if f.header.ratchetPublic.Generated? then f.header.ratchetPublic.secret else 0;
            var base, n, end := NewBase(s, x), f.header.messageNumber, f.header.previousChainLen;
            var refusal := NewRefusal(s, f, generated, MessageKey(Ladder(base, n)));
            if refusal.Some? then s' == s && r == Err(refusal.value)
            else
              var root := NextRoot(NextRoot(s.rootKey, Pair(s.dhPair, x)), Pair(generated.value, x));
              var olds := |s.skipped| + (end - s.receivingCount);
              && r == Ok(f.ciphertext.plaintext)
              && s.skipped <= s'.skipped && |s'.skipped| == olds + n
              && Retains(s'.skipped[|s.skipped|..olds], s.remoteDh, s.receivingChain, s.receivingCount, end)
              && Retains(s'.skipped[olds..], f.header.ratchetPublic, base, 0, n)
              && s' == Ratchet(s.sessionId, root, RootChain(root, Pair(generated.value, x)), Ladder(base, n + 1),
                               generated.value, f.header.ratchetPublic, s.sendingCount, 0, n + 1,
                               Raised(s.generation), s.suite, s'.skipped)
  {
    var x := if f.header.ratchetPublic.Generated? then f.header.ratchetPublic.secret else 0;
    var base, end := NewBase(s, x), f.header.previousChainLen;
    var n: nat := f.header.messageNumber;
    LadderIsAdvance(base, n);
    LadderIsAdvance(base, n + 1);
    RangeRetains(f.header.ratchetPublic, base, 0, n);
    var news := WithRemote(f.header.ratchetPublic, KeysBetween(base, 0, n));
    if s.receivingCount <= end {
      RangeRetains(s.remoteDh, s.receivingChain, s.receivingCount, end);
      var olds := WithRemote(s.remoteDh, KeysBetween(s.receivingChain, s.receivingCount, end));
      hide WithRemote, KeysBetween, Retains;
      var all := s.skipped + olds + news;
      assert all[|s.skipped|..|s.skipped| + |olds|] == olds && all[|s.skipped| + |olds|..] == news;
    }
  }

  /** When `decrypt` succeeds, for any state, any frame and any draw. */
  ghost predicate Opens(s: Ratchet, f: Frame, generated: Option<nat>) {
    var h := f.header;
    && h.sessionId == s.sessionId && f.ciphertext.suite == s.suite
    && if h.ratchetPublic == s.remoteDh then
         if h.messageNumber < s.receivingCount then
           exists i: nat :: FirstRetained(s, f, i) && SealedUnder(f, s.skipped[i].key)
         else
           && |s.skipped| + (h.messageNumber - s.receivingCount) <= 1024
           && SealedUnder(f, MessageKey(Ladder(s.receivingChain, h.messageNumber - s.receivingCount)))
           && h.messageNumber < 0xFFFF_FFFF
       else
         && s.receivingCount <= h.previousChainLen
         && |s.skipped| + (h.previousChainLen - s.receivingCount) + h.messageNumber <= 1024
         && h.ratchetPublic.Generated? && generated.Some?
         && SealedUnder(f, MessageKey(Ladder(NewBase(s, h.ratchetPublic.secret), h.messageNumber)))
  }

  lemma {:induction false} DecryptsExactly(s: Ratchet, f: Frame, generated: Option<nat>)
    ensures Decrypted(s, f, generated).1.Ok? <==> Opens(s, f, generated)
    ensures Opens(s, f, generated) ==> Decrypted(s, f, generated).1 == Ok(f.ciphertext.plaintext)
  {
    if f.header.sessionId != s.sessionId || f.ciphertext.suite != s.suite {
      ForeignFrameRefused(s, f, generated);
    } else if f.header.ratchetPublic != s.remoteDh {
      NewKeyExactly(s, f, generated);
      hide Decrypted;
    } else if s.receivingCount <= f.header.messageNumber {
      AheadExactly(s, f, generated);
      hide Decrypted;
    } else {
      PassedNumberExactly(s, f, generated);
      hide Decrypted;
    }
  }
}
