/** Every ratchet that a run can reach survives being sealed and restored. */
module PersistedSession {
  import opened Common
  import opened ByteCoding
  import opened Primitives
  import opened ByteNames
  import opened Ratchet
  import opened Session
  import SessionFailures
  import Persistence

  function EntryOf(n: Naming, k: SkippedMessageKey): Persistence.Entry {
    Persistence.Entry(n.publicKey(k.remoteDh), k.messageNumber, n.messageKey(k.key))
  }

  function EntriesOf(n: Naming, skipped: seq<SkippedMessageKey>): (r: seq<Persistence.Entry>)
    ensures |r| == |skipped| && forall i :: 0 <= i < |r| ==> r[i] == EntryOf(n, skipped[i])
  {
    seq(|skipped|, i requires 0 <= i < |skipped| => EntryOf(n, skipped[i]))
  }

  function RecordOf(n: Naming, r: Ratchet): Persistence.StateRecord {
    Persistence.StateRecord(
      n.session(r.sessionId), n.secret(r.rootKey), n.secret(r.sendingChain), n.secret(r.receivingChain),
      n.dhSecret(r.dhPair), n.publicKey(r.remoteDh),
      r.previousSendingChainLen, r.sendingCount, r.receivingCount, r.generation, r.suite, EntriesOf(n, r.skipped))
  }

  /** Each field of a record stands for the field of the same name. */
  lemma {:induction false} RecordFields(n: Naming, r: Ratchet)
    ensures var record := RecordOf(n, r);
            && record.sessionId == n.session(r.sessionId) && record.rootKey == n.secret(r.rootKey)
            && record.sendingChain == n.secret(r.sendingChain) && record.receivingChain == n.secret(r.receivingChain)
            && record.dhSecret == n.dhSecret(r.dhPair) && record.remoteDh == n.publicKey(r.remoteDh)
            && record.previousSendingChainLen == r.previousSendingChainLen && record.sendingCount == r.sendingCount
            && record.receivingCount == r.receivingCount && record.generation == r.generation && record.suite == r.suite
            && |record.skipped| == |r.skipped|
            && forall i :: 0 <= i < |r.skipped| ==>
                 && record.skipped[i].remoteDh == n.publicKey(r.skipped[i].remoteDh)
                 && record.skipped[i].messageNumber == r.skipped[i].messageNumber
                 && record.skipped[i].key == n.messageKey(r.skipped[i].key)
  {
  }

  /** Different ratchet keys among the retained entries have different bytes. */
  ghost predicate KeysApart(n: Naming, skipped: seq<SkippedMessageKey>) {
    forall i, j :: 0 <= i < j < |skipped| && skipped[i].remoteDh != skipped[j].remoteDh ==>
      n.publicKey(skipped[i].remoteDh) != n.publicKey(skipped[j].remoteDh)
  }

  lemma {:induction false} UniqueAsBytes(n: Naming, skipped: seq<SkippedMessageKey>)
    requires UniqueKeys(skipped) && KeysApart(n, skipped)
    ensures Persistence.Unique(EntriesOf(n, skipped))
  {
    var entries := EntriesOf(n, skipped);
    forall i, j | 0 <= i < j < |entries|
      ensures !Persistence.Clash(entries[i], entries[j])
    {
      assert KeyIdOf(skipped[i]) != KeyIdOf(skipped[j]);
    }
  }

  /** In every run, at every moment, the record of either endpoint is one that storage takes and gives back. */
  lemma {:induction false} ReachableIsStorable(w: World, p: Party, n: Naming)
    requires Reachable(w) && KeysApart(n, w.At(p).skipped)
    ensures Persistence.Storable(RecordOf(n, w.At(p)))
  {
    SessionFailures.SkippedBounded(w, p);
    hide Reachable;
    UniqueAsBytes(n, w.At(p).skipped);
  }

  /**
   In every run, at every moment, either endpoint can be sealed under any context
   within the limit; the untouched blob restores to the very same state, for exactly
   the rollback floors that do not exceed its generation. With another generation `g`
   in the header, which nothing authenticates, the same holds of `g` in its place.
   */
  lemma {:induction false} ReachableStateRestores(w: World, p: Party, n: Naming, c: Primitives, key: Bytes32,
                                                  context: Bytes, nonce: Bytes, floor: u64, g: u64)
    requires Reachable(w) && KeysApart(n, w.At(p).skipped)
    requires Sound(c) && |nonce| == Persistence.NONCE_LEN && |context| + 24 <= MAX_AAD_LEN
    ensures var state := RecordOf(n, w.At(p));
            var sealed := Persistence.SealedState(c, state, key, context, Some(nonce));
            && sealed.Ok? && |sealed.value| >= Persistence.HEADER_LEN
            && Persistence.RestoredState(c, key, context, floor, sealed.value) ==
               (if floor <= w.At(p).generation then Ok(state) else Err(StateRollbackDetected))
            && Persistence.RestoredState(c, key, context, floor, Persistence.WithGeneration(sealed.value, g)) ==
               (if floor <= g then Ok(state.(generation := g)) else Err(StateRollbackDetected))
  {
    ReachableIsStorable(w, p, n);
    hide Reachable, Persistence.SealedState, Persistence.RestoredState, KeysApart, Persistence.Unique,
         Persistence.WithGeneration;
    Persistence.SealThenRestore(c, RecordOf(n, w.At(p)), key, context, nonce, floor);
    Persistence.SealThenRestoreWithGeneration(c, RecordOf(n, w.At(p)), key, context, nonce, floor, g);
  }
}
