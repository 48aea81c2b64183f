/**
 What each call of the handshake does, for any store, bundle, message and draw: when
 it succeeds, what comes out field by field, and which error it gives otherwise. The
 checks of signatures are written out as the signature that must be there.
 */
module HandshakeExact {
  import opened Common
  import opened KeyTerms
  import opened Ratchet
  import opened Handshake
  import opened HandshakeTheorems

  // ---- the store ----------------------------------------------------------------------------------

  /** A generated store, and the bundle of any store: the oldest one-time prekey is offered. */
  lemma {:induction false} StoreContents(m: PrekeyStore, identity: LocalIdentity, key: nat, id: u32, expiresAt: u64)
    ensures NewStore(identity, key, id, expiresAt) ==
            PrekeyStore(identity, key,
                        SignedPrekey(id, Generated(key), expiresAt,
                                     Signed(identity.signer, Prekey(id, Generated(key), expiresAt))),
                        [], [])
    ensures var bundle := BundleOf(m);
            && bundle.identity.signing.signer == m.identity.signer && bundle.identity.dh == Generated(m.identity.dh)
            && bundle.identity.signature == Signed(m.identity.signer, Binding(Generated(m.identity.dh)))
            && bundle.signedPrekey == m.signedRecord
            && bundle.oneTimePrekey == if m.oneTime == [] then None else Some(m.oneTime[0].public)
  {
  }

  lemma {:induction false} AddOutcome(m: PrekeyStore, id: u32, generated: Option<nat>)
    ensures Added(m, id, generated) ==
            if exists k :: 0 <= k < |m.oneTime| && m.oneTime[k].public.id == id then (m, Err(InvalidState))
            else if generated.None? then (m, Err(RandomnessUnavailable))
            else
              (PrekeyStore(m.identity, m.signedPrekey, m.signedRecord, m.retired,
                           m.oneTime + [OneTimePrekey(OneTimePrekeyPublic(id, Generated(generated.value)),
                                                      generated.value)]),
               Ok(()))
  {
    var i := OneTimeIndex(m.oneTime, id);
    if i < |m.oneTime| {
      assert m.oneTime[i].public.id == id;
    }
  }

  lemma {:induction false} RotateOutcome(m: PrekeyStore, id: u32, expiresAt: u64, drawn: Option<nat>)
    ensures SignedRotated(m, id, expiresAt, drawn) ==
            if m.signedRecord.keyId == id || exists k :: 0 <= k < |m.retired| && m.retired[k].record.keyId == id
            then (m, Err(InvalidState))
            else if drawn.None? then (m, Err(RandomnessUnavailable))
            else
              var public := Generated(drawn.value);
              (PrekeyStore(m.identity, drawn.value,
                           SignedPrekey(id, public, expiresAt,
                                        Signed(m.identity.signer, Prekey(id, public, expiresAt))),
                           m.retired + [RetiredPrekey(m.signedRecord, m.signedPrekey)], m.oneTime),
               Ok(()))
  {
    var i := RetiredIndex(m.retired, id);
    if i < |m.retired| {
      assert m.retired[i].record.keyId == id;
    }
  }

  /** Record `i` is the first retained one with this id. */
  predicate FirstRetired(m: PrekeyStore, id: u32, i: nat) {
    i < |m.retired| && m.retired[i].record.keyId == id && forall j :: 0 <= j < i ==> m.retired[j].record.keyId != id
  }

  /** For an id that is not retained, and for the first record `i` of one that is. */
  lemma {:induction false} RetireOutcome(m: PrekeyStore, id: u32, i: nat)
    ensures (forall k :: 0 <= k < |m.retired| ==> m.retired[k].record.keyId != id) ==>
              SignedRetired(m, id) == (m, Err(InvalidState))
    ensures FirstRetired(m, id, i) ==>
              SignedRetired(m, id) == (m.(retired := m.retired[..i] + m.retired[i + 1..]), Ok(()))
  {
    var p := RetiredIndex(m.retired, id);
    if FirstRetired(m, id, i) {
      assert p == i;
    }
  }

  /** The key under a signed-prekey id is the current one, or that of the first retained record with the id. */
  lemma {:induction false} SignedKeyMeans(m: PrekeyStore, id: u32, key: nat)
    ensures SignedKey(m, id) == Some(key) <==>
            if m.signedRecord.keyId == id then key == m.signedPrekey
            else exists i :: 0 <= i < |m.retired| && m.retired[i].record.keyId == id && m.retired[i].key == key
                             && forall j :: 0 <= j < i ==> m.retired[j].record.keyId != id
  {
    var p := RetiredIndex(m.retired, id);
    if p < |m.retired| {
      forall i | 0 <= i < |m.retired| && m.retired[i].record.keyId == id
                 && (forall j :: 0 <= j < i ==> m.retired[j].record.keyId != id)
        ensures i == p
      {
      }
    }
  }

  lemma {:induction false} OneTimeKeyMeans(m: PrekeyStore, id: u32, key: nat)
    ensures OneTimeKey(m, id) == Some(key) <==>
            exists i :: 0 <= i < |m.oneTime| && m.oneTime[i].public.id == id && m.oneTime[i].key == key
                        && forall j :: 0 <= j < i ==> m.oneTime[j].public.id != id
  {
    var p := OneTimeIndex(m.oneTime, id);
    if p < |m.oneTime| {
      forall i | 0 <= i < |m.oneTime| && m.oneTime[i].public.id == id
                 && (forall j :: 0 <= j < i ==> m.oneTime[j].public.id != id)
        ensures i == p
      {
      }
    }
  }

  // ---- initiate -----------------------------------------------------------------------------------

  /** The bundle's two signatures are there: the identity record's binding, and the signed prekey's, by one signer. */
  predicate SignedAsNeeded(bundle: ResponderPrekeyBundle) {
    var signer, prekey := bundle.identity.signing.signer, bundle.signedPrekey;
    && bundle.identity.signature == Signed(signer, Binding(bundle.identity.dh))
    && prekey.signature == Signed(signer, Prekey(prekey.keyId, prekey.public, prekey.expiresAt))
  }

  predicate Contributory(bundle: ResponderPrekeyBundle) {
    && bundle.identity.dh.Generated? && bundle.signedPrekey.public.Generated?
    && (bundle.oneTimePrekey.Some? ==> bundle.oneTimePrekey.value.public.Generated?)
  }

  /** The outcome of `initiate` on any bundle. */
  lemma {:induction false} InitiatesExactly(i: LocalIdentity, bundle: ResponderPrekeyBundle, now: u64,
                                            ephemeral: Option<nat>, ratchet: Option<nat>)
    ensures var r := Initiated(i, bundle, now, ephemeral, ratchet);
            if !SignedAsNeeded(bundle) || now > bundle.signedPrekey.expiresAt then r == Err(AuthenticationFailed)
            else if ephemeral.None? || ratchet.None? then r == Err(RandomnessUnavailable)
            else if !Contributory(bundle) then r == Err(NonContributoryKeyAgreement)
            else
              var prekey, offered, e := bundle.signedPrekey, bundle.oneTimePrekey, ephemeral.value;
              && r.Ok?
              && var (message, a) := r.value;
              && message.initiatorIdentity == IdentityDhPublic(IdentityPublicKey(i.signer), Generated(i.dh),
                                                               Signed(i.signer, Binding(Generated(i.dh))))
              && message.initiatorEphemeral == Generated(e) && message.initiatorRatchet == Generated(ratchet.value)
              && message.signedPrekeyId == prekey.keyId
              && message.oneTimePrekeyId == (if offered.Some? then Some(offered.value.id) else None)
              && a.sessionId == SessionId(message, bundle.identity)
              && a.rootSecret == HandshakeRoot(a.sessionId,
                   [Pair(i.dh, prekey.public.secret), Pair(e, bundle.identity.dh.secret), Pair(e, prekey.public.secret)]
                   + if offered.Some? then [Pair(e, offered.value.public.secret)] else [])
              && a.role == Initiator && a.localRatchet == ratchet.value && a.remoteRatchet == prekey.public
  {
  }

  /** `c` is something that the responder has signed by now: its identity binding, or a signed prekey of its own. */
  ghost predicate SignedByResponder(m: PrekeyStore, events: seq<Event>, c: Transcript) {
    || c == Binding(Generated(m.identity.dh))
    || exists n: nat {:trigger StoreAfter(m, events, n)} :: n <= |events| && IsRecord(StoreAfter(m, events, n), c)
  }

  predicate IsRecord(m: PrekeyStore, c: Transcript) {
    c == Prekey(m.signedRecord.keyId, m.signedRecord.public, m.signedRecord.expiresAt)
  }

  /**
   If signatures under the responder's key are those it made, `initiate` accepts a
   bundle that names the responder only with a signed prekey that the responder really
   had as its current one, at some time; every other is refused as unauthentic.
   */
  lemma {:induction false} OnlyIssuedPrekeys(m: PrekeyStore, events: seq<Event>, i: LocalIdentity,
                                             bundle: ResponderPrekeyBundle, now: u64, e: Option<nat>, r: Option<nat>)
    requires StoreInv(m) && bundle.identity.signing == IdentityPublicKey(m.identity.signer)
    requires forall c ::
               bundle.signedPrekey.signature == Signed(m.identity.signer, c) ==> SignedByResponder(m, events, c)
    ensures (exists n: nat {:trigger StoreAfter(m, events, n)} ::
               n <= |events| && StoreAfter(m, events, n).signedRecord == bundle.signedPrekey)
            || Initiated(i, bundle, now, e, r) == Err(AuthenticationFailed)
  {
    InitiatesExactly(i, bundle, now, e, r);
    hide Initiated, StoreInv;
    var prekey := bundle.signedPrekey;
    var c := Prekey(prekey.keyId, prekey.public, prekey.expiresAt);
    if prekey.signature == Signed(m.identity.signer, c) {
      assert SignedByResponder(m, events, c);
      var n: nat :| n <= |events| && IsRecord(StoreAfter(m, events, n), c);
      RecordIsSigned(m, events, n);
      assert StoreAfter(m, events, n).signedRecord == prekey;
    }
  }

  lemma {:induction false} RecordIsSigned(m: PrekeyStore, events: seq<Event>, n: nat)
    requires StoreInv(m) && n <= |events|
    ensures var record := StoreAfter(m, events, n).signedRecord;
            record.signature == Signed(m.identity.signer, Prekey(record.keyId, record.public, record.expiresAt))
  {
    RunInv(m, events, n);
    hide StoreAfter;
  }

  // ---- accept -------------------------------------------------------------------------------------

  /** The outcome of `accept` on any store and message, and the store after it. */
  lemma {:induction false} AcceptOutcome(m: PrekeyStore, message: InitiatorHandshake)
    ensures var (m', r) := Accepted(m, message);
            var i, e, id := message.initiatorIdentity, message.initiatorEphemeral, message.oneTimePrekeyId;
            if i.signature != Signed(i.signing.signer, Binding(i.dh)) then m' == m && r == Err(AuthenticationFailed)
            else if SignedKey(m, message.signedPrekeyId).None? || (id.Some? && OneTimeKey(m, id.value).None?) then
              m' == m && r == Err(RatchetStateMismatch)
            else if !i.dh.Generated? || !e.Generated? then m' == m && r == Err(NonContributoryKeyAgreement)
            else
              var signed := SignedKey(m, message.signedPrekeyId).value;
              && r.Ok?
              && r.value.sessionId == SessionId(message, IdentityDhPublic(IdentityPublicKey(m.identity.signer),
                   Generated(m.identity.dh), Signed(m.identity.signer, Binding(Generated(m.identity.dh)))))
              && r.value.rootSecret == HandshakeRoot(r.value.sessionId,
                   [Pair(signed, i.dh.secret), Pair(m.identity.dh, e.secret), Pair(signed, e.secret)]
                   + if id.Some? then [Pair(OneTimeKey(m, id.value).value, e.secret)] else [])
              && r.value.role == Responder && r.value.localRatchet == signed
              && r.value.remoteRatchet == message.initiatorRatchet
              && (id.None? ==> m' == m)
              && (id.Some? ==> exists k :: UsesUp(m, m', id.value, k))
  {
    var id := message.oneTimePrekeyId;
    hide SignedKey;
    if id.Some? && OneTimeKey(m, id.value).Some? && Accepted(m, message).1.Ok? {
      assert UsesUp(m, Accepted(m, message).0, id.value, OneTimeIndex(m.oneTime, id.value));
    }
  }

  /** `m'` is `m` without its first one-time prekey with this id, which stood at `k`; all else is as it was. */
  predicate UsesUp(m: PrekeyStore, m': PrekeyStore, id: u32, k: int) {
    && 0 <= k < |m.oneTime| && m.oneTime[k].public.id == id
    && (forall j :: 0 <= j < k ==> m.oneTime[j].public.id != id)
    && m' == m.(oneTime := m.oneTime[..k] + m.oneTime[k + 1..])
  }

  /** Over any calls: who is accepted as an initiator presents a DH identity that its signing key bound. */
  lemma {:induction false} AcceptedInitiatorIsBound(m: PrekeyStore, events: seq<Event>, n: nat)
    requires n < |events| && events[n].AcceptMessage?
    requires Accepted(StoreAfter(m, events, n), events[n].message).1.Ok?
    ensures var i := events[n].message.initiatorIdentity;
            i.signature == Signed(i.signing.signer, Binding(i.dh)) && i.dh.Generated?
  {
    AcceptOutcome(StoreAfter(m, events, n), events[n].message);
    hide Accepted, StoreAfter;
  }

  /**
   If signatures under an initiator's key are those it made, binding its own DH
   identity, then who is accepted in its name agrees with that identity: nobody else
   is, and the first agreement in the root is with its secret.
   */
  lemma {:induction false} AcceptedInNameOf(m: PrekeyStore, message: InitiatorHandshake, i: LocalIdentity)
    requires Accepted(m, message).1.Ok? && message.initiatorIdentity.signing == IdentityPublicKey(i.signer)
    requires forall dh :: message.initiatorIdentity.signature == Signed(i.signer, Binding(dh)) ==> dh == Generated(i.dh)
    ensures message.initiatorIdentity == i.Public()
    ensures var a := Accepted(m, message).1.value;
            && a.rootSecret.HandshakeRoot? && |a.rootSecret.agreements| >= 3
            && a.rootSecret.agreements[0] == Pair(i.dh, a.localRatchet)
  {
    AcceptOutcome(m, message);
    PairSymmetric();
    hide Accepted;
  }
}
