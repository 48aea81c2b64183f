/** What the prekey store keeps over any calls, and when a delayed handshake agrees. */
module HandshakeTheorems {
  import opened Common
  import opened KeyTerms
  import opened Ratchet
  import opened Handshake
  import Session

  // ---- the store invariant --------------------------------------------------------------------

  predicate IssuedBy(identity: LocalIdentity, record: SignedPrekey, key: nat) {
    record == Issue(identity, record.keyId, Generated(key), record.expiresAt)
  }

  /** Ids are unique, and every record and public key belongs to the key it is held with. */
  ghost predicate StoreInv(m: PrekeyStore) {
    && (forall i, j :: 0 <= i < j < |m.oneTime| ==> m.oneTime[i].public.id != m.oneTime[j].public.id)
    && (forall i, j :: 0 <= i < j < |m.retired| ==> m.retired[i].record.keyId != m.retired[j].record.keyId)
    && (forall i :: 0 <= i < |m.retired| ==>
          m.retired[i].record.keyId != m.signedRecord.keyId
          && IssuedBy(m.identity, m.retired[i].record, m.retired[i].key))
    && IssuedBy(m.identity, m.signedRecord, m.signedPrekey)
    && (forall i :: 0 <= i < |m.oneTime| ==> m.oneTime[i].public.public == Generated(m.oneTime[i].key))
  }

  datatype Event =
    | AddOneTime(id: u32, generated: Option<nat>)
    | RotateSigned(newId: u32, expiresAt: u64, drawn: Option<nat>)
    | RetireSigned(oldId: u32)
    | AcceptMessage(message: InitiatorHandshake)

  function Step(m: PrekeyStore, e: Event): PrekeyStore {
    match e
    case AddOneTime(id, generated) => Added(m, id, generated).0
    case RotateSigned(id, expiresAt, drawn) => SignedRotated(m, id, expiresAt, drawn).0
    case RetireSigned(id) => SignedRetired(m, id).0
    case AcceptMessage(message) => Accepted(m, message).0
  }

  function Succeeds(m: PrekeyStore, e: Event): bool {
    match e
    case AddOneTime(id, generated) => Added(m, id, generated).1.Ok?
    case RotateSigned(id, expiresAt, drawn) => SignedRotated(m, id, expiresAt, drawn).1.Ok?
    case RetireSigned(id) => SignedRetired(m, id).1.Ok?
    case AcceptMessage(message) => Accepted(m, message).1.Ok?
  }

  /** The store after the first `n` events. */
  function StoreAfter(m: PrekeyStore, events: seq<Event>, n: nat): PrekeyStore
    requires n <= |events|
  {
    if n == 0 then m else Step(StoreAfter(m, events, n - 1), events[n - 1])
  }

  lemma {:induction false} NewStoreInv(identity: LocalIdentity, key: nat, id: u32, expiresAt: u64, used: set<nat>)
    ensures var m := NewStore(identity, key, id, expiresAt); StoreInv(m) && OneTimeSecrets(m, used)
  {
  }

  /** Every call keeps the invariant and the identity, and a failing call changes nothing. */
  lemma {:induction false} StepInv(m: PrekeyStore, e: Event)
    requires StoreInv(m)
    ensures StoreInv(Step(m, e)) && Step(m, e).identity == m.identity
    ensures !Succeeds(m, e) ==> Step(m, e) == m
  {
    hide Agreements, HandshakeValues, IdentityVerifies;
  }

  lemma {:induction false} RunInv(m: PrekeyStore, events: seq<Event>, n: nat)
    requires StoreInv(m) && n <= |events|
    ensures StoreInv(StoreAfter(m, events, n)) && StoreAfter(m, events, n).identity == m.identity
  {
    hide Step, StoreInv;
    if n > 0 {
      RunInv(m, events, n - 1);
      StepInv(StoreAfter(m, events, n - 1), events[n - 1]);
    }
  }

  // ---- held ids -------------------------------------------------------------------------------

  lemma {:induction false} RetiredAt(retired: seq<RetiredPrekey>, i: nat)
    requires i < |retired|
    requires forall a, b :: 0 <= a < b < |retired| ==> retired[a].record.keyId != retired[b].record.keyId
    ensures RetiredIndex(retired, retired[i].record.keyId) == i
  {
  }

  lemma {:induction false} OneTimeAt(oneTime: seq<OneTimePrekey>, i: nat)
    requires i < |oneTime|
    requires forall a, b :: 0 <= a < b < |oneTime| ==> oneTime[a].public.id != oneTime[b].public.id
    ensures OneTimeIndex(oneTime, oneTime[i].public.id) == i
  {
  }

  // ---- what each call does to the held ids ----------------------------------------------------

  /** Adding succeeds exactly for an id not held, and maps just that id to the new key. */
  lemma {:induction false} AddsExactly(m: PrekeyStore, id: u32, generated: Option<nat>)
    requires StoreInv(m)
    ensures var (m', r) := Added(m, id, generated);
            && (r.Ok? <==> OneTimeKey(m, id).None? && generated.Some?)
            && (forall x: u32 :: OneTimeKey(m', x) == if r.Ok? && x == id then generated else OneTimeKey(m, x))
            && (forall x: u32 :: SignedKey(m', x) == SignedKey(m, x))
  {
    var (m', r) := Added(m, id, generated);
    if r.Ok? {
      forall x: u32
        ensures OneTimeKey(m', x) == if x == id then generated else OneTimeKey(m, x)
      {
        OneTimeAppend(m.oneTime, m'.oneTime[|m.oneTime|], x);
      }
    }
  }

  lemma {:induction false} OneTimeAppend(oneTime: seq<OneTimePrekey>, p: OneTimePrekey, id: u32)
    ensures var i, all := OneTimeIndex(oneTime, id), oneTime + [p];
            OneTimeIndex(all, id) == if i < |oneTime| || p.public.id == id then i else |all|
  {
    var i, all := OneTimeIndex(oneTime, id), oneTime + [p];
    var k := OneTimeIndex(all, id);
    assert all[|oneTime|] == p;
    assert forall j :: 0 <= j < |oneTime| ==> all[j] == oneTime[j];
    if i < |oneTime| {
      assert all[i].public.id == id;
    }
  }

  /** Rotating succeeds exactly for an id not held; that id gets the new key and becomes current, the rest is kept. */
  lemma {:induction false} RotatesExactly(m: PrekeyStore, id: u32, expiresAt: u64, drawn: Option<nat>)
    requires StoreInv(m)
    ensures var (m', r) := SignedRotated(m, id, expiresAt, drawn);
            && (r.Ok? <==> SignedKey(m, id).None? && drawn.Some?)
            && (r.Ok? ==> m'.signedRecord.keyId == id && m'.signedRecord.expiresAt == expiresAt)
            && (forall x: u32 :: SignedKey(m', x) == if r.Ok? && x == id then drawn else SignedKey(m, x))
            && (forall x: u32 :: OneTimeKey(m', x) == OneTimeKey(m, x))
  {
    var (m', r) := SignedRotated(m, id, expiresAt, drawn);
    if r.Ok? {
      forall x: u32
        ensures SignedKey(m', x) == if x == id then drawn else SignedKey(m, x)
      {
        RetiredAppend(m.retired, m'.retired[|m.retired|], x);
      }
    }
  }

  lemma {:induction false} RetiredAppend(retired: seq<RetiredPrekey>, p: RetiredPrekey, id: u32)
    ensures var i, all := RetiredIndex(retired, id), retired + [p];
            RetiredIndex(all, id) == if i < |retired| || p.record.keyId == id then i else |all|
  {
    var i, all := RetiredIndex(retired, id), retired + [p];
    var k := RetiredIndex(all, id);
    assert all[|retired|] == p;
    assert forall j :: 0 <= j < |retired| ==> all[j] == retired[j];
    if i < |retired| {
      assert all[i].record.keyId == id;
    }
  }

  /** Retiring succeeds exactly for a retained id, never the current one, and drops just that id. */
  lemma {:induction false} RetiresExactly(m: PrekeyStore, id: u32)
    requires StoreInv(m)
    ensures var (m', r) := SignedRetired(m, id);
            && (r.Ok? <==> SignedKey(m, id).Some? && id != m.signedRecord.keyId)
            && m'.signedRecord == m.signedRecord
            && (forall x: u32 :: SignedKey(m', x) == if r.Ok? && x == id then None else SignedKey(m, x))
            && (forall x: u32 :: OneTimeKey(m', x) == OneTimeKey(m, x))
  {
    var (m', r) := SignedRetired(m, id);
    if r.Ok? {
      forall x: u32
        ensures SignedKey(m', x) == if x == id then None else SignedKey(m, x)
      {
        RemovedRetired(m.retired, RetiredIndex(m.retired, id), x);
      }
    }
  }

  lemma {:induction false} RemovedRetired(retired: seq<RetiredPrekey>, at: nat, id: u32)
    requires at < |retired|
    requires forall a, b :: 0 <= a < b < |retired| ==> retired[a].record.keyId != retired[b].record.keyId
    ensures var i, rest := RetiredIndex(retired, id), RemoveAt(retired, at);
            RetiredIndex(rest, id) == if i == at then |rest| else if i < at then i else i - 1
  {
    var i, rest := RetiredIndex(retired, id), RemoveAt(retired, at);
    if i < |retired| && i != at {
      RetiredAt(rest, if i < at then i else i - 1);
    }
  }

  /** `accept` succeeds exactly here; it then uses up the named one-time prekey and touches nothing else. */
  lemma {:induction false} AcceptsExactly(m: PrekeyStore, message: InitiatorHandshake)
    requires StoreInv(m)
    ensures var (m', r) := Accepted(m, message);
            && (r.Ok? <==>
                  && message.initiatorIdentity.signature
                     == Signed(message.initiatorIdentity.signing.signer, Binding(message.initiatorIdentity.dh))
                  && SignedKey(m, message.signedPrekeyId).Some?
                  && (message.oneTimePrekeyId.Some? ==> OneTimeKey(m, message.oneTimePrekeyId.value).Some?)
                  && message.initiatorIdentity.dh.Generated? && message.initiatorEphemeral.Generated?)
            && (message.initiatorIdentity.signature
                  != Signed(message.initiatorIdentity.signing.signer, Binding(message.initiatorIdentity.dh)) ==>
                  r == Err(AuthenticationFailed))
            && (r.Err? || message.oneTimePrekeyId.None? ==> m' == m)
            && (r.Ok? ==> forall id: u32 :: OneTimeKey(m', id) ==
                            if message.oneTimePrekeyId == Some(id) then None else OneTimeKey(m, id))
            && (forall id: u32 :: SignedKey(m', id) == SignedKey(m, id))
  {
    hide HandshakeValues;
    if Accepted(m, message).1.Ok? && message.oneTimePrekeyId.Some? {
      forall id: u32
        ensures OneTimeKey(Accepted(m, message).0, id) ==
                if message.oneTimePrekeyId == Some(id) then None else OneTimeKey(m, id)
      {
        RemovedKey(m.oneTime, OneTimeIndex(m.oneTime, message.oneTimePrekeyId.value), id);
      }
    }
  }

  lemma {:induction false} RemovedKey(oneTime: seq<OneTimePrekey>, at: nat, id: u32)
    requires at < |oneTime|
    requires forall a, b :: 0 <= a < b < |oneTime| ==> oneTime[a].public.id != oneTime[b].public.id
    ensures var i, rest := OneTimeIndex(oneTime, id), RemoveAt(oneTime, at);
            OneTimeIndex(rest, id) == if i == at then |rest| else if i < at then i else i - 1
  {
    var i, rest := OneTimeIndex(oneTime, id), RemoveAt(oneTime, at);
    if i < |oneTime| && i != at {
      OneTimeAt(rest, if i < at then i else i - 1);
    }
  }

  /** A call that leaves an id held leaves it with the same key. */
  lemma {:induction false} HeldKeyKept(m: PrekeyStore, e: Event, id: u32)
    requires StoreInv(m)
    ensures SignedKey(m, id).Some? && SignedKey(Step(m, e), id).Some? ==>
              SignedKey(Step(m, e), id) == SignedKey(m, id)
    ensures OneTimeKey(m, id).Some? && OneTimeKey(Step(m, e), id).Some? ==>
              OneTimeKey(Step(m, e), id) == OneTimeKey(m, id)
  {
    hide SignedKey, OneTimeKey, StoreInv, Added, SignedRotated, SignedRetired, Accepted;
    match e {
      case AddOneTime(newId, generated) => AddsExactly(m, newId, generated);
      case RotateSigned(newId, expiresAt, drawn) => RotatesExactly(m, newId, expiresAt, drawn);
      case RetireSigned(oldId) => RetiresExactly(m, oldId);
      case AcceptMessage(message) => AcceptsExactly(m, message);
    }
  }

  ghost predicate SignedHeld(m: PrekeyStore, events: seq<Event>, id: u32) {
    forall n: nat {:trigger StoreAfter(m, events, n)} ::
      n <= |events| ==> SignedKey(StoreAfter(m, events, n), id).Some?
  }

  ghost predicate OneTimeHeld(m: PrekeyStore, events: seq<Event>, id: u32) {
    forall n: nat {:trigger StoreAfter(m, events, n)} ::
      n <= |events| ==> OneTimeKey(StoreAfter(m, events, n), id).Some?
  }

  /** Over any calls, an id held throughout maps to one key. */
  lemma {:induction false} HeldKeysFixed(m: PrekeyStore, events: seq<Event>, id: u32, n: nat)
    requires StoreInv(m) && n <= |events|
    ensures SignedHeld(m, events, id) ==> SignedKey(StoreAfter(m, events, n), id) == SignedKey(m, id)
    ensures OneTimeHeld(m, events, id) ==> OneTimeKey(StoreAfter(m, events, n), id) == OneTimeKey(m, id)
  {
    hide Step, StoreInv, SignedKey, OneTimeKey;
    if n > 0 {
      HeldKeysFixed(m, events, id, n - 1);
      RunInv(m, events, n - 1);
      var before := StoreAfter(m, events, n - 1);
      assert StoreAfter(m, events, n) == Step(before, events[n - 1]);
      HeldKeyKept(before, events[n - 1], id);
    }
  }

  // ---- accepting ------------------------------------------------------------------------------

  /**
   The same message is accepted a second time exactly when it names no one-time
   prekey, and then with the very same session identifier, root and ratchet keys.
   */
  lemma {:induction false} AcceptedTwice(m: PrekeyStore, message: InitiatorHandshake)
    requires StoreInv(m) && Accepted(m, message).1.Ok?
    ensures Accepted(Accepted(m, message).0, message).1.Ok? <==> message.oneTimePrekeyId.None?
    ensures message.oneTimePrekeyId.None? ==> Accepted(Accepted(m, message).0, message) == Accepted(m, message)
  {
    AcceptsExactly(m, message);
    StepInv(m, AcceptMessage(message));
    hide Accepted, StoreInv, SignedKey, OneTimeKey;
    AcceptsExactly(Accepted(m, message).0, message);
  }

  /** So it is after any calls that keep the signed prekey held. */
  lemma {:induction false} AcceptedAgainLater(m: PrekeyStore, events: seq<Event>, message: InitiatorHandshake)
    requires StoreInv(m) && Accepted(m, message).1.Ok? && message.oneTimePrekeyId.None?
    requires SignedHeld(m, events, message.signedPrekeyId)
    ensures Accepted(StoreAfter(m, events, |events|), message).1 == Accepted(m, message).1
  {
    RunInv(m, events, |events|);
    HeldKeysFixed(m, events, message.signedPrekeyId, |events|);
    hide StoreAfter, SignedKey, HandshakeValues, StoreInv;
  }

  /** No call adds a one-time prekey under `id`. */
  ghost predicate NeverAdded(events: seq<Event>, id: u32) {
    forall j :: 0 <= j < |events| && events[j].AddOneTime? ==> events[j].id != id
  }

  lemma {:induction false} UnheldStays(m: PrekeyStore, events: seq<Event>, id: u32, n: nat)
    requires StoreInv(m) && n <= |events| && NeverAdded(events, id) && OneTimeKey(m, id).None?
    ensures OneTimeKey(StoreAfter(m, events, n), id).None?
  {
    hide OneTimeKey, StoreInv, SignedKey, Added, SignedRotated, SignedRetired, Accepted;
    if n > 0 {
      UnheldStays(m, events, id, n - 1);
      RunInv(m, events, n - 1);
      var before := StoreAfter(m, events, n - 1);
      match events[n - 1] {
        case AddOneTime(newId, generated) => AddsExactly(before, newId, generated);
        case RotateSigned(newId, expiresAt, drawn) => RotatesExactly(before, newId, expiresAt, drawn);
        case RetireSigned(oldId) => RetiresExactly(before, oldId);
        case AcceptMessage(message) => AcceptsExactly(before, message);
      }
    }
  }

  /** An accepted message that names a one-time prekey is refused ever after, unless its id is added anew. */
  lemma {:induction false} RefusedOnceConsumed(m: PrekeyStore, message: InitiatorHandshake, events: seq<Event>)
    requires StoreInv(m) && Accepted(m, message).1.Ok? && message.oneTimePrekeyId.Some?
    requires NeverAdded(events, message.oneTimePrekeyId.value)
    ensures var later := StoreAfter(Accepted(m, message).0, events, |events|);
            Accepted(later, message).1.Err? && Accepted(later, message).0 == later
  {
    AcceptsExactly(m, message);
    StepInv(m, AcceptMessage(message));
    hide Accepted, StoreInv, SignedKey, OneTimeKey, StoreAfter;
    UnheldStays(Accepted(m, message).0, events, message.oneTimePrekeyId.value, |events|);
    RunInv(Accepted(m, message).0, events, |events|);
    AcceptsExactly(StoreAfter(Accepted(m, message).0, events, |events|), message);
  }

  /**
   A responder that accepts such a message again starts a second ratchet in the state
   in which the first one started: it opens the initiator's frames that the first
   one has opened already.
   */
  lemma {:induction false} SecondRatchetOpensAgain(m: PrekeyStore, events: seq<Event>, message: InitiatorHandshake,
                                                   a: AuthenticatedHandshake, suite: AeadSuite, kind: FrameKind,
                                                   plaintext: seq<byte>)
    requires StoreInv(m) && Accepted(m, message).1.Ok? && message.oneTimePrekeyId.None?
    requires SignedHeld(m, events, message.signedPrekeyId)
    requires Mirrors(a, Accepted(m, message).1.value) && |plaintext| <= MAX_PLAINTEXT_LEN
    ensures Accepted(StoreAfter(m, events, |events|), message).1.Ok?
    ensures Encrypted(InitialRatchet(a, suite), kind, plaintext, true).1.Ok?
    ensures var frame := Encrypted(InitialRatchet(a, suite), kind, plaintext, true).1.value;
            var first := Accepted(m, message).1.value;
            var second := Accepted(StoreAfter(m, events, |events|), message).1.value;
            && InitialRatchet(second, suite) == InitialRatchet(first, suite)
            && Decrypted(InitialRatchet(first, suite), frame, None).1 == Ok(plaintext)
            && Decrypted(InitialRatchet(second, suite), frame, None).1 == Ok(plaintext)
  {
    AcceptedAgainLater(m, events, message);
    var first := Accepted(m, message).1.value;
    hide Accepted, StoreAfter, SignedHeld, StoreInv;
    FirstFrameOpens(a, first, suite, kind, plaintext);
  }

  lemma {:induction false} FirstFrameOpens(a: AuthenticatedHandshake, b: AuthenticatedHandshake, suite: AeadSuite,
                                           kind: FrameKind, plaintext: seq<byte>)
    requires Mirrors(a, b) && |plaintext| <= MAX_PLAINTEXT_LEN
    ensures Encrypted(InitialRatchet(a, suite), kind, plaintext, true).1.Ok?
    ensures var frame := Encrypted(InitialRatchet(a, suite), kind, plaintext, true).1.value;
            Decrypted(InitialRatchet(b, suite), frame, None).1 == Ok(plaintext)
  {
  }

  /** The secrets both ends agree on: of the initiator's identity and ephemeral with the responder's keys. */
  function Agreed(identity: nat, ephemeral: nat, responder: nat, signed: nat, oneTime: Option<nat>): seq<Shared> {
    [Pair(identity, signed), Pair(ephemeral, responder), Pair(ephemeral, signed)]
    + if oneTime.Some? then [Pair(ephemeral, oneTime.value)] else []
  }

  lemma {:induction false} AgreedDeterminesKeys(identity: nat, ephemeral: nat, responder: nat,
                                                s1: nat, o1: Option<nat>, s2: nat, o2: Option<nat>)
    requires Agreed(identity, ephemeral, responder, s1, o1) == Agreed(identity, ephemeral, responder, s2, o2)
    ensures s1 == s2 && o1 == o2
  {
    var a, b := Agreed(identity, ephemeral, responder, s1, o1), Agreed(identity, ephemeral, responder, s2, o2);
    assert a[0] == b[0] && |a| == |b|;
    if o1.Some? {
      assert a[3] == b[3];
    }
  }

  function OfferedId(m: PrekeyStore): Option<u32> {
    if |m.oneTime| > 0 then Some(m.oneTime[0].public.id) else None
  }

  function OfferedKey(m: PrekeyStore): Option<nat> {
    if |m.oneTime| > 0 then Some(m.oneTime[0].key) else None
  }

  /** The message that the initiator sends in answer to the bundle of `m`. */
  function MessageTo(m: PrekeyStore, i: LocalIdentity, e: nat, r: nat): InitiatorHandshake {
    InitiatorHandshake(i.Public(), Generated(e), Generated(r), m.signedRecord.keyId, OfferedId(m))
  }

  /** What the initiator derives from the bundle of `m`. */
  lemma {:induction false} InitiatorEnd(m: PrekeyStore, i: LocalIdentity, now: u64, e: nat, r: nat)
    requires StoreInv(m) && now <= m.signedRecord.expiresAt
    ensures var message := MessageTo(m, i, e, r);
            var session := SessionId(message, m.identity.Public());
            var root := HandshakeRoot(session, Agreed(i.dh, e, m.identity.dh, m.signedPrekey, OfferedKey(m)));
            Initiated(i, BundleOf(m), now, Some(e), Some(r)) ==
            Ok((message, AuthenticatedHandshake(session, root, Initiator, r, Generated(m.signedPrekey))))
  {
    assert |m.oneTime| > 0 ==> m.oneTime[0].public.public == Generated(m.oneTime[0].key);
  }

  /** What the initiator derives from any bundle it accepts that names `owner`. */
  lemma {:induction false} BundleEnd(bundle: ResponderPrekeyBundle, owner: LocalIdentity, i: LocalIdentity, now: u64,
                                     e: nat, r: nat)
    requires bundle.identity == owner.Public() && Initiated(i, bundle, now, Some(e), Some(r)).Ok?
    ensures var offered := bundle.oneTimePrekey;
            && bundle.signedPrekey.public.Generated? && (offered.Some? ==> offered.value.public.Generated?)
            && var id := if offered.Some? then Some(offered.value.id) else None;
            var message := InitiatorHandshake(i.Public(), Generated(e), Generated(r), bundle.signedPrekey.keyId, id);
            var session := SessionId(message, owner.Public());
            var oneTime := if offered.Some? then Some(offered.value.public.secret) else None;
            var root := HandshakeRoot(session, Agreed(i.dh, e, owner.dh, bundle.signedPrekey.public.secret, oneTime));
            Initiated(i, bundle, now, Some(e), Some(r)).value ==
            (message, AuthenticatedHandshake(session, root, Initiator, r, bundle.signedPrekey.public))
  {
  }

  /** `later` holds the ids that a bundle names. */
  predicate HoldsIdsOf(later: PrekeyStore, bundle: ResponderPrekeyBundle) {
    && SignedKey(later, bundle.signedPrekey.keyId).Some?
    && (bundle.oneTimePrekey.Some? ==> OneTimeKey(later, bundle.oneTimePrekey.value.id).Some?)
  }

  /** The public keys in a bundle are those of the keys that `later` holds under its ids. */
  predicate KeysAreThose(later: PrekeyStore, bundle: ResponderPrekeyBundle)
    requires HoldsIdsOf(later, bundle)
  {
    && bundle.signedPrekey.public == Generated(SignedKey(later, bundle.signedPrekey.keyId).value)
    && (bundle.oneTimePrekey.Some? ==>
          bundle.oneTimePrekey.value.public == Generated(OneTimeKey(later, bundle.oneTimePrekey.value.id).value))
  }

  /**
   Any bundle that carries the responder's identity record and that the initiator
   accepts, genuine or not, since nothing signs the one-time prekey in it: the
   responder accepts the message exactly if it holds the named ids, and both ends
   then agree exactly if the bundle's public keys are those of the keys held.
   */
  lemma {:induction false} AnyBundleAgreesExactly(bundle: ResponderPrekeyBundle, later: PrekeyStore, i: LocalIdentity,
                                                  now: u64, e: nat, r: nat)
    requires StoreInv(later) && bundle.identity == later.identity.Public()
    requires Initiated(i, bundle, now, Some(e), Some(r)).Ok?
    ensures var (message, a) := Initiated(i, bundle, now, Some(e), Some(r)).value;
            var accepted := Accepted(later, message).1;
            && (accepted.Ok? <==> HoldsIdsOf(later, bundle))
            && (accepted.Ok? ==> (Mirrors(a, accepted.value) <==> KeysAreThose(later, bundle)))
  {
    BundleEnd(bundle, later.identity, i, now, e, r);
    var (message, a) := Initiated(i, bundle, now, Some(e), Some(r)).value;
    hide Initiated, SignedKey, OneTimeKey, Agreed;
    AcceptsExactly(later, message);
    hide Accepted, StoreInv;
    if HoldsIdsOf(later, bundle) {
      var offered := bundle.oneTimePrekey;
      ResponderEnd(later, i, e, r, bundle.signedPrekey.keyId, message.oneTimePrekeyId);
      var signed := SignedKey(later, bundle.signedPrekey.keyId).value;
      var held := if offered.Some? then OneTimeKey(later, offered.value.id) else None;
      var sent := if offered.Some? then Some(offered.value.public.secret) else None;
      var prekey := bundle.signedPrekey.public.secret;
      if Agreed(i.dh, e, later.identity.dh, signed, held) == Agreed(i.dh, e, later.identity.dh, prekey, sent) {
        AgreedDeterminesKeys(i.dh, e, later.identity.dh, signed, held, prekey, sent);
      }
    }
  }

  /** What the responder derives, for the keys it holds under the named ids. */
  lemma {:induction false} ResponderEnd(later: PrekeyStore, i: LocalIdentity, e: nat, r: nat, signedId: u32,
                                        oneTimeId: Option<u32>)
    requires SignedKey(later, signedId).Some?
    requires oneTimeId.Some? ==> OneTimeKey(later, oneTimeId.value).Some?
    ensures var message := InitiatorHandshake(i.Public(), Generated(e), Generated(r), signedId, oneTimeId);
            var session := SessionId(message, later.identity.Public());
            var signed := SignedKey(later, signedId).value;
            var oneTime := if oneTimeId.Some? then OneTimeKey(later, oneTimeId.value) else None;
            var root := HandshakeRoot(session, Agreed(i.dh, e, later.identity.dh, signed, oneTime));
            Accepted(later, message).1 == Ok(AuthenticatedHandshake(session, root, Responder, signed, Generated(r)))
  {
    hide SignedKey, OneTimeKey;
    PairSymmetric();
  }

  lemma {:induction false} PairSymmetric()
    ensures forall a, b :: Pair(a, b) == Pair(b, a)
  {
  }

  /** The other end of `a`: same session and root, the ratchet keys exchanged. */
  predicate Mirrors(a: AuthenticatedHandshake, b: AuthenticatedHandshake) {
    && a.sessionId == b.sessionId && a.rootSecret == b.rootSecret
    && a.role == Initiator && b.role == Responder
    && a.remoteRatchet == Generated(b.localRatchet) && b.remoteRatchet == Generated(a.localRatchet)
  }

  /** `later` holds the prekeys that the bundle of `m` offered, under the same ids. */
  predicate StillHolds(later: PrekeyStore, m: PrekeyStore) {
    && SignedKey(later, m.signedRecord.keyId) == Some(m.signedPrekey)
    && (|m.oneTime| > 0 ==> OneTimeKey(later, m.oneTime[0].public.id) == Some(m.oneTime[0].key))
  }

  /** The ids that the bundle of `m` offered are held by `later`, under whatever keys. */
  predicate HoldsIds(later: PrekeyStore, m: PrekeyStore) {
    && SignedKey(later, m.signedRecord.keyId).Some?
    && (|m.oneTime| > 0 ==> OneTimeKey(later, m.oneTime[0].public.id).Some?)
  }

  /** A bundle starts a handshake exactly until its signed prekey expires. */
  lemma {:induction false} InitiatesUntilExpiry(m: PrekeyStore, i: LocalIdentity, now: u64, e: nat, r: nat)
    requires StoreInv(m)
    ensures Initiated(i, BundleOf(m), now, Some(e), Some(r)).Ok? <==> now <= m.signedRecord.expiresAt
    ensures now > m.signedRecord.expiresAt ==>
            Initiated(i, BundleOf(m), now, Some(e), Some(r)) == Err(AuthenticationFailed)
  {
    if now <= m.signedRecord.expiresAt {
      InitiatorEnd(m, i, now, e, r);
      hide Initiated;
    }
  }

  /**
   A handshake can be started from the bundle of `m` exactly until its signed prekey
   expires. Presented to a later state of that responder it is accepted exactly if
   the offered ids are held, and the two ends then agree exactly if those ids still
   stand for the offered keys.
   */
  lemma {:induction false} AcceptAgreesExactly(m: PrekeyStore, later: PrekeyStore, i: LocalIdentity, now: u64,
                                               e: nat, r: nat)
    requires StoreInv(m) && StoreInv(later) && later.identity == m.identity
    ensures Initiated(i, BundleOf(m), now, Some(e), Some(r)).Ok? <==> now <= m.signedRecord.expiresAt
    ensures now <= m.signedRecord.expiresAt ==>
            var (message, a) := Initiated(i, BundleOf(m), now, Some(e), Some(r)).value;
            var accepted := Accepted(later, message).1;
            && (accepted.Ok? <==> HoldsIds(later, m))
            && (accepted.Ok? ==> (Mirrors(a, accepted.value) <==> StillHolds(later, m)))
  {
    InitiatesUntilExpiry(m, i, now, e, r);
    if now <= m.signedRecord.expiresAt {
      GenuineKeys(m);
      hide Initiated, Accepted, SignedKey, OneTimeKey, StoreInv;
      AnyBundleAgreesExactly(BundleOf(m), later, i, now, e, r);
    }
  }

  lemma {:induction false} GenuineKeys(m: PrekeyStore)
    requires StoreInv(m)
    ensures m.signedRecord.public == Generated(m.signedPrekey)
    ensures |m.oneTime| > 0 ==> m.oneTime[0].public.public == Generated(m.oneTime[0].key)
  {
  }

  /**
   A bundle published at any time, then any sequence of calls that keeps the
   offered prekeys held throughout: the delayed message is accepted, and the two
   ratchets start a session, with crossed chains, to which every result about runs applies.
   */
  lemma {:induction false} DelayedAcceptAgrees(m: PrekeyStore, events: seq<Event>, i: LocalIdentity, now: u64,
                                               e: nat, r: nat, suite: AeadSuite, used: set<nat>)
    requires StoreInv(m) && now <= m.signedRecord.expiresAt
    requires SignedHeld(m, events, m.signedRecord.keyId)
    requires |m.oneTime| > 0 ==> OneTimeHeld(m, events, m.oneTime[0].public.id)
    requires r != m.signedPrekey && r in used && m.signedPrekey in used
    ensures Initiated(i, BundleOf(m), now, Some(e), Some(r)).Ok?
    ensures var (message, a) := Initiated(i, BundleOf(m), now, Some(e), Some(r)).value;
            var accepted := Accepted(StoreAfter(m, events, |events|), message).1;
            && accepted.Ok? && Mirrors(a, accepted.value)
            && var alice, bob := InitialRatchet(a, suite), InitialRatchet(accepted.value, suite);
            && alice.sendingChain == bob.receivingChain && bob.sendingChain == alice.receivingChain
            && alice.sendingChain != bob.sendingChain
            && Session.Reachable(Session.World(alice, bob, [], [], used))
  {
    var later := StoreAfter(m, events, |events|);
    RunInv(m, events, |events|);
    OfferedKeysHeld(m, events);
    AcceptAgreesExactly(m, later, i, now, e, r);
    var (message, a) := Initiated(i, BundleOf(m), now, Some(e), Some(r)).value;
    var b := Accepted(later, message).1;
    hide StoreAfter, SignedHeld, OneTimeHeld, StoreInv, SignedKey, OneTimeKey;
    assert b.value.localRatchet == m.signedPrekey;
    MirroredStart(a, b.value, suite, used);
  }

  lemma {:induction false} OfferedKeysHeld(m: PrekeyStore, events: seq<Event>)
    requires StoreInv(m) && SignedHeld(m, events, m.signedRecord.keyId)
    requires |m.oneTime| > 0 ==> OneTimeHeld(m, events, m.oneTime[0].public.id)
    ensures StillHolds(StoreAfter(m, events, |events|), m) && HoldsIds(StoreAfter(m, events, |events|), m)
  {
    hide StoreAfter, SignedHeld, OneTimeHeld;
    HeldKeysFixed(m, events, m.signedRecord.keyId, |events|);
    if |m.oneTime| > 0 {
      HeldKeysFixed(m, events, m.oneTime[0].public.id, |events|);
    }
  }

  /** Mirrored handshakes start a session. */
  lemma {:induction false} MirroredStart(a: AuthenticatedHandshake, b: AuthenticatedHandshake, suite: AeadSuite,
                                         used: set<nat>)
    requires Mirrors(a, b) && a.rootSecret.HandshakeRoot? && a.rootSecret.session == a.sessionId
    requires a.localRatchet != b.localRatchet && a.localRatchet in used && b.localRatchet in used
    ensures var alice, bob := InitialRatchet(a, suite), InitialRatchet(b, suite);
            && alice.sendingChain == bob.receivingChain && bob.sendingChain == alice.receivingChain
            && alice.sendingChain != bob.sendingChain
            && Session.Reachable(Session.World(alice, bob, [], [], used))
  {
    var w := Session.World(InitialRatchet(a, suite), InitialRatchet(b, suite), [], [], used);
    assert Session.IsStart(w) by {
      var root := HandshakeRoot(a.sessionId, a.rootSecret.agreements);
      assert a == AuthenticatedHandshake(a.sessionId, root, Initiator, a.localRatchet, Generated(b.localRatchet));
      assert b == AuthenticatedHandshake(a.sessionId, root, Responder, b.localRatchet, Generated(a.localRatchet));
    }
    assert Session.Reaches(w, [], w);
  }

  // ---- one-time keys --------------------------------------------------------------------------

  function DrawnBy(e: Event): set<nat> {
    match e
    case AddOneTime(_, generated) => if generated.Some? then {generated.value} else {}
    case RotateSigned(_, _, drawn) => if drawn.Some? then {drawn.value} else {}
    case _ => {}
  }

  /** The secrets drawn before event `n`. */
  function UsedBefore(used: set<nat>, events: seq<Event>, n: nat): set<nat>
    requires n <= |events|
  {
    if n == 0 then used else UsedBefore(used, events, n - 1) + DrawnBy(events[n - 1])
  }

  /** Every drawn secret is new. */
  ghost predicate FreshRun(used: set<nat>, events: seq<Event>) {
    forall n: nat {:trigger UsedBefore(used, events, n)} ::
      n < |events| ==> UsedBefore(used, events, n) !! DrawnBy(events[n])
  }

  /** One-time secrets are distinct and were drawn before. */
  ghost predicate OneTimeSecrets(m: PrekeyStore, used: set<nat>) {
    && (forall i :: 0 <= i < |m.oneTime| ==> m.oneTime[i].key in used)
    && (forall i, j :: 0 <= i < j < |m.oneTime| ==> m.oneTime[i].key != m.oneTime[j].key)
  }

  ghost predicate HoldsSecret(m: PrekeyStore, key: nat) {
    exists i :: 0 <= i < |m.oneTime| && m.oneTime[i].key == key
  }

  /** The one-time secret that event `n` uses up, if it is an accepted message that names one. */
  function Consumed(m: PrekeyStore, events: seq<Event>, n: nat): Option<nat>
    requires n < |events|
  {
    ConsumedBy(StoreAfter(m, events, n), events[n])
  }

  function ConsumedBy(m: PrekeyStore, e: Event): Option<nat> {
    if e.AcceptMessage? && Accepted(m, e.message).1.Ok? && e.message.oneTimePrekeyId.Some?
    then OneTimeKey(m, e.message.oneTimePrekeyId.value)
    else None
  }

  lemma {:induction false} SecretsStep(m: PrekeyStore, e: Event, used: set<nat>)
    requires OneTimeSecrets(m, used) && used !! DrawnBy(e)
    ensures OneTimeSecrets(Step(m, e), used + DrawnBy(e))
    ensures forall key :: key in used && HoldsSecret(Step(m, e), key) ==> HoldsSecret(m, key)
    ensures ConsumedBy(m, e).Some? ==>
              && HoldsSecret(m, ConsumedBy(m, e).value) && ConsumedBy(m, e).value in used
              && !HoldsSecret(Step(m, e), ConsumedBy(m, e).value)
  {
    hide Agreements, HandshakeValues, IdentityVerifies, SignedKey;
    if e.AcceptMessage? {
      SecretsAccepted(m, e.message, used);
    } else if e.AddOneTime? {
      hide Accepted, SignedRotated, SignedRetired;
    } else {
      hide Accepted, Added;
    }
  }

  lemma {:induction false} SecretsAccepted(m: PrekeyStore, message: InitiatorHandshake, used: set<nat>)
    requires OneTimeSecrets(m, used)
    ensures var e := AcceptMessage(message);
            && OneTimeSecrets(Step(m, e), used)
            && (forall key :: HoldsSecret(Step(m, e), key) ==> HoldsSecret(m, key))
            && (ConsumedBy(m, e).Some? ==>
                  && HoldsSecret(m, ConsumedBy(m, e).value) && ConsumedBy(m, e).value in used
                  && !HoldsSecret(Step(m, e), ConsumedBy(m, e).value))
  {
    hide Agreements, HandshakeValues, IdentityVerifies, SignedKey;
  }

  lemma {:induction false} SecretsRun(m: PrekeyStore, used: set<nat>, events: seq<Event>, n: nat)
    requires OneTimeSecrets(m, used) && FreshRun(used, events) && n <= |events|
    ensures OneTimeSecrets(StoreAfter(m, events, n), UsedBefore(used, events, n))
  {
    hide Step, OneTimeSecrets, DrawnBy;
    if n > 0 {
      SecretsRun(m, used, events, n - 1);
      SecretsStep(StoreAfter(m, events, n - 1), events[n - 1], UsedBefore(used, events, n - 1));
    }
  }

  /** A secret used up by event `i` is not held at any later time. */
  lemma {:induction false} NeverHeldAgain(m: PrekeyStore, used: set<nat>, events: seq<Event>, i: nat, n: nat)
    requires OneTimeSecrets(m, used) && FreshRun(used, events) && i < n <= |events|
    requires Consumed(m, events, i).Some?
    ensures !HoldsSecret(StoreAfter(m, events, n), Consumed(m, events, i).value)
    ensures Consumed(m, events, i).value in UsedBefore(used, events, n)
    decreases n
  {
    hide Step, OneTimeSecrets, DrawnBy, HoldsSecret, ConsumedBy;
    SecretsRun(m, used, events, n - 1);
    SecretsStep(StoreAfter(m, events, n - 1), events[n - 1], UsedBefore(used, events, n - 1));
    if i < n - 1 {
      NeverHeldAgain(m, used, events, i, n - 1);
    }
  }

  /** Over any run with fresh keys, each one-time key serves at most one accepted handshake. */
  lemma {:induction false} OneTimeKeyServesOnce(m: PrekeyStore, used: set<nat>, events: seq<Event>, i: nat, j: nat)
    requires OneTimeSecrets(m, used) && FreshRun(used, events) && i < j < |events|
    requires Consumed(m, events, i).Some? && Consumed(m, events, j).Some?
    ensures Consumed(m, events, i) != Consumed(m, events, j)
  {
    hide Step, OneTimeSecrets, DrawnBy, HoldsSecret, ConsumedBy;
    NeverHeldAgain(m, used, events, i, j);
    SecretsRun(m, used, events, j);
    SecretsStep(StoreAfter(m, events, j), events[j], UsedBefore(used, events, j));
  }

  /**
   From a generated store any calls lead to a store with unique ids, whose records
   belong to their keys, and which a failing call leaves as it is; with fresh draws,
   no two one-time prekeys share a secret.
   */
  lemma {:induction false} GeneratedStoreInv(identity: LocalIdentity, key: nat, id: u32, expiresAt: u64,
                                             used: set<nat>, events: seq<Event>, n: nat)
    requires n <= |events|
    ensures var m := StoreAfter(NewStore(identity, key, id, expiresAt), events, n);
            && StoreInv(m) && m.identity == identity
            && (FreshRun(used, events) ==> OneTimeSecrets(m, UsedBefore(used, events, n)))
            && (n < |events| && !Succeeds(m, events[n]) ==>
                  StoreAfter(NewStore(identity, key, id, expiresAt), events, n + 1) == m)
  {
    var m := NewStore(identity, key, id, expiresAt);
    NewStoreInv(identity, key, id, expiresAt, used);
    hide Step, Succeeds, StoreInv, OneTimeSecrets, UsedBefore, FreshRun;
    RunInv(m, events, n);
    if n < |events| {
      StepInv(StoreAfter(m, events, n), events[n]);
    }
    if FreshRun(used, events) {
      SecretsRun(m, used, events, n);
    }
  }
}
