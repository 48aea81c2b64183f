/**
 The prekey handshake: the responder's store of prekeys, starting a handshake
 from a published bundle, and accepting the initiator's message later.
 `ResponderPrekeyMaterial` is the mutable store; `PrekeyStore` is its value.
 */
module Handshake {
  import opened Common
  import opened KeyTerms
  import opened Ratchet

  /** A long-term identity, named by its signing key and its X25519 secret. */
  datatype LocalIdentity = LocalIdentity(signer: nat, dh: nat) {
    function Public(): IdentityDhPublic {
      IdentityDhPublic(IdentityPublicKey(signer), Generated(dh), Signed(signer, Binding(Generated(dh))))
    }
  }

  predicate IdentityVerifies(i: IdentityDhPublic) {
    i.signature == Signed(i.signing.signer, Binding(i.dh))
  }

  datatype SignedPrekey = SignedPrekey(keyId: u32, public: PublicKey, expiresAt: u64, signature: Signature)

  function Issue(identity: LocalIdentity, id: u32, public: PublicKey, expiresAt: u64): SignedPrekey {
    SignedPrekey(id, public, expiresAt, Signed(identity.signer, Prekey(id, public, expiresAt)))
  }

  predicate PrekeyVerifies(p: SignedPrekey, identity: IdentityPublicKey, now: u64) {
    && now <= p.expiresAt
    && p.signature == Signed(identity.signer, Prekey(p.keyId, p.public, p.expiresAt))
  }

  datatype OneTimePrekeyPublic = OneTimePrekeyPublic(id: u32, public: PublicKey)
  datatype OneTimePrekey = OneTimePrekey(public: OneTimePrekeyPublic, key: nat)
  datatype RetiredPrekey = RetiredPrekey(record: SignedPrekey, key: nat)

  datatype ResponderPrekeyBundle = ResponderPrekeyBundle(
    identity: IdentityDhPublic,
    signedPrekey: SignedPrekey,
    oneTimePrekey: Option<OneTimePrekeyPublic>)

  datatype PrekeyStore = PrekeyStore(
    identity: LocalIdentity,
    signedPrekey: nat,
    signedRecord: SignedPrekey,
    retired: seq<RetiredPrekey>,
    oneTime: seq<OneTimePrekey>)

  function NewStore(identity: LocalIdentity, key: nat, id: u32, expiresAt: u64): PrekeyStore {
    PrekeyStore(identity, key, Issue(identity, id, Generated(key), expiresAt), [], [])
  }

  /** Index of the first retained signed prekey with this id, or the list's length. */
  function RetiredIndex(retired: seq<RetiredPrekey>, id: u32): (i: nat)
    ensures i <= |retired|
    ensures forall k :: 0 <= k < i ==> retired[k].record.keyId != id
    ensures i < |retired| ==> retired[i].record.keyId == id
  {
    if |retired| == 0 || retired[0].record.keyId == id then 0 else 1 + RetiredIndex(retired[1..], id)
  }

  /** Index of the first one-time prekey with this id, or the list's length. */
  function OneTimeIndex(oneTime: seq<OneTimePrekey>, id: u32): (i: nat)
    ensures i <= |oneTime|
    ensures forall k :: 0 <= k < i ==> oneTime[k].public.id != id
    ensures i < |oneTime| ==> oneTime[i].public.id == id
  {
    if |oneTime| == 0 || oneTime[0].public.id == id then 0 else 1 + OneTimeIndex(oneTime[1..], id)
  }

  /** The key held under a signed-prekey id, current or retained. */
  function SignedKey(m: PrekeyStore, id: u32): Option<nat> {
    if m.signedRecord.keyId == id then Some(m.signedPrekey)
    else
      var i := RetiredIndex(m.retired, id);
      if i < |m.retired| then Some(m.retired[i].key) else None
  }

  /** The key held under a one-time prekey id. */
  function OneTimeKey(m: PrekeyStore, id: u32): Option<nat> {
    var i := OneTimeIndex(m.oneTime, id);
    if i < |m.oneTime| then Some(m.oneTime[i].key) else None
  }

  function BundleOf(m: PrekeyStore): ResponderPrekeyBundle {
    ResponderPrekeyBundle(m.identity.Public(), m.signedRecord,
                          if |m.oneTime| > 0 then Some(m.oneTime[0].public) else None)
  }

  // ---- what each operation does to the store --------------------------------------------------

  function Added(m: PrekeyStore, id: u32, generated: Option<nat>): (PrekeyStore, Result<()>) {
    if OneTimeIndex(m.oneTime, id) < |m.oneTime| then (m, Err(InvalidState))
    else if generated.None? then (m, Err(RandomnessUnavailable))
    else
      var key := generated.value;
      (m.(oneTime := m.oneTime + [OneTimePrekey(OneTimePrekeyPublic(id, Generated(key)), key)]), Ok(()))
  }

  function SignedRotated(m: PrekeyStore, id: u32, expiresAt: u64, generated: Option<nat>): (PrekeyStore, Result<()>) {
    if m.signedRecord.keyId == id || RetiredIndex(m.retired, id) < |m.retired| then (m, Err(InvalidState))
    else if generated.None? then (m, Err(RandomnessUnavailable))
    else
      var key := generated.value;
      (m.(retired := m.retired + [RetiredPrekey(m.signedRecord, m.signedPrekey)],
          signedRecord := Issue(m.identity, id, Generated(key), expiresAt),
          signedPrekey := key),
       Ok(()))
  }

  function SignedRetired(m: PrekeyStore, id: u32): (PrekeyStore, Result<()>) {
    var i := RetiredIndex(m.retired, id);
    if i == |m.retired| then (m, Err(InvalidState)) else (m.(retired := RemoveAt(m.retired, i)), Ok(()))
  }

  /** The session identifier and the root secret of a handshake. */
  function HandshakeValues(message: InitiatorHandshake, responder: IdentityDhPublic,
                           dh1: Shared, dh2: Shared, dh3: Shared, dh4: Option<Shared>): (SessionId, Secret)
  {
    var session := SessionId(message, responder);
    (session, HandshakeRoot(session, [dh1, dh2, dh3] + if dh4.Some? then [dh4.value] else []))
  }

  /** The agreements of the responder, in the order in which they are tried. */
  function Agreements(m: PrekeyStore, message: InitiatorHandshake, signed: nat, oneTime: Option<nat>)
    : Option<(Shared, Shared, Shared, Option<Shared>)>
  {
    match (DiffieHellman(signed, message.initiatorIdentity.dh),
           DiffieHellman(m.identity.dh, message.initiatorEphemeral),
           DiffieHellman(signed, message.initiatorEphemeral))
    case (Some(dh1), Some(dh2), Some(dh3)) =>
      if oneTime.None? then Some((dh1, dh2, dh3, None))
      else
        (match DiffieHellman(oneTime.value, message.initiatorEphemeral)
         case None => None
         case Some(dh4) => Some((dh1, dh2, dh3, Some(dh4))))
    case _ => None
  }

  /** `accept`: the store after the call, and the handshake or the error. */
  function Accepted(m: PrekeyStore, message: InitiatorHandshake): (PrekeyStore, Result<AuthenticatedHandshake>) {
    if !IdentityVerifies(message.initiatorIdentity) then (m, Err(AuthenticationFailed))
    else
      match SignedKey(m, message.signedPrekeyId)
      case None => (m, Err(RatchetStateMismatch))
      case Some(signed) =>
        var id := message.oneTimePrekeyId;
        var oneTime := if id.Some? then OneTimeKey(m, id.value) else None;
        if id.Some? && oneTime.None? then (m, Err(RatchetStateMismatch))
        else
          match Agreements(m, message, signed, oneTime)
          case None => (m, Err(NonContributoryKeyAgreement))
          case Some((dh1, dh2, dh3, dh4)) =>
            var (session, root) := HandshakeValues(message, m.identity.Public(), dh1, dh2, dh3, dh4);
            (if id.None? then m
             else m.(oneTime := RemoveAt(m.oneTime, OneTimeIndex(m.oneTime, id.value))),
             Ok(AuthenticatedHandshake(session, root, Responder, signed, message.initiatorRatchet)))
  }

  // ---- the store as an object -----------------------------------------------------------------

  class ResponderPrekeyMaterial {
    var identity: LocalIdentity
    var signedPrekey: nat
    var signedRecord: SignedPrekey
    var retiredSignedPrekeys: seq<RetiredPrekey>
    var oneTimePrekeys: seq<OneTimePrekey>

    function Value(): PrekeyStore
      reads this
    {
      PrekeyStore(identity, signedPrekey, signedRecord, retiredSignedPrekeys, oneTimePrekeys)
    }

    constructor (identity: LocalIdentity, key: nat, id: u32, expiresAt: u64)
      ensures Value() == NewStore(identity, key, id, expiresAt)
    {
      this.identity := identity;
      signedPrekey := key;
      signedRecord := Issue(identity, id, Generated(key), expiresAt);
      retiredSignedPrekeys := [];
      oneTimePrekeys := [];
    }

    /** `generate`, with the signing key, the identity secret and the prekey that were drawn, in this order. */
    static method Generate(signer: Option<nat>, dh: Option<nat>, key: Option<nat>, id: u32, expiresAt: u64)
      returns (r: Result<ResponderPrekeyMaterial>)
      ensures r.Ok? <==> signer.Some? && dh.Some? && key.Some?
      ensures r.Ok? ==> fresh(r.value)
      ensures r.Ok? ==>
                r.value.Value() == NewStore(LocalIdentity(signer.value, dh.value), key.value, id, expiresAt)
      ensures r.Err? ==> r.error == RandomnessUnavailable
    {
      if signer.None? || dh.None? {
        return Err(RandomnessUnavailable);
      }
      var identity := LocalIdentity(signer.value, dh.value);
      if key.None? {
        return Err(RandomnessUnavailable);
      }
      var material := new ResponderPrekeyMaterial(identity, key.value, id, expiresAt);
      return Ok(material);
    }

    method AddOneTimePrekey(id: u32, generated: Option<nat>) returns (r: Result<()>)
      modifies this`oneTimePrekeys
      ensures (Value(), r) == Added(old(Value()), id, generated)
    {
      if OneTimeIndex(oneTimePrekeys, id) < |oneTimePrekeys| {
        return Err(InvalidState);
      }
      if generated.None? {
        return Err(RandomnessUnavailable);
      }
      var key := generated.value;
      oneTimePrekeys := oneTimePrekeys + [OneTimePrekey(OneTimePrekeyPublic(id, Generated(key)), key)];
      return Ok(());
    }

    method RotateSignedPrekey(id: u32, expiresAt: u64, generated: Option<nat>) returns (r: Result<()>)
      modifies this`signedPrekey, this`signedRecord, this`retiredSignedPrekeys
      ensures (Value(), r) == SignedRotated(old(Value()), id, expiresAt, generated)
    {
      if signedRecord.keyId == id || RetiredIndex(retiredSignedPrekeys, id) < |retiredSignedPrekeys| {
        return Err(InvalidState);
      }
      if generated.None? {
        return Err(RandomnessUnavailable);
      }
      var key := generated.value;
      var retired := signedPrekey;
      retiredSignedPrekeys := retiredSignedPrekeys + [RetiredPrekey(signedRecord, retired)];
      signedRecord := Issue(identity, id, Generated(key), expiresAt);
      signedPrekey := key;
      return Ok(());
    }

    method RetireSignedPrekey(id: u32) returns (r: Result<()>)
      modifies this`retiredSignedPrekeys
      ensures (Value(), r) == SignedRetired(old(Value()), id)
    {
      var index := RetiredIndex(retiredSignedPrekeys, id);
      if index == |retiredSignedPrekeys| {
        return Err(InvalidState);
      }
      retiredSignedPrekeys := RemoveAt(retiredSignedPrekeys, index);
      return Ok(());
    }
  }

  method Accept(material: ResponderPrekeyMaterial, message: InitiatorHandshake)
    returns (r: Result<AuthenticatedHandshake>)
    modifies material`oneTimePrekeys
    ensures (material.Value(), r) == Accepted(old(material.Value()), message)
  {
    if !IdentityVerifies(message.initiatorIdentity) {
      return Err(AuthenticationFailed);
    }
    var signedPrekey;
    if message.signedPrekeyId == material.signedRecord.keyId {
      signedPrekey := material.signedPrekey;
    } else {
      var index := RetiredIndex(material.retiredSignedPrekeys, message.signedPrekeyId);
      if index == |material.retiredSignedPrekeys| {
        return Err(RatchetStateMismatch);
      }
      signedPrekey := material.retiredSignedPrekeys[index].key;
    }
    var oneTimeIndex := None;
    if message.oneTimePrekeyId.Some? {
      var index := OneTimeIndex(material.oneTimePrekeys, message.oneTimePrekeyId.value);
      if index == |material.oneTimePrekeys| {
        return Err(RatchetStateMismatch);
      }
      oneTimeIndex := Some(index);
    }
    var dh1 := DiffieHellman(signedPrekey, message.initiatorIdentity.dh);
    if dh1.None? {
      return Err(NonContributoryKeyAgreement);
    }
    var dh2 := DiffieHellman(material.identity.dh, message.initiatorEphemeral);
    if dh2.None? {
      return Err(NonContributoryKeyAgreement);
    }
    var dh3 := DiffieHellman(signedPrekey, message.initiatorEphemeral);
    if dh3.None? {
      return Err(NonContributoryKeyAgreement);
    }
    var dh4 := None;
    if oneTimeIndex.Some? {
      dh4 := DiffieHellman(material.oneTimePrekeys[oneTimeIndex.value].key, message.initiatorEphemeral);
      if dh4.None? {
        return Err(NonContributoryKeyAgreement);
      }
    }
    var (sessionId, rootSecret) :=
      HandshakeValues(message, material.identity.Public(), dh1.value, dh2.value, dh3.value, dh4);
    if oneTimeIndex.Some? {
      material.oneTimePrekeys := RemoveAt(material.oneTimePrekeys, oneTimeIndex.value);
    }
    return Ok(AuthenticatedHandshake(sessionId, rootSecret, Responder, signedPrekey, message.initiatorRatchet));
  }

  /** `initiate`, with the ephemeral and the ratchet key that were drawn. */
  function Initiated(identity: LocalIdentity, bundle: ResponderPrekeyBundle, now: u64,
                     ephemeral: Option<nat>, ratchet: Option<nat>)
    : Result<(InitiatorHandshake, AuthenticatedHandshake)>
  {
    if !IdentityVerifies(bundle.identity) || !PrekeyVerifies(bundle.signedPrekey, bundle.identity.signing, now)
    then Err(AuthenticationFailed)
    else if ephemeral.None? || ratchet.None? then Err(RandomnessUnavailable)
    else
      var e, prekey, offered := ephemeral.value, bundle.signedPrekey.public, bundle.oneTimePrekey;
      var message := InitiatorHandshake(
        identity.Public(), Generated(e), Generated(ratchet.value), bundle.signedPrekey.keyId,
        if offered.Some? then Some(offered.value.id) else None);
      match (DiffieHellman(identity.dh, prekey), DiffieHellman(e, bundle.identity.dh), DiffieHellman(e, prekey))
      case (Some(dh1), Some(dh2), Some(dh3)) =>
        var dh4 := if offered.Some? then DiffieHellman(e, offered.value.public) else None;
        if offered.Some? && dh4.None? then Err(NonContributoryKeyAgreement)
        else
          var (session, root) := HandshakeValues(message, bundle.identity, dh1, dh2, dh3, dh4);
          Ok((message, AuthenticatedHandshake(session, root, Initiator, ratchet.value, prekey)))
      case _ => Err(NonContributoryKeyAgreement)
  }
}
