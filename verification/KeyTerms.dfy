/**
 Ideal key material. Every key-derivation output is a constructor of its
 inputs, so derivations are injective and their ranges are disjoint; an
 X25519 agreement is the unordered pair of the two secrets.
 */
module KeyTerms {
  import opened Common

  /** A generated key pair is named by its secret; `LowOrder` keys make every agreement fail. */
  datatype PublicKey = Generated(secret: nat) | LowOrder(code: nat)

  datatype Shared = Shared(low: nat, high: nat)

  /** Fail-closed agreement between a local secret and a peer's public key. */
  function DiffieHellman(secret: nat, peer: PublicKey): Option<Shared> {
    match peer
    case LowOrder(_) => None
    case Generated(other) => Some(Pair(secret, other))
  }

  function Pair(a: nat, b: nat): Shared {
    if a <= b then Shared(a, b) else Shared(b, a)
  }

  datatype IdentityPublicKey = IdentityPublicKey(signer: nat)

  /** What an identity key signs: an X25519 identity key, or a signed-prekey record. */
  datatype Transcript =
    | Binding(dh: PublicKey)
    | Prekey(id: u32, prekey: PublicKey, expiresAt: u64)

  datatype Signature = Signed(signer: nat, content: Transcript) | Garbage(code: nat)

  datatype IdentityDhPublic = IdentityDhPublic(signing: IdentityPublicKey, dh: PublicKey, signature: Signature)

  datatype InitiatorHandshake = InitiatorHandshake(
    initiatorIdentity: IdentityDhPublic,
    initiatorEphemeral: PublicKey,
    initiatorRatchet: PublicKey,
    signedPrekeyId: u32,
    oneTimePrekeyId: Option<u32>)

  /** The handshake transcript hash: the initiator's message and the responder's identity record. */
  datatype SessionId = SessionId(message: InitiatorHandshake, responder: IdentityDhPublic)

  datatype Direction = InitiatorToResponder | ResponderToInitiator

  datatype Secret =
    | HandshakeRoot(session: SessionId, agreements: seq<Shared>)
    | InitialChain(initialRoot: Secret, direction: Direction, forSession: SessionId)
    | NextRoot(root: Secret, dh: Shared)
    | RootChain(ofRoot: Secret, withDh: Shared)
    | NextChain(chain: Secret)

  datatype AeadKey = MessageKey(ofChain: Secret)

  /** The number of root steps taken since the handshake. */
  function Level(s: Secret): nat {
    match s
    case HandshakeRoot(_, _) => 0
    case InitialChain(root, _, _) => Level(root)
    case NextRoot(root, _) => Level(root) + 1
    case RootChain(root, _) => Level(root)
    case NextChain(chain) => Level(chain)
  }
}
