/** Result and error types, and the source's fixed-width integers. */
module Common {

  datatype Option<+T> = None | Some(value: T)

  datatype Result<+T> = Ok(value: T) | Err(error: MefError)

  datatype MefError =
    | AuthenticationFailed
    | InvalidFrame
    | UnsupportedSuite
    | InvalidLength
    | NonContributoryKeyAgreement
    | RandomnessUnavailable
    | CounterExhausted
    | SkippedKeyLimitExceeded
    | EnvelopeExpired
    | ReplayDetected
    | MessageKeyConsumed
    | RatchetStateMismatch
    | StateRollbackDetected
    | InvalidState

  const U32_MAX := 0xFFFF_FFFF
  const U64_MAX := 0xFFFF_FFFF_FFFF_FFFF

  type byte = n: int | 0 <= n < 0x100
  type u16 = n: int | 0 <= n < 0x1_0000
  type u32 = n: int | 0 <= n <= U32_MAX
  type u64 = n: int | 0 <= n <= U64_MAX

  const MAX_SKIPPED_KEYS: nat := 1024
  const MAX_CIPHERTEXT_LEN: nat := 0x10_0000
  const MAX_AAD_LEN: nat := 0x1_0000
  const AEAD_TAG_LEN: nat := 16

  /** Payload AEAD suites, with the wire identifier and nonce length of each. */
  datatype AeadSuite = Aes256Gcm | Aes256GcmSiv | ChaCha20Poly1305 | XChaCha20Poly1305 {
    function Id(): byte {
      match this
      case Aes256Gcm => 1
      case Aes256GcmSiv => 2
      case ChaCha20Poly1305 => 3
      case XChaCha20Poly1305 => 4
    }

    function NonceLen(): nat {
      if XChaCha20Poly1305? then 24 else 12
    }

    static function FromId(id: byte): (r: Result<AeadSuite>)
      ensures r.Ok? <==> 1 <= id <= 4
      ensures r.Ok? ==> r.value.Id() == id
      ensures r.Err? ==> r.error == UnsupportedSuite
    {
      match id
      case 1 => Ok(Aes256Gcm)
      case 2 => Ok(Aes256GcmSiv)
      case 3 => Ok(ChaCha20Poly1305)
      case 4 => Ok(XChaCha20Poly1305)
      case _ => Err(UnsupportedSuite)
    }
  }

  /** Semantic frame types, with their wire identifiers. */
  datatype FrameKind = Init | Message | Ack | Control | Reset {
    function Id(): byte {
      match this
      case Init => 1
      case Message => 2
      case Ack => 3
      case Control => 4
      case Reset => 5
    }

    static function FromId(id: byte): (r: Result<FrameKind>)
      ensures r.Ok? <==> 1 <= id <= 5
      ensures r.Ok? ==> r.value.Id() == id
      ensures r.Err? ==> r.error == InvalidFrame
    {
      match id
      case 1 => Ok(Init)
      case 2 => Ok(Message)
      case 3 => Ok(Ack)
      case 4 => Ok(Control)
      case 5 => Ok(Reset)
      case _ => Err(InvalidFrame)
    }
  }

  function SaturatingAdd(n: u64, k: nat): u64 {
    if n + k > U64_MAX then U64_MAX else n + k
  }

  function SaturatingIncrement(n: u64): u64 {
    SaturatingAdd(n, 1)
  }

  /** Removes the element at `index`, keeping the order of the rest. */
  function RemoveAt<T>(s: seq<T>, index: nat): (r: seq<T>)
    requires index < |s|
    ensures |r| == |s| - 1
    ensures forall k :: 0 <= k < index ==> r[k] == s[k]
    ensures forall k :: index <= k < |r| ==> r[k] == s[k + 1]
  {
    s[..index] + s[index + 1..]
  }
}
