/**
 One endpoint of a session. `RatchetState` is the mutable object; `Ratchet` is
 its value, and each method is proved to move between values exactly as the
 function of the same concern says.
 */
module Ratchet {
  import opened Common
  import opened KeyTerms
  import opened Schedule

  datatype FrameHeader = FrameHeader(
    kind: FrameKind,
    sessionId: SessionId,
    ratchetPublic: PublicKey,
    previousChainLen: u32,
    messageNumber: u32)

  /** An ideal AEAD body: either sealed by a key holder over one header, or bytes nobody sealed. */
  datatype Ciphertext =
    | Sealed(suite: AeadSuite, key: AeadKey, aad: FrameHeader, plaintext: seq<byte>)
    | Forged(suite: AeadSuite)

  datatype Frame = Frame(header: FrameHeader, ciphertext: Ciphertext) {
    /** Opening succeeds exactly with the sealing key and the sealed header. */
    function Open(key: AeadKey): Result<seq<byte>> {
      if ciphertext.Sealed? && ciphertext.key == key && ciphertext.aad == header
      then Ok(ciphertext.plaintext)
      else Err(AuthenticationFailed)
    }
  }

  datatype SkippedMessageKey = SkippedMessageKey(remoteDh: PublicKey, messageNumber: u32, key: AeadKey)

  datatype Role = Initiator | Responder

  /** Validated handshake material, consumed to start a ratchet. */
  datatype AuthenticatedHandshake = AuthenticatedHandshake(
    sessionId: SessionId,
    rootSecret: Secret,
    role: Role,
    localRatchet: nat,
    remoteRatchet: PublicKey)

  /** The value of a ratchet; a key pair is named by its secret. */
  datatype Ratchet = Ratchet(
    sessionId: SessionId,
    rootKey: Secret,
    sendingChain: Secret,
    receivingChain: Secret,
    dhPair: nat,
    remoteDh: PublicKey,
    previousSendingChainLen: u32,
    sendingCount: u32,
    receivingCount: u32,
    generation: u64,
    suite: AeadSuite,
    skipped: seq<SkippedMessageKey>)

  function InitialRatchet(h: AuthenticatedHandshake, suite: AeadSuite): Ratchet {
    var aToB := InitialChain(h.rootSecret, InitiatorToResponder, h.sessionId);
    var bToA := InitialChain(h.rootSecret, ResponderToInitiator, h.sessionId);
    var (sending, receiving) := if h.role.Initiator? then (aToB, bToA) else (bToA, aToB);
    Ratchet(h.sessionId, h.rootSecret, sending, receiving, h.localRatchet, h.remoteRatchet,
            0, 0, 0, 0, suite, [])
  }

  const MAX_PLAINTEXT_LEN := MAX_CIPHERTEXT_LEN - AEAD_TAG_LEN

  /** Sealing a payload: refused when it is too long or when no nonce could be drawn. */
  function SealFrame(key: AeadKey, suite: AeadSuite, header: FrameHeader, plaintext: seq<byte>, nonceReady: bool)
    : Result<Frame>
  {
    if |plaintext| > MAX_PLAINTEXT_LEN then Err(InvalidLength)
    else if !nonceReady then Err(RandomnessUnavailable)
    else Ok(Frame(header, Sealed(suite, key, header, plaintext)))
  }

  function NextHeader(s: Ratchet, kind: FrameKind): FrameHeader {
    FrameHeader(kind, s.sessionId, Generated(s.dhPair), s.previousSendingChainLen, s.sendingCount)
  }

  /** `encrypt`: the state after the call, and the frame or the error. */
  function Encrypted(s: Ratchet, kind: FrameKind, plaintext: seq<byte>, nonceReady: bool)
    : (Ratchet, Result<Frame>)
  {
    var (nextChain, key) := ChainStep(s.sendingChain);
    match SealFrame(key, s.suite, NextHeader(s, kind), plaintext, nonceReady)
    case Err(e) => (s, Err(e))
    case Ok(frame) =>
      if s.sendingCount == U32_MAX then (s.(sendingChain := nextChain), Err(CounterExhausted))
      else
        (s.(sendingChain := nextChain,
            sendingCount := s.sendingCount + 1,
            generation := SaturatingIncrement(s.generation)),
         Ok(frame))
  }

  /** `rotate_sending_ratchet` with the freshly generated secret, if the generator delivered one. */
  function Rotated(s: Ratchet, generated: Option<nat>): (Ratchet, Result<()>) {
    if generated.None? then (s, Err(RandomnessUnavailable))
    else
      match DiffieHellman(generated.value, s.remoteDh)
      case None => (s, Err(NonContributoryKeyAgreement))
      case Some(dh) =>
        var (nextRoot, nextChain) := RootStep(s.rootKey, dh);
        (s.(rootKey := nextRoot,
            sendingChain := nextChain,
            dhPair := generated.value,
            previousSendingChainLen := s.sendingCount,
            sendingCount := 0,
            generation := SaturatingIncrement(s.generation)),
         Ok(()))
  }

  function WithRemote(remote: PublicKey, keys: seq<NumberedKey>): (r: seq<SkippedMessageKey>)
    ensures |r| == |keys|
  {
    seq(|keys|, k requires 0 <= k < |keys| => SkippedMessageKey(remote, keys[k].number, keys[k].key))
  }

  /** Index of the first retained key for `(remote, number)`, or the list's length. */
  function Position(skipped: seq<SkippedMessageKey>, remote: PublicKey, number: u32): (i: nat)
    ensures i <= |skipped|
    ensures forall k :: 0 <= k < i ==> skipped[k].remoteDh != remote || skipped[k].messageNumber != number
    ensures i < |skipped| ==> skipped[i].remoteDh == remote && skipped[i].messageNumber == number
  {
    if |skipped| == 0 then 0
    else if skipped[0].remoteDh == remote && skipped[0].messageNumber == number then 0
    else 1 + Position(skipped[1..], remote, number)
  }

  function DecryptedSkipped(s: Ratchet, frame: Frame): (Ratchet, Result<seq<byte>>) {
    var index := Position(s.skipped, frame.header.ratchetPublic, frame.header.messageNumber);
    if index == |s.skipped| then (s, Err(MessageKeyConsumed))
    else
      match frame.Open(s.skipped[index].key)
      case Err(e) => (s, Err(e))
      case Ok(plaintext) =>
        (s.(skipped := RemoveAt(s.skipped, index), generation := SaturatingIncrement(s.generation)),
         Ok(plaintext))
  }

  function DecryptedSame(s: Ratchet, frame: Frame): (Ratchet, Result<seq<byte>>) {
    var target := frame.header.messageNumber;
    if target < s.receivingCount then DecryptedSkipped(s, frame)
    else
      match MessageOf(s.receivingChain, s.receivingCount, target, |s.skipped|)
      case Err(e) => (s, Err(e))
      case Ok(m) =>
        match frame.Open(m.key)
        case Err(e) => (s, Err(e))
        case Ok(plaintext) =>
          if target == U32_MAX then (s.(receivingChain := m.next), Err(CounterExhausted))
          else
            (s.(receivingChain := m.next,
                receivingCount := target + 1,
                skipped := s.skipped + WithRemote(frame.header.ratchetPublic, m.skipped),
                generation := SaturatingIncrement(s.generation)),
             Ok(plaintext))
  }

  /** Everything the new-ratchet path derives before it commits. */
  datatype NewRatchet = NewRatchet(
    root: Secret,
    sending: Secret,
    receiving: Secret,
    pair: nat,
    number: u32,
    oldSkipped: seq<NumberedKey>,
    newSkipped: seq<NumberedKey>,
    plaintext: seq<byte>)

  function NewRatchetOf(s: Ratchet, frame: Frame, generated: Option<nat>): (r: Result<NewRatchet>)
    ensures r.Ok? ==> r.value.number < U32_MAX
  {
    var remote := frame.header.ratchetPublic;
    var number := frame.header.messageNumber;
    match RangeOf(s.receivingChain, s.receivingCount, frame.header.previousChainLen, |s.skipped|)
    case Err(e) => Err(e)
    case Ok((_, oldSkipped)) =>
      match DiffieHellman(s.dhPair, remote)
      case None => Err(NonContributoryKeyAgreement)
      case Some(dh) =>
        var (rootAfterReceive, nextReceivingChain) := RootStep(s.rootKey, dh);
        if generated.None? then Err(RandomnessUnavailable)
        else
          match DiffieHellman(generated.value, remote)
          case None => Err(NonContributoryKeyAgreement)
          case Some(nextDh) =>
            var (rootAfterSend, nextSendingChain) := RootStep(rootAfterReceive, nextDh);
            match MessageOf(nextReceivingChain, 0, number, |s.skipped| + |oldSkipped|)
            case Err(e) => Err(e)
            case Ok(m) =>
              match frame.Open(m.key)
              case Err(e) => Err(e)
              case Ok(plaintext) =>
                Ok(NewRatchet(rootAfterSend, nextSendingChain, m.next, generated.value, number,
                              oldSkipped, m.skipped, plaintext))
  }

  function DecryptedNew(s: Ratchet, frame: Frame, generated: Option<nat>): (Ratchet, Result<seq<byte>>) {
    match NewRatchetOf(s, frame, generated)
    case Err(e) => (s, Err(e))
    case Ok(n) =>
      var remote := frame.header.ratchetPublic;
      (s.(rootKey := n.root,
          sendingChain := n.sending,
          receivingChain := n.receiving,
          dhPair := n.pair,
          remoteDh := remote,
          previousSendingChainLen := s.sendingCount,
          sendingCount := 0,
          receivingCount := n.number + 1,
          generation := SaturatingIncrement(s.generation),
          skipped := s.skipped + WithRemote(s.remoteDh, n.oldSkipped) + WithRemote(remote, n.newSkipped)),
       Ok(n.plaintext))
  }

  /** `decrypt`: the state after the call, and the plaintext or the error. */
  function Decrypted(s: Ratchet, frame: Frame, generated: Option<nat>): (Ratchet, Result<seq<byte>>) {
    if frame.header.sessionId != s.sessionId || frame.ciphertext.suite != s.suite
    then (s, Err(RatchetStateMismatch))
    else if frame.header.ratchetPublic == s.remoteDh then DecryptedSame(s, frame)
    else DecryptedNew(s, frame, generated)
  }

  class RatchetState {
    var sessionId: SessionId
    var rootKey: Secret
    var sendingChain: Secret
    var receivingChain: Secret
    var dhPair: nat
    var remoteDh: PublicKey
    var previousSendingChainLen: u32
    var sendingCount: u32
    var receivingCount: u32
    var generation: u64
    var suite: AeadSuite
    var skipped: seq<SkippedMessageKey>

    function Value(): Ratchet
      reads this
    {
      Ratchet(sessionId, rootKey, sendingChain, receivingChain, dhPair, remoteDh,
              previousSendingChainLen, sendingCount, receivingCount, generation, suite, skipped)
    }

    constructor FromAuthenticatedHandshake(h: AuthenticatedHandshake, suite: AeadSuite)
      ensures Value() == InitialRatchet(h, suite)
    {
      var aToB := InitialChain(h.rootSecret, InitiatorToResponder, h.sessionId);
      var bToA := InitialChain(h.rootSecret, ResponderToInitiator, h.sessionId);
      sessionId := h.sessionId;
      rootKey := h.rootSecret;
      if h.role.Initiator? {
        sendingChain, receivingChain := aToB, bToA;
      } else {
        sendingChain, receivingChain := bToA, aToB;
      }
      dhPair := h.localRatchet;
      remoteDh := h.remoteRatchet;
      previousSendingChainLen, sendingCount, receivingCount := 0, 0, 0;
      generation := 0;
      this.suite := suite;
      skipped := [];
    }

    method Encrypt(kind: FrameKind, plaintext: seq<byte>, nonceReady: bool) returns (r: Result<Frame>)
      modifies this
      ensures (Value(), r) == Encrypted(old(Value()), kind, plaintext, nonceReady)
    {
      var messageNumber := sendingCount;
      var (nextChain, messageKey) := ChainStep(sendingChain);
      var header := FrameHeader(kind, sessionId, Generated(dhPair), previousSendingChainLen, messageNumber);
      r := SealFrame(messageKey, suite, header, plaintext, nonceReady);
      if r.Err? {
        return;
      }
      sendingChain := nextChain;
      if sendingCount == U32_MAX {
        return Err(CounterExhausted);
      }
      sendingCount := sendingCount + 1;
      generation := SaturatingIncrement(generation);
    }

    method Decrypt(frame: Frame, generated: Option<nat>) returns (r: Result<seq<byte>>)
      modifies this
      ensures (Value(), r) == Decrypted(old(Value()), frame, generated)
    {
      if frame.header.sessionId != sessionId || frame.ciphertext.suite != suite {
        return Err(RatchetStateMismatch);
      }
      if frame.header.ratchetPublic == remoteDh {
        r := DecryptSameRatchet(frame);
      } else {
        r := DecryptNewRatchet(frame, generated);
      }
    }

    method RotateSendingRatchet(generated: Option<nat>) returns (r: Result<()>)
      modifies this
      ensures (Value(), r) == Rotated(old(Value()), generated)
    {
      if generated.None? {
        return Err(RandomnessUnavailable);
      }
      var nextPair := generated.value;
      var dh := DiffieHellman(nextPair, remoteDh);
      if dh.None? {
        return Err(NonContributoryKeyAgreement);
      }
      var (nextRoot, nextSendingChain) := RootStep(rootKey, dh.value);
      StartSending(nextRoot, nextSendingChain, nextPair);
      generation := SaturatingIncrement(generation);
      return Ok(());
    }

    /** Moves to a new sending chain; the length of the old one is announced in later headers. */
    method StartSending(root: Secret, chain: Secret, pair: nat)
      modifies this`rootKey, this`sendingChain, this`dhPair, this`previousSendingChainLen, this`sendingCount
      ensures rootKey == root && sendingChain == chain && dhPair == pair
      ensures previousSendingChainLen == old(sendingCount) && sendingCount == 0
    {
      rootKey := root;
      sendingChain := chain;
      dhPair := pair;
      previousSendingChainLen := sendingCount;
      sendingCount := 0;
    }

    method DecryptSameRatchet(frame: Frame) returns (r: Result<seq<byte>>)
      modifies this
      ensures (Value(), r) == DecryptedSame(old(Value()), frame)
    {
      var target := frame.header.messageNumber;
      if target < receivingCount {
        r := DecryptSkipped(frame);
        return;
      }
      var derived := DeriveForMessage(receivingChain, receivingCount, target, |skipped|);
      if derived.Err? {
        return Err(derived.error);
      }
      r := frame.Open(derived.value.key);
      if r.Err? {
        return;
      }
      receivingChain := derived.value.next;
      if target == U32_MAX {
        return Err(CounterExhausted);
      }
      receivingCount := target + 1;
      AddSkipped(frame.header.ratchetPublic, derived.value.skipped);
      generation := SaturatingIncrement(generation);
    }

    /** The derivations and the authentication of the new-ratchet path; nothing is committed here. */
    method DeriveNewRatchet(frame: Frame, generated: Option<nat>) returns (r: Result<NewRatchet>)
      ensures r == NewRatchetOf(Value(), frame, generated)
    {
      var remote := frame.header.ratchetPublic;
      var number := frame.header.messageNumber;
      var range := DeriveRange(receivingChain, receivingCount, frame.header.previousChainLen, |skipped|);
      if range.Err? {
        return Err(range.error);
      }
      var oldSkipped := range.value.1;
      var dh := DiffieHellman(dhPair, remote);
      if dh.None? {
        return Err(NonContributoryKeyAgreement);
      }
      var (rootAfterReceive, nextReceivingChain) := RootStep(rootKey, dh.value);
      if generated.None? {
        return Err(RandomnessUnavailable);
      }
      var nextPair := generated.value;
      var nextDh := DiffieHellman(nextPair, remote);
      if nextDh.None? {
        return Err(NonContributoryKeyAgreement);
      }
      var (rootAfterSend, nextSendingChain) := RootStep(rootAfterReceive, nextDh.value);
      var extraCapacity := |skipped| + |oldSkipped|;
      var m := DeriveForMessage(nextReceivingChain, 0, number, extraCapacity);
      if m.Err? {
        return Err(m.error);
      }
      var plaintext := frame.Open(m.value.key);
      if plaintext.Err? {
        return Err(plaintext.error);
      }
      return Ok(NewRatchet(rootAfterSend, nextSendingChain, m.value.next, nextPair, number,
                           oldSkipped, m.value.skipped, plaintext.value));
    }

    method DecryptNewRatchet(frame: Frame, generated: Option<nat>) returns (r: Result<seq<byte>>)
      modifies this
      ensures (Value(), r) == DecryptedNew(old(Value()), frame, generated)
    {
      hide NewRatchetOf, WithRemote;
      var remote := frame.header.ratchetPublic;
      var derived := DeriveNewRatchet(frame, generated);
      if derived.Err? {
        return Err(derived.error);
      }
      var n := derived.value;
      var oldRemote := remoteDh;
      AddSkipped(oldRemote, n.oldSkipped);
      AddSkipped(remote, n.newSkipped);
      StartSending(n.root, n.sending, n.pair);
      receivingChain := n.receiving;
      remoteDh := remote;
      // The skipped-key budget bounds the number by 1024, so this cannot overflow.
      receivingCount := n.number + 1;
      generation := SaturatingIncrement(generation);
      return Ok(n.plaintext);
    }

    method AddSkipped(remote: PublicKey, keys: seq<NumberedKey>)
      modifies this`skipped
      ensures skipped == old(skipped) + WithRemote(remote, keys)
    {
      skipped := skipped + WithRemote(remote, keys);
    }

    method DecryptSkipped(frame: Frame) returns (r: Result<seq<byte>>)
      modifies this
      ensures (Value(), r) == DecryptedSkipped(old(Value()), frame)
    {
      var index := Position(skipped, frame.header.ratchetPublic, frame.header.messageNumber);
      if index == |skipped| {
        return Err(MessageKeyConsumed);
      }
      r := frame.Open(skipped[index].key);
      if r.Err? {
        return;
      }
      skipped := RemoveAt(skipped, index);
      generation := SaturatingIncrement(generation);
    }
  }
}
