/**
 Two endpoints, a network that keeps every frame ever sent, and the steps a run
 may take. The network may lose, repeat, reorder and tamper: any header may be
 put on any sealed body that was sent, and any body may be forged.
 */
module Session {
  import opened Common
  import opened KeyTerms
  import opened Ratchet

  datatype Party = Alice | Bob

  function Other(p: Party): Party {
    if p == Alice then Bob else Alice
  }

  /** What the caller passed to `encrypt`, and the frame that came out. */
  datatype SentFrame = SentFrame(sender: Party, kind: FrameKind, plaintext: seq<byte>, frame: Frame)
  datatype Receipt = Receipt(receiver: Party, plaintext: seq<byte>, frame: Frame)

  /** `used` holds every DH secret generated so far, in this session or elsewhere. */
  datatype World = World(
    alice: Ratchet,
    bob: Ratchet,
    sent: seq<SentFrame>,
    received: seq<Receipt>,
    used: set<nat>)
  {
    function At(p: Party): Ratchet {
      if p == Alice then alice else bob
    }

    function With(p: Party, r: Ratchet): World {
      if p == Alice then this.(alice := r) else this.(bob := r)
    }
  }

  datatype Event =
    | Encrypt(sender: Party, kind: FrameKind, plaintext: seq<byte>, nonceReady: bool)
    | Deliver(receiver: Party, frame: Frame, generated: Option<nat>)
    | Rotate(rotator: Party, generated: Option<nat>)

  ghost predicate Available(w: World, f: Frame) {
    f.ciphertext.Forged? || exists k :: 0 <= k < |w.sent| && w.sent[k].frame.ciphertext == f.ciphertext
  }

  predicate FreshIn(w: World, generated: Option<nat>) {
    generated.Some? ==> generated.value !in w.used
  }

  predicate RootsEqual(w: World) {
    w.alice.rootKey == w.bob.rootKey
  }

  /** Generated keys are fresh, bodies come from the network, and only endpoints in step rotate. */
  ghost predicate Allowed(w: World, e: Event) {
    match e
    case Encrypt(_, _, _, _) => true
    case Deliver(_, f, generated) => Available(w, f) && FreshIn(w, generated)
    case Rotate(_, generated) => FreshIn(w, generated) && RootsEqual(w)
  }

  function Using(w: World, generated: Option<nat>): World {
    if generated.Some? then w.(used := w.used + {generated.value}) else w
  }

  function Step(w: World, e: Event): World {
    match e
    case Encrypt(p, kind, plaintext, nonceReady) =>
      var (r, outcome) := Encrypted(w.At(p), kind, plaintext, nonceReady);
      var w' := w.With(p, r);
      if outcome.Ok? then w'.(sent := w.sent + [SentFrame(p, kind, plaintext, outcome.value)]) else w'
    case Deliver(p, f, generated) =>
      var (r, outcome) := Decrypted(w.At(p), f, generated);
      var w' := Using(w.With(p, r), generated);
      if outcome.Ok? then w'.(received := w.received + [Receipt(p, outcome.value, f)]) else w'
    case Rotate(p, generated) =>
      var (r, outcome) := Rotated(w.At(p), generated);
      Using(w.With(p, r), generated)
  }

  /** Both ends of one accepted handshake, before any message. */
  ghost predicate IsStart(w: World) {
    exists sessionId: SessionId, agreements: seq<Shared>, a: nat, b: nat, suite: AeadSuite ::
      && a != b && a in w.used && b in w.used
      && var root := HandshakeRoot(sessionId, agreements);
      && w.alice == InitialRatchet(AuthenticatedHandshake(sessionId, root, Initiator, a, Generated(b)), suite)
      && w.bob == InitialRatchet(AuthenticatedHandshake(sessionId, root, Responder, b, Generated(a)), suite)
      && w.sent == [] && w.received == []
  }

  /** `w` is reached from `start` by the given allowed events. */
  ghost predicate Reaches(start: World, events: seq<Event>, w: World)
    decreases |events|
  {
    if |events| == 0 then start == w
    else Allowed(start, events[0]) && Reaches(Step(start, events[0]), events[1..], w)
  }

  ghost predicate Reachable(w: World) {
    exists start, events :: IsStart(start) && Reaches(start, events, w)
  }

  /** A frame's place in the conversation: the ratchet key it was sent under and its number. */
  datatype FrameId = FrameId(ratchetPublic: PublicKey, number: u32)

  function IdOf(f: Frame): FrameId {
    FrameId(f.header.ratchetPublic, f.header.messageNumber)
  }

  function KeyIdOf(k: SkippedMessageKey): FrameId {
    FrameId(k.remoteDh, k.messageNumber)
  }

  function OpenedBy(received: seq<Receipt>, p: Party): set<FrameId> {
    set k | 0 <= k < |received| && received[k].receiver == p :: IdOf(received[k].frame)
  }

  function Retained(skipped: seq<SkippedMessageKey>): set<FrameId> {
    set k | 0 <= k < |skipped| :: KeyIdOf(skipped[k])
  }

  ghost predicate UniqueKeys(s: seq<SkippedMessageKey>) {
    forall a, b :: 0 <= a < b < |s| ==> KeyIdOf(s[a]) != KeyIdOf(s[b])
  }
}
