# MEF-26 core: model and proofs

MEF-26 is a core for encrypted messaging between two parties. This project models what
it does with state and with bytes, and proves what a whole conversation may rely on: that
both ends derive the same keys, that every plaintext comes out once and is the one that
was sent, that frames may arrive in any order, that what is stored or sent can be read
back, and that failing deliveries leave no trace.

The cryptographic primitives are ideal. In the ratchet and the handshake, keys are terms
(`KeyTerms.dfy`): each derivation is a constructor of its inputs, an X25519 agreement is an
unordered pair of secrets, and a sealed body opens exactly with its key and its header.
In the byte-level parts the primitives are a record of functions, of which
`Primitives.Sound` assumes that agreement is symmetric, that opening undoes sealing, and
that sealing adds 16 bytes. Integrity of the AEAD is not assumed of all bytes at once, which
a 16-byte tag cannot give, but, where a result needs it, of the bytes that the result is
about (`StateIntegrity.NotForged`, `Envelope.AuthenticatesOnce`). A random draw is a
parameter that may be missing.

| files | content |
|---|---|
| `Common`, `ByteCoding`, `KeyTerms`, `Primitives`, `ByteNames` | errors, limits, suites; big-endian integers; key terms; ideal primitives on bytes; the bytes that stand for terms |
| `Schedule`, `Ratchet` | chain and root steps, bounded skipping; the class `RatchetState` and its value `Ratchet` |
| `RatchetExact`, `HandshakeExact`, `EnvelopeExact`, `StateExact`, `ReplayExact` | each call for any state and argument: the condition for success, every field after it, each error and the order of the checks, in terms of fields, signatures and bytes |
| `Layouts`, `ParsersExact` | every format as bytes at numbered offsets; what each parser makes of any bytes |
| `Session` | two endpoints, a network that keeps, repeats, reorders and alters frames, and the steps of a run |
| `SessionInvariant`, `SessionDelivery`, `SessionCompleteness` | the inductive invariant: a run is explained by its sending epochs, and every number of a chain was sent |
| `SessionTheorems`, `SessionFailures`, `SessionAccounting`, `Confluence` | the results about every reachable world |
| `SessionRotation`, `SessionLimits` | runs with rotation at any time; runs that go to the limits |
| `RepeatedKeys` | a peer that comes back to an old ratchet key |
| `SessionTransport` | from `encrypt` over frame bytes and envelope to `decrypt` |
| `Handshake`, `HandshakeTheorems`, `HandshakeCodec` | the prekey store as a class, its runs, delayed acceptance; message and bundle bytes |
| `Persistence`, `StateIntegrity`, `PersistedSession` | sealed state records; what altered ones do; every reachable ratchet survives storage |
| `Wire`, `Envelope`, `Replay`, `Kdf` | frame and envelope bytes, the replay cache as a class, hash inputs |

An object that the source updates in place is a class. Each of its methods is proved to
move from the old value to the new one exactly as a function on values says
(`Encrypted`, `Decrypted`, `Rotated`, `Added`, `Accepted`, `Checked` and so on), and the
results about runs are about those functions. The `Exact` modules say what these functions
yield on any argument in terms of fields, signatures, key terms and bytes.

In a run (`Session.Allowed`) newly drawn keys are fresh, a delivered body is any sent body
under any header or a forged body, and rotation takes place only while both root keys are
equal. `SessionFailures.RotationNeedsEqualRoots` shows why the last condition is there.

## Where the code differs from its documentation

The model follows the code.

* The generation of a sealed state is documented to detect rollback, and a tampered record
  to fail authentication. The generation stands in the clear header only; neither the
  sealed bytes nor the associated data contain it. A record restores under whatever
  generation its header carries, and the floor is compared with that one
  (`Persistence.GenerationNotBound`, `Persistence.SealThenRestoreWithGeneration`). The floor
  refuses exactly those blobs whose header carries a generation below it. Every other
  alteration fails as documented: of bytes that are not forged, just the sealed snapshots
  restore, each under any generation (`StateIntegrity.RestoresOnlySnapshots`), and just under
  the key and context of the sealing (`StateIntegrity.WrongKeyOrContextFails`).
* `encrypt` is documented to commit only after successful framing, and `decrypt` only
  after authentication. Both assign the chain before the counter is checked, so a call
  that runs into the end of the counter fails with the chain moved.
  `SessionFailures.EncryptFailure` and `SessionFailures.DecryptFailure` say exactly when a
  failing call changes the state. For `encrypt` it happens at the end of some runs
  (`SessionFailures.ExhaustedCounterIsReachable`); for `decrypt` a run reaches states with a
  frame that would do it (`SessionLimits.LastNumberIsReachable`), but that frame is never sent,
  so it does not happen in a run (`SessionFailures.DeliveryFailureIsAtomic`).
* Proactive rotation is offered at any time. The peer can follow only while the root keys
  are equal (`SessionFailures.RotationNeedsEqualRoots`), and one rotation makes them unequal
  (`SessionFailures.UnequalRootsAreReachable`, `SessionFailures.SecondRotationBreaks`). A caller
  cannot check the condition: it reads both endpoints, and one endpoint is the same in runs
  with equal and with unequal roots (`SessionRotation.RootsAreNotLocal`). After a rotation with
  unequal roots no frame under the new key is ever opened, whatever follows
  (`SessionRotation.RotationBreaksForGood`).
* Keys retained for an earlier remote key are never consulted again, unlike in section 3.5
  of "The Double Ratchet Algorithm", and count towards the limit for ever
  (`SessionFailures.StaleKeysNeverOpen`, `SessionFailures.SupersededFrameFails`,
  `SessionAccounting.StaleKeysStay`, `SessionAccounting.RoomOnlyShrinks`). They can fill the
  list, and then nothing but in-order delivery works for the rest of the session
  (`SessionLimits.FullOfStaleIsReachable`, `SessionLimits.OnlyInOrderForEver`).
* The expiry times of envelopes and signed prekeys are documented as exclusive; the code
  still accepts at the very second (`Envelope.Transport`, `HandshakeTheorems.AcceptAgreesExactly`).
* A replayed envelope is refused for as long as the clock does not step back past its
  expiry (`Replay.TwiceOnlyIfClockRanBack`, `Replay.ClockRanBackAcceptsTwice`).

## Model

| member | source | states |
|---|---|---|
| `Schedule.DeriveRange` | src/ratchet/schedule.rs:37-59 | the loop yields the chain advanced by the length of the range and exactly the numbered keys in between; it refuses exactly when the end lies before the start or the budget would pass 1024 |
| `Schedule.DeriveForMessage` | src/ratchet/schedule.rs:62-71 | the key at the target, the chain after it, and the keys skipped on the way |
| `Schedule.RangesCompose` | src/ratchet/schedule.rs:37-59 | skipping a..b and then b..c yields the chain and keys of a..c, and refuses exactly when the long range does |
| `Schedule.KeyDeterminesPosition` | src/ratchet/schedule.rs:23-26 | a message key belongs to one first chain secret and one number |
| `Ratchet.RatchetState.FromAuthenticatedHandshake` | src/ratchet/state.rs:71-96 | the initial state for each role, with crossed chains |
| `Ratchet.RatchetState.Encrypt` | src/ratchet/state.rs:133-148 | new state and frame or error as `Encrypted` says, including the late counter exit; `RatchetExact.EncryptsExactly` spells it out |
| `Ratchet.RatchetState.Decrypt` | src/ratchet/state.rs:155-166 | new state and plaintext or error as `Decrypted` says, on every path; `RatchetExact.DecryptsExactly` and the four lemmas before it spell it out |
| `Ratchet.RatchetState.RotateSendingRatchet` | src/ratchet/state.rs:173-184 | one root step with a new key; the old chain's length is kept for later headers |
| `Ratchet.RatchetState.DecryptSameRatchet` | src/ratchet/state.rs:186-199 | skipping on the current chain, commit after opening, late counter exit |
| `Ratchet.RatchetState.DeriveNewRatchet` | src/ratchet/state.rs:202-218 | everything the new-ratchet path derives and checks before it commits, in order; the state is untouched and the number is below 2^32 - 1 |
| `Ratchet.RatchetState.DecryptNewRatchet` | src/ratchet/state.rs:201-233 | two root steps, keys retained for both remote keys, or no change at all |
| `Ratchet.RatchetState.AddSkipped` | src/ratchet/state.rs:235-241 | appends the keys under the remote key, in order |
| `Ratchet.RatchetState.DecryptSkipped` | src/ratchet/state.rs:243-258 | removes just the first matching key, and only if the frame opens with it |
| `RatchetExact.StartsExactly` | src/ratchet/state.rs:71-96 | a new ratchet has the given suite, session, root and keys; the initiator sends on the chain from initiator to responder and receives on the other, the responder reversely; all counts are 0 |
| `RatchetExact.EncryptsExactly` | src/ratchet/state.rs:133-148 | for any state, kind and plaintext: the first of size, nonce and counter that fails and its error; else the frame carries that kind, the session, the public ratchet key, the previous length and the count, sealed over them with the key of that step |
| `RatchetExact.RotatesExactly` | src/ratchet/state.rs:173-184 | for any state and draw: the error, or the next root from the unordered pair of secrets, its chain, and the counters moved |
| `RatchetExact.ForeignFrameRefused` | src/ratchet/state.rs:157-159 | for any state, frame and draw, another session id or suite is refused as a mismatch, whatever the ratchet key and number, and nothing changes |
| `RatchetExact.PassedNumberExactly` | src/ratchet/state.rs:243-258 | below the count the first retained key for ratchet key and number decides: none, not the sealing one, or opened and gone |
| `RatchetExact.AheadExactly` | src/ratchet/state.rs:186-199 | from the count on: budget, then sealing key and header, then the counter; what is retained in between, entry by entry |
| `RatchetExact.NewKeyExactly` | src/ratchet/state.rs:201-233 | under a new remote key: the six checks in order with their errors, or every field of the state after both root steps and both skipped ranges |
| `RatchetExact.DecryptsExactly` | src/ratchet/state.rs:155-258 | for any state, frame and draw, `decrypt` succeeds if and only if session and suite are its own and, by ratchet key and number, the retained key or the derived one sealed the body over this very header within the budget and below the last number; then it returns the plaintext sealed |
| `SessionInvariant.EncryptInv` | src/ratchet/state.rs:133-148 | encrypting keeps the run invariant |
| `SessionInvariant.RotateInv` | src/ratchet/state.rs:173-184 | rotating with equal roots keeps the run invariant |
| `SessionDelivery.DeliverInv` | src/ratchet/state.rs:155-258 | delivering anything from the network keeps the run invariant |
| `SessionDelivery.NewIsFromAhead` | src/ratchet/state.rs:201-218 | the new-ratchet path opens only frames of the peer's newest chain, sent exactly so: its derived key sits at a greater root depth than any older sealing key |
| `SessionDelivery.ReachableInv` | src/ratchet/state.rs:133-258 | every world reached by any run is explained by a list of epochs |
| `SessionCompleteness.ReachableComplete` | src/ratchet/state.rs:133-233 | in every run, each endpoint has sent every number below the length of its chain and of the chain its peer receives on |
| `SessionTheorems.Agreement` | src/ratchet/state.rs:173-233 | in every run the endpoints are in step or one root step apart, and each receiving chain is the peer's chain for that ratchet key at the receiving count, which the peer's length is never below; every number below that length was sent, and the frames from the count on open with that chain's keys |
| `SessionTheorems.ExactlyOnce` | src/ratchet/state.rs:133-166 | every plaintext ever returned is one the peer encrypted, in that very frame and of the kind it passed; nothing is opened twice; number 2^32 - 1 is never sent |
| `SessionTheorems.ReplayRefused` | src/ratchet/state.rs:186-258 | an opened frame is refused whenever it comes again, after whatever steps, and changes nothing |
| `SessionTheorems.DeliveryAccepts` | src/ratchet/state.rs:155-233 | a sent frame opens if and only if it is the peer's and is either under the current remote key, unopened and within the budget, or under the key of a peer one step ahead and within the budget; it yields the plaintext sent |
| `SessionFailures.SendsOn` | src/ratchet/state.rs:133-148 | from any reachable world either endpoint can send on up to the last number |
| `SessionFailures.ExhaustedMovesOn` | src/ratchet/state.rs:143-146 | with the counter exhausted every further call fails and still moves the chain by one step, and nothing else |
| `SessionFailures.ExhaustedCounterIsReachable` | src/ratchet/state.rs:144-145 | some run exhausts a sending counter; from there `encrypt` fails again and again with the chain moved |
| `SessionFailures.DecryptFailure` | src/ratchet/state.rs:191-197 | for any state and frame, a failing `decrypt` changes the state if and only if the frame is an authentic one with number 2^32 - 1 |
| `SessionFailures.LastNumberIsPossible` | src/ratchet/state.rs:194-195 | a frame with the last number that opens and then fails exists if and only if the budget reaches that number |
| `SessionFailures.GenerationCounts` | src/ratchet/state.rs:133-258 | over any run from any state the generation counts the successful calls, saturating |
| `SessionFailures.DeliveryFailureIsAtomic` | src/ratchet/state.rs:155-233 | in a run no failing delivery changes its receiver |
| `SessionFailures.SupersededFrameFails` | src/ratchet/state.rs:155-166 | a frame under a superseded ratchet key fails and changes nothing |
| `SessionFailures.StaleKeysNeverOpen` | src/ratchet/state.rs:220-221 | a key retained for an earlier remote key never opens its frame |
| `SessionFailures.Accounting` | src/ratchet/state.rs:186-258 | below the receiving count each number of the current remote key is opened or retained and never both, from it on neither; retained keys are those of the chain |
| `SessionFailures.SkippedBounded` | src/ratchet/state.rs:235-241 | at most 1024 keys are retained, no (ratchet key, number) twice |
| `SessionFailures.RotationNeedsEqualRoots` | src/ratchet/state.rs:173-184 | after a rotation the next frame can be opened if and only if the roots were equal before it and the budget suffices |
| `SessionFailures.UnequalRootsAreReachable` | src/ratchet/state.rs:173-184 | a rotation from equal roots reaches a world with unequal ones |
| `SessionFailures.SecondRotationBreaks` | src/ratchet/state.rs:173-184 | after two rotations in a row the next frame cannot be opened |
| `SessionRotation.RootsAreNotLocal` | src/ratchet/state.rs:173-184 | two reachable worlds agree in one endpoint and differ in whether the roots are equal |
| `SessionRotation.RotationBreaksForGood` | src/ratchet/state.rs:173-184 | after a rotation with unequal roots no frame under the new key is ever opened, over any continuation with rotations at any time |
| `SessionLimits.TalksOn` | src/ratchet/state.rs:133-199 | from any reachable world an up-to-date receiver can follow its peer up to the last number |
| `SessionLimits.LastNumberIsReachable` | src/ratchet/state.rs:194-195 | some run reaches a receiver for which a frame with the last number would open and fail |
| `SessionLimits.FullOfStaleIsReachable` | src/ratchet/state.rs:219-221 | some run fills the retained list with 1024 stale keys |
| `SessionLimits.OnlyInOrderForEver` | src/ratchet/state.rs:191-217 | from then on, over any continuation, only the very next number opens, or number 0 of a new chain with nothing of the old one missing |
| `RepeatedKeys.StaysUniqueExactly` | src/ratchet/state.rs:201-241 | for any state and peer, a new-ratchet delivery keeps retained keys unique if and only if no lower number was retained for that key before |
| `RepeatedKeys.ComingBackRepeats` | src/ratchet/state.rs:201-241 | three frames of a peer that comes back to a key make a retained key repeat, from any state with room for it |
| `RepeatedKeys.RepeatedKeysDoNotRestore` | src/ratchet/persistence.rs:184-198 | a state with repeated keys is sealed, and refused when it is restored |
| `SessionAccounting.StaleKeysStay` | src/ratchet/state.rs:219-221 | a key retained for a superseded ratchet key stays retained for the rest of any run |
| `SessionAccounting.RoomOnlyShrinks` | src/ratchet/state.rs:214-217 | stale entries only accumulate, and the entries of the current key never exceed what those of any earlier moment leave of the 1024 |
| `SessionAccounting.AccountingOfSuperseded` | src/ratchet/state.rs:186-258 | each frame sent under a superseded ratchet key was opened or its key is retained and never both; each retained key is the key of a sent frame |
| `SessionTransport.FrameArrives` | src/envelope/outer.rs:43-102 | a ratchet frame as bytes can be sent in one envelope if and only if frame and padding fit; then, for any key that opens it, the same header and plaintext arrive |
| `SessionTransport.SentFrameArrives` | src/ratchet/state.rs:133-166 | in every run, what arrives over frame bytes and envelope is the plaintext that `decrypt` returns and that was encrypted, in a frame of the kind passed to `encrypt`, with session, ratchet key, previous length and number |
| `Confluence.AnyOrder` | src/ratchet/state.rs:186-258 | two orders of the same authentic frames up to k past the count, with r retained and r + k <= 1024, end in the same state and yield every plaintext |
| `Confluence.AnyOrderEqualsInOrder` | src/ratchet/state.rs:186-258 | the next k + 1 frames in any order end in exactly the state of in-order delivery: chain, count, generation and retained list |
| `Confluence.BudgetIsExact` | src/ratchet/schedule.rs:46-50 | all orders succeed if and only if r + k <= 1024 |
| `Confluence.RunConfluence` | src/ratchet/state.rs:186-258 | order independence for the frames of a run |
| `Handshake.ResponderPrekeyMaterial.Generate` | src/handshake.rs:256-272 | three draws, any of which may fail; then a store with a correctly issued signed prekey and nothing else |
| `Handshake.ResponderPrekeyMaterial.AddOneTimePrekey` | src/handshake.rs:289-297 | appends the prekey, or refuses a held id |
| `Handshake.ResponderPrekeyMaterial.RotateSignedPrekey` | src/handshake.rs:317-330 | retains the old key, issues the new record, or refuses a current or retained id |
| `Handshake.ResponderPrekeyMaterial.RetireSignedPrekey` | src/handshake.rs:337-345 | removes just the retained key of that id |
| `Handshake.Accept` | src/handshake.rs:521-568 | moves the store and answers as `Accepted` says, the one-time prekey last; `HandshakeExact.AcceptOutcome` spells it out |
| `HandshakeExact.InitiatesExactly` | src/handshake.rs:476-519 | for any bundle: unauthentic if the signature over identity key or signed prekey is not there, by the one signer over these very fields, or the prekey has expired; then missing draws, then keys without contribution; else every field of the message and the agreements in the root |
| `HandshakeExact.OnlyIssuedPrekeys` | src/keys/prekey.rs:49-54 | if signatures under the responder's key are its own, a bundle that names it is refused unless its signed prekey was the current record of its store at some time |
| `HandshakeExact.AcceptOutcome` | src/handshake.rs:521-568 | for any store and message: the binding signature, the ids, the contributions, in this order with their errors; else session, root, role, keys, and the one-time prekey gone |
| `HandshakeExact.AcceptedInitiatorIsBound` | src/handshake.rs:99-101 | over any calls an accepted initiator presents a DH identity that its signing key bound |
| `HandshakeExact.AcceptedInNameOf` | src/handshake.rs:525-534 | if signatures under an initiator's key are its own, who is accepted in its name has its identity record, and the first agreement in the root is with its secret |
| `HandshakeTheorems.GeneratedStoreInv` | src/handshake.rs:256-345 | from a generated store any calls keep ids unique and records with their keys, and a failing call changes nothing; with fresh draws one-time secrets are distinct |
| `HandshakeTheorems.HeldKeysFixed` | src/handshake.rs:289-345 | over any sequence of calls, an id held throughout maps to one key |
| `HandshakeTheorems.AddsExactly` | src/handshake.rs:289-297 | adding succeeds if and only if the id is not held; it maps that id to the new key and changes no other |
| `HandshakeTheorems.RotatesExactly` | src/handshake.rs:317-330 | rotating succeeds if and only if the id is neither current nor retained; it makes that id current and every other id keeps its key |
| `HandshakeTheorems.RetiresExactly` | src/handshake.rs:337-345 | retiring succeeds if and only if the id is retained and not current; it drops that id and no other |
| `HandshakeTheorems.AcceptsExactly` | src/handshake.rs:521-568 | a message is accepted if and only if the initiator's signing key signed the binding of its DH identity, the named ids are held and both keys contribute; a missing signature is refused as unauthentic; acceptance removes the named one-time id and leaves every other id with its key |
| `HandshakeTheorems.RefusedOnceConsumed` | src/handshake.rs:557-560 | an accepted message that names a one-time prekey is refused after any calls that do not add its id anew |
| `HandshakeTheorems.AcceptedAgainLater` | src/handshake.rs:521-568 | an accepted message that names none is accepted again, after any calls that keep the signed prekey held, with the same session id, root and ratchet keys |
| `HandshakeTheorems.SecondRatchetOpensAgain` | src/handshake.rs:521-568 | the second ratchet starts in the state of the first, and opens the initiator's first frame again |
| `HandshakeTheorems.AcceptAgreesExactly` | src/handshake.rs:476-590 | a bundle starts a handshake if and only if its signed prekey has not expired; a later state of the store accepts the message if and only if it holds the offered ids, and both ends then agree if and only if those ids still stand for the offered keys |
| `HandshakeTheorems.AnyBundleAgreesExactly` | src/handshake.rs:476-590 | for any bundle with the responder's identity record that the initiator accepts (by `HandshakeExact.InitiatesExactly`: signed, in time, contributory), genuine or not: the message is accepted if and only if the named ids are held, and both ends agree if and only if the bundle's public keys are those of the keys held |
| `HandshakeTheorems.DelayedAcceptAgrees` | src/handshake.rs:276-345 | after any calls that keep the offered prekeys held, the delayed message is accepted with the same session id and root, mirrored ratchet keys and crossed chains: the start of a run |
| `HandshakeTheorems.OneTimeKeyServesOnce` | src/handshake.rs:557-560 | over any run with fresh keys, each one-time key serves at most one accepted handshake |
| `HandshakeCodec.Encode` | src/handshake.rs:373-394 | the 205 bytes of a message, field by field |
| `HandshakeCodec.DecodesExactlyEncodings` | src/handshake.rs:401-430 | bytes are accepted as a message if and only if they are its encoding and its identity record verifies |
| `HandshakeCodec.EncodeBundle` | src/handshake.rs:165-189 | the 277 bytes of a bundle, field by field |
| `HandshakeCodec.BundleDecodesExactlyEncodings` | src/handshake.rs:197-227 | bytes are accepted as a bundle if and only if they are its encoding and its identity record verifies |
| `Layouts.MessageLayout` | src/handshake.rs:373-394 | every field of a message at its offset in the 205 bytes, after `MEH` and 1 |
| `Layouts.BundleLayout` | src/handshake.rs:165-189 | every field of a bundle at its offset in the 277 bytes, after `MEB` and 1 |
| `ParsersExact.MessageOutcome` | src/handshake.rs:401-430 | for any bytes, the first check that fails with its error, or each field and where it stood |
| `ParsersExact.BundleOutcome` | src/handshake.rs:197-227 | for any bytes likewise; the identity record is checked before the optional prekey |
| `Layouts.SessionInputLayout` | src/handshake.rs:570-581 | the hashed string byte for byte: domain, label, then message and responder record, each after its length |
| `HandshakeCodec.SessionInputBinds` | src/handshake.rs:570-581 | the string hashed to the session id determines the whole message and the responder's identity record |
| `Layouts.StateLayout` | src/ratchet/persistence.rs:118-144 | every fixed field of a record at its offset in the version-2 bytes |
| `Layouts.StateEntryLayout` | src/ratchet/persistence.rs:137-142 | entry k stands at 207 + 68 k: remote key, number, key |
| `Layouts.StateAadLayout` | src/ratchet/persistence.rs:215-225 | the label bytes of each version, with its digit, then the context; refused beyond 65512 bytes of context |
| `StateExact.SealStateOutcome` | src/ratchet/persistence.rs:52-69 | for any record, context and draw: the errors in order, or every byte of the blob, sealed under the label of version 2 and the context |
| `StateExact.RestoreStateOutcome` | src/ratchet/persistence.rs:79-115 | for any bytes, context and floor: the checks in order with their errors, down to the bytes that are opened and decoded |
| `StateExact.DecodeStateOutcome` | src/ratchet/persistence.rs:146-213 | for any bytes of either version: the checks in order with their errors, or each field and where it stood |
| `Persistence.EncodeState` | src/ratchet/persistence.rs:118-144 | the record's bytes, entry by entry, or a refusal beyond 1024 keys |
| `Persistence.DecodeState` | src/ratchet/persistence.rs:146-213 | both versions, every refusal in order, and the loop that rejects a repeated (remote key, number) |
| `Persistence.DecodesExactlyEncodings` | src/ratchet/persistence.rs:118-213 | version-2 bytes decode to a record if and only if they are its encoding and it is bounded and free of duplicates |
| `Persistence.EncodingDecodes` | src/ratchet/persistence.rs:118-213 | what is written is read back, unless retained keys repeat; then it is refused |
| `Persistence.LegacyReadsAsUpgraded` | src/ratchet/persistence.rs:151-163 | a version-1 record is read or refused exactly as the same bytes with suite byte 4 inserted at offset 204 under version 2 |
| `Persistence.LegacyDecodesExactly` | src/ratchet/persistence.rs:146-213 | version-1 bytes decode to a record if and only if it is written as their upgrade |
| `Persistence.StateAad` | src/ratchet/persistence.rs:215-225 | label and context, or a refusal beyond the limit |
| `Persistence.AadBinds` | src/ratchet/persistence.rs:215-225 | the associated data determines the context and the version |
| `Persistence.SealState` | src/ratchet/persistence.rs:52-69 | header, nonce and sealed body, or the first error |
| `Persistence.SealThenRestore` | src/ratchet/persistence.rs:52-115 | sealing succeeds if and only if context and retained list fit; restoring the untouched blob then yields the very record, unless the floor is above its generation or retained keys repeat |
| `Persistence.RestoresExactly` | src/ratchet/persistence.rs:79-115 | any bytes restore as a record if and only if they are a header with its generation, a nonce and a body that opens to bytes of the record, and the floor does not exceed that generation |
| `StateIntegrity.RestoresOnlySnapshots` | src/ratchet/persistence.rs:71-115 | of bytes that are not forged exactly the sealed snapshots restore, each under any generation in its header that is not below the floor; whatever else has the form of a blob fails as unauthentic |
| `StateIntegrity.WrongKeyOrContextFails` | src/ratchet/persistence.rs:71-115 | under another key or context a sealed blob fails as unauthentic, whatever generation its header carries |
| `Persistence.GenerationNotBound` | src/ratchet/persistence.rs:85-103 | bytes that restore do so under every other generation in the header, which alone is compared with the floor |
| `Persistence.SealThenRestoreWithGeneration` | src/ratchet/persistence.rs:52-115 | a sealed record with generation g in its header restores if and only if g is not below the floor, whatever it was sealed with |
| `PersistedSession.ReachableIsStorable` | src/ratchet/persistence.rs:184-198 | in every run either endpoint's retained list is within the limit and repeats no (remote key, number), also as bytes |
| `PersistedSession.ReachableStateRestores` | src/ratchet/persistence.rs:52-115 | in every run either endpoint seals at any time; the untouched blob restores to the same state for exactly the floors up to its generation, and with another generation in the header for exactly the floors up to that one |
| `Layouts.FrameLayout` | src/frame/wire.rs:66-78 | every field of a frame at its offset, after `MEF` and 1, with suite and kind numbers and the nonce length |
| `ParsersExact.FramePrefixOutcome` | src/frame/wire.rs:103-144 | for any bytes, the first check that fails with its error, or each field and where it stood |
| `EnvelopeExact.ChangedFrameFails` | src/frame/wire.rs:51-59 | a body that opens over its own header only is refused under any other |
| `Wire.EncodeAad` | src/frame/wire.rs:163-180 | the 83 header bytes |
| `Wire.Encode` | src/frame/wire.rs:66-78 | header, nonce and body |
| `Wire.PrefixDecodes` | src/frame/wire.rs:103-144 | an encoding followed by any bytes decodes to its frame and exact length within the size limit, and is refused beyond it |
| `Wire.AcceptedPrefixIsCanonical` | src/frame/wire.rs:103-144 | what is accepted at the start of an input is the encoding of the frame returned |
| `Wire.DecodesExactlyEncodings` | src/frame/wire.rs:66-92 | complete input is accepted as a frame if and only if it is its encoding |
| `Wire.PrefixFree` | src/frame/wire.rs:66-144 | no encoding is a proper prefix of another |
| `Wire.AadBinds` | src/frame/wire.rs:163-180 | the associated data determines suite, header and body length |
| `Envelope.EncodeAad` | src/envelope/outer.rs:237-259 | the 98 header bytes |
| `Envelope.Encode` | src/envelope/outer.rs:169-181 | header, nonce and body |
| `Envelope.Seal` | src/envelope/outer.rs:43-69 | draws, agreement, padding, size check and sealing, as `Sealed` says; `EnvelopeExact.SealOutcome` spells it out |
| `EnvelopeExact.SealOutcome` | src/envelope/outer.rs:43-69 | for any input: the errors in order, or an envelope to the mailbox given, with the drawn identifier, expiry, ephemeral key and nonce, whose body is the padded frame sealed with the key derived for that mailbox over the header that goes on the wire |
| `EnvelopeExact.ChangedHeaderFails` | src/envelope/outer.rs:79-86 | an envelope with its body under another mailbox, identifier, expiry or ephemeral key does not open, if the body opens over no header but its own |
| `Layouts.EnvelopeLayout` | src/envelope/outer.rs:169-181 | every field of an envelope at its offset, after `MEO` and 1 |
| `ParsersExact.EnvelopeOutcome` | src/envelope/outer.rs:188-224 | for any bytes, the first check that fails with its error, or each field and where it stood |
| `Envelope.DecodesExactlyEncodings` | src/envelope/outer.rs:169-224 | bytes are accepted as an envelope if and only if they are its encoding |
| `Envelope.AadBinds` | src/envelope/outer.rs:237-259 | the associated data determines mailbox, identifier, expiry, ephemeral key and body length |
| `Envelope.CiphertextDeterminesEnvelope` | src/envelope/outer.rs:79-86 | a ciphertext that is not forged opens in one envelope only: no field of its header can be changed |
| `Envelope.Transport` | src/envelope/outer.rs:43-102 | for every frame and padding, sealing succeeds if and only if both fit in 2^20 - 16 bytes; the envelope then has the mailbox given and the values drawn, survives its encoding, and opens to the same frame until it expires |
| `Envelope.OpensExactlyPaddedEncodings` | src/envelope/outer.rs:95-102 | an authentic plaintext opens as a frame if and only if it is its encoding followed by zero bytes |
| `Replay.ReplayCache.New` | src/envelope/replay.rs:26-31 | an empty cache, refused for capacity zero |
| `Replay.ReplayCache.CheckAndInsert` | src/envelope/replay.rs:39-54 | expired entries go in any case; duplicate, full or recorded |
| `Replay.ReplayCache.OpenInnerOnce` | src/envelope/outer.rs:113-122 | the cache is touched only after the envelope opened |
| `ReplayExact.CheckOutcome` | src/envelope/replay.rs:39-54 | for any entries, capacity and clock: expired entries go and the others keep their order; then a held identifier is a replay, then a full cache an invalid state, else the entry comes last |
| `Replay.HeldExactly` | src/envelope/replay.rs:39-54 | for any clock, an entry is held if and only if it was accepted and no later reading passed its expiry |
| `Replay.ReplayDetectedExactly` | src/envelope/replay.rs:39-54 | for any clock, which calls are refused as replays, which for lack of room, and which are accepted |
| `Replay.AgreesWithLog` | src/envelope/replay.rs:39-54 | under a non-decreasing clock every call, capacity included, is decided as by a log with the same rule that never drops an entry |
| `Replay.HoldsTheUnexpired` | src/envelope/replay.rs:39-54 | under a non-decreasing clock, if the last entry is offered unexpired, as `open_inner_once` offers it, the cache holds exactly the accepted unexpired entries, at most its capacity |
| `Replay.TwiceOnlyIfClockRanBack` | src/envelope/replay.rs:45 | one entry is accepted twice only if the clock passed its expiry in between and came back |
| `Replay.ClockRanBackAcceptsTwice` | src/envelope/replay.rs:45 | a concrete clock under which it is |
| `Replay.CacheHolds` | src/envelope/outer.rs:113-122 | over any run of arrivals under a non-decreasing clock, the unexpired entries held are those of the accepted envelopes |
| `Replay.ReplaysAreLiveIdentifiers` | src/envelope/outer.rs:113-122 | an envelope that opens is refused as a replay if and only if an accepted one, the same or another, had its identifier and has not expired |
| `Replay.EachEnvelopeOnce` | src/envelope/outer.rs:113-122 | over any run under a non-decreasing clock no envelope opens twice, nor does another with the identifier of an accepted one that is unexpired or expires no earlier |
| `Replay.EachCiphertextOnce` | src/envelope/outer.rs:104-122 | over any run under a non-decreasing clock no ciphertext that is not forged is accepted twice, under whatever identifier and expiry it comes again |
| `Primitives.SoundPrimitivesExist` | src/crypto/aead.rs:113-200 | the assumptions about the primitives can be met, with integrity for any one key and associated data |
| `Kdf.Blake3Id` | src/crypto/kdf.rs:46-65 | hashes domain, label and length-prefixed parts, or refuses a bad label or part |
| `Kdf.HashInputInjective` | src/crypto/kdf.rs:46-65 | for labels without zero bytes the hashed string determines the label and the list of parts, of any length |
| `Kdf.NulLabelCollides` | src/crypto/kdf.rs:60-64 | with zero bytes in labels it does not: a colliding pair for every short label |
| `Kdf.DomainLabel` | src/crypto/kdf.rs:73-81 | protocol, kind and label, separated by zero bytes |
| `Layouts.HashLayout` | src/crypto/kdf.rs:46-65 | the hashed bytes from the front: `MEF-26`, 0, `blake3-id`, 0, label, each part after its length; refused exactly for an empty or long label or a long part |
| `Kdf.DomainInjective` | src/crypto/kdf.rs:73-81 | for kinds without zero bytes the string determines kind and label |

## Left out

- The insides of AEAD, HKDF, BLAKE3, X25519, Ed25519 and ML-KEM (src/crypto/aead.rs, src/keys, src/pq.rs): library code; only sizes, suite identifiers and nonce lengths are modelled.
- The ratchet and the handshake are modelled over ideal key terms, not over bytes: accidental collisions of derived keys, and confidentiality, are outside the model. Key-derivation failures cannot occur there, since labels and inputs are within the limits.
- Randomness (src/crypto/random.rs) is a parameter; freshness is assumed of it where a result says so. Memory wiping and constant-time comparison have no functional content.
- The hybrid profile (src/hybrid.rs) and `mix_ml_kem768`: they nest the classical formats and would add only easy members.
- An honest peer is assumed in runs. What a peer that reuses a ratchet key can do is covered for single states only, by `RepeatedKeys`.
- Frames sealed by anybody other than the two endpoints: in a run every body was sent by one of them, under whatever header, or is forged and opens with no key.
- Accessors, `ReplayCache::len`, `from_ciphertext` as a separate entry point, and `identity_fingerprint`: easy members.
- Identity and prekey signatures are ideal terms in the handshake, and predicates in its codec; the transcript bytes they cover are not modelled.
- `usize` arithmetic: the checked additions of the source cannot overflow within the stated limits, and lengths are unbounded here.
- Order and aliasing of heap buffers: byte buffers are sequence variables that the methods extend.
- Foreign bindings and packaging (crates, packages), fuzz targets, examples and tests.
