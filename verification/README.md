# ZAP, modelled and proved in Dafny

ZAP is a zero-copy message format, a request/response node on top of it, and a post-quantum handshake
and record layer (ZAP-PQ-v1) that carries them. This project models the logic of that code in Dafny 4.11
and proves properties of the model. `dafny verify dfyconfig.toml` checks everything.

What is proved, by part of the system:

* **Record layer.** Against any byte stream at all, the payloads `Recv` returns are an in-order
  subsequence without repeats of what the peer passed to `Send` (`Delivery`). Over a faithful channel,
  in every interleaving at both ends, each record is opened under exactly the key, nonce, epoch and
  associated data it was sealed under, nothing fails, and bytes read from the stream wrapper are a
  prefix of bytes written (`Link`, `PqConn`). Over a whole session, both directions and all epochs, no
  key and nonce meet twice exactly when nothing is sealed after a failed send in the same epoch
  (`NonceUse`); counters, frames, bytes and age of an epoch are bounded, and a `Send` rekeys, and succeeds,
  exactly when those bounds say so (`SendRuns`); what a receiver refuses, and that its peer hears why
  (`Refusals`).
* **Handshake.** Agreement of both sides on the whole exchange under any wire behaviour
  (`Agreement`); completion of every admissible honest exchange (`Completion`), and from configuration,
  clocks and caches alone exactly which full and which resumed runs finish, and what both ends report
  when they do not (`Configured`); identities and keys along chains of resumptions (`Resumption`); what a responder's policy lets it sign, and that runs
  sharing a replay cache never serve a first frame twice (`Admission`, `Replay`); single use of
  resumption keys by runs sharing a store (`PskStores`, `SingleUse`).
* **Wire format.** Every tree built with the typed writers, in any order of writes, reads back, but for the
  records of inline lists whose elements the reader steps past (`TreeBuild`); every pointer the raw builder
  sets, forwards or backwards, is followed to its target (`Pointers`); where each value stands on the wire
  (`Layouts`); what readers return from any message that parses is inside it, with the exact condition
  for inline elements (`WireReader`); a reused builder produces a fresh builder's bytes but for the flag
  word (`BuilderReuse`); inline lists round-trip exactly when their elements stand where the reader looks,
  at every depth of a message (`InlineLists`, `InlineMessages`); the layout check of the code generator,
  with the exact schemas for which it decides what it is for, and the constructors and `Wrap`s it emits, of
  messages and of elements, with lists and nested objects (`Codegen`).
* **Node.** Answers never cross between calls, exactly as long as the ends send nothing without a header
  that could be taken for a call frame (`Rpc`); an answered call returns its answer in every interleaving that
  leaves it alone, and the pending table holds exactly the open calls (`Calls`); buffer counts equal holders and pooled slabs have none, in
  exactly the runs in which calls on a message do not outrun its references; a buffer goes back to its
  pool exactly when its message was not retained (`BufPool`).
* **Allocator and calldata.** Budget and ownership of the unified-memory pool, in exactly the runs in
  which no two releases of a buffer race (`Uma`); the ABI encoders decode back, with the exact ranges in
  which they do (`Calldata`).

How it is modelled. Objects whose methods change fields are classes whose methods are proved against
functions on values; theorems about runs are lemmas over those functions. Concurrent code is a state
machine over its atomic steps, with every interleaving a sequence of steps; each load and each store of
a shared field that no lock guards is a step of its own. Clocks, randomness and the outcome of each
transport write are parameters. Cryptographic primitives are function values in
`Primitives.Crypto`; nothing is assumed of them except in a theorem's own `requires`: correctness
(opening undoes sealing, the two ends of an exchange agree), freedom from collisions of hash and key
expansion among the inputs of the runs at hand, and unforgeability of the very messages and ciphertexts
those runs accept.

Where the code does less than a reader might expect, the exact condition is proved:

* a key and nonce are used twice in a session if and only if an end seals again, in the same epoch, after
  a `Send` that sealed and failed (`NonceUse.SessionNoncesFresh`);
* a `Send` stays in its epoch if and only if one more frame keeps it under 2^31 frames, 100 GiB and one hour
  (`SendRuns.SendStaysIff`);
* an honest full handshake completes if and only if suite, schemes, mode, expected key, clocks and replay cache
  fit (`Configured.CompletesIff`), and a resumption if and only if suite, mode, clocks, cache and store do
  (`Configured.ResumesIff`);
* a first handshake frame can pass the replay gate twice if and only if its timestamp lies where 64-bit
  arithmetic gives it two windows (`Replay.PassesOnceIffUnwrapped`);
* a message sent without a correlation header is taken for a call frame if and only if its flag word is
  zero (`Rpc.PlainMisreadIffNoFlags`), and for one with a message in it if and only if also its root
  offset, size and sixth word make a second header (`Rpc.PlainIff`); answers cross in no run if and only
  if none of the messages sent without a header is such (`Rpc.NeverCrossIff`), as no message of `Build` is;
* an inline list reads back for all contents if and only if it has at most one element, or its stride is
  divisible by 8 and no element but the last leaves more than its stride (`InlineLists.InlineRoundTrip`,
  `InlineMessages.InlineListExact`);
* a list the code generator puts inline is found as written if and only if it has at most one element, or 8
  divides their size, or all elements but the first are zero; the generator does not look at the size
  (`Codegen.EmittedListExact`);
* an element of a list read without a stride lies inside the message if and only if the caller's element
  size puts its end there (`WireReader.InlineElementInsideIff`);
* the layout check accepts exactly the well-laid-out schemas with the given field names, whatever their
  other parts, if and only if every field but the last has a name (`Codegen.NamesExact`); for a payload
  of no bytes it accepts exactly the schemas whose every field ends past the 64-bit range, and it indexes
  out of range exactly for the schemas `Codegen.Panics` describes (`Codegen.EmitCheck`);
* a reset builder finished without flags equals a fresh one if and only if its old flag word is zero
  (`BuilderReuse.ReusedLikeFresh`);
* swap and liquidity calldata decode to their inputs if and only if ticks and tick spacing fit 24 signed
  bits and the fee 24 unsigned ones (`Calldata.SwapDecodesExactly`, `Calldata.ModifyDecodesExactly`);
* a released message's header and slab go back to their pools if and only if `Retain` was never called on
  it (`BufPool.ReturnedIffNotRetained`), and if not then never (`BufPool.KeptForGood`);
* overlapping calls of `Retain` and `Release` on one message are safe if and only if at every point those
  past their load have a reference each, and no `Release` is while a `Retain` is between its test and its
  load (`BufPool.SafeExactlyWhenCovered`), and overlapping `Release`s of one unified-memory buffer if and
  only if one of them at most finds it unreleased (`Uma.SafeExactlyWhenCovered`).

## Model

| member | source | states |
|---|---|---|
| `Delivery.DeliveredInOrder` | handshake/session.go:193-272 | for every byte stream fed to successive `Recv` calls, with an AEAD that opens only what one of the two ends sealed, the payloads returned are those of strictly later and later `Send` calls of the peer; reflected frames never open |
| `Delivery.CallsAreFrames` | handshake/session.go:203-234 | the payloads of successive `Recv` calls are those of the frames in the stream taken one at a time |
| `Delivery.OpenedRising` | handshake/session.go:244-270 | accepted records rise strictly in (epoch, counter), whatever frames arrive |
| `Delivery.FrameFromPeer` | handshake/session.go:259-268 | a record that opens was sealed by the peer, at the same epoch and counter, with the same payload; the direction byte rules out the receiver's own frames |
| `NonceUse.SessionNoncesFresh` | handshake/session.go:70-184 | in every run of `Send` and `Rekey` at both ends of a session, whose key expansion has no collision among the session's own keys: no (key, nonce) pair is used twice, in any epochs and either direction, if and only if neither end seals in an epoch after a `Send` there that sealed and failed |
| `NonceUse.NoncesFresh` | handshake/session.go:170-184 | the same for one direction from any point of its key chain |
| `NonceUse.DirectionsApart` | handshake/session.go:94-110 | the two directions never share a key and nonce |
| `NonceUse.KeysDistinct` | handshake/kdf.go:57-144 | the keys of a session are equal exactly for the same direction and epoch |
| `NonceUse.DerivationsApart` | handshake/kdf.go:44-121 | two derivations that give one session key are the same derivation, of the same kind, digest and secrets |
| `SendRuns.SendsBounded` | handshake/session.go:289-300 | every sealed counter is below 2^31 - 1 and at most 256 * (2^31 - 1) sends succeed, over any run |
| `SendRuns.EpochLimits` | handshake/session.go:157-185 | at every seal the frame, byte and time limits of the epoch hold, after the automatic rekey when one was due |
| `SendRuns.SendStaysIff` | handshake/session.go:157-162 | a Send stays in its epoch, with at most its DATA frame, if and only if the frame keeps the epoch under 2^31 frames, 100 GiB and one hour; else it sends REKEY first and opens the next epoch, or fails unchanged when there is none or the transport refuses |
| `SendRuns.SendSucceedsIff` | handshake/session.go:145-185 | a Send succeeds if and only if the frame is at most 16 MiB, the transport takes what is written, and the limits allow the frame or there is a next epoch; then its last frame opens to the payload |
| `SendRuns.EmitExactly` | handshake/session.go:163-185 | the sealing half: one DATA frame and the counts moved, or the error for a frame too large or a failed write, with nothing changed |
| `SendRuns.RekeySucceedsIff` | handshake/session.go:280-326 | a Rekey succeeds if and only if the epoch is below 255 and the transport takes the frame, and starts counters and clock anew |
| `SendRuns.EpochLasts` | handshake/session.go:145-185 | until an epoch's frames, bytes or hour are used up, every Send of a run is exactly one DATA frame of that epoch |
| `SendRuns.UsesOrdered` | handshake/session.go:145-185 | successive seals never step back in (epoch, counter), step forward after a success, and share key and salt within an epoch |
| `SendRuns.FailureRepeats` | handshake/session.go:178-184 | a failed seal followed in its epoch is followed at its own counter |
| `Link.EveryRunFaithful` | handshake/session.go:145-346 | over a faithful byte channel, every interleaving of `Send`, `Rekey` and `Recv` at both ends, every arrival in pieces: records opened are a prefix of records sealed with the same key, nonce, epoch and associated data, no failure, no ALERT, nothing missing once the wire is empty |
| `Link.OpFlows` | handshake/session.go:302-346 | whatever a sending call writes, an in-sync receiver follows it and is in sync again |
| `Link.RecvFlows` | handshake/session.go:193-235 | one `Recv` on any prefix of a wire of whole frames takes whole frames off its front and refuses none |
| `PqConn.ReadsArePrefix` | conn_pq.go:51-86 | in every run, whatever the chunk and read sizes, bytes read are a prefix of bytes sent, no `Read` fails, and all bytes are read once wire and buffer are empty |
| `PqConn.WriteIsSends` | conn_pq.go:70-86 | a `Write` is one `Send` per chunk up to the first failure, and the count it returns is exactly the prefix of the argument that was sent |
| `PqConn.WriteCuts` | conn_pq.go:70-86 | into records of 65536 bytes, but for the last; a Write that succeeds makes as few Sends as that takes |
| `PqConn.WriteSucceeds` | conn_pq.go:70-86 | over a working transport, while the epoch lasts, all of the argument goes out, one DATA frame for each record |
| `PqConn.FreshSessionLasts` | handshake/session.go:70-143 | a new session's first hour of Sends, up to the limits, goes out one frame each, in epoch 0 |
| `PqConn.Stream.Read` | conn_pq.go:51-68 | the result is taken from the front of the buffered payload, or of the next payload when the buffer is empty, and the rest stays buffered; a failure writes its ALERT and returns the session's error; a closed session fails and leaves everything as it was |
| `PqConn.Stream.Write` | conn_pq.go:70-86 | session state, output bytes, count and error are those of the chunked sends |
| `Sessions.NewSession` | handshake/session.go:70-136 | a session in its first epoch for either role, and an error for any other role byte |
| `Sessions.RolesMirror` | handshake/session.go:94-110 | what each role sends under, the other receives under: key, salt, epoch and direction byte |
| `Sessions.Session.Send` | handshake/session.go:145-185 | new sender state, bytes written and error are those of the specification, with an automatic rekey first exactly when due (`SendStaysIff`); a closed session fails unchanged |
| `Sessions.Session.Emit` | handshake/session.go:163-184 | sealing and writing; counter and byte count move only after a successful write |
| `Sessions.Session.Rekey` | handshake/session.go:280-287 | the ratchet step, or the exhausted-epoch or write error, as specified |
| `Sessions.Session.RekeyLocal` | handshake/session.go:302-326 | one REKEY frame, next key and salt, epoch plus one, counter and bytes zero |
| `Sessions.Session.HandleData` | handshake/session.go:237-272 | every refusal and the acceptance of a DATA frame, with the state each leaves |
| `Sessions.Session.RekeyRemote` | handshake/session.go:328-346 | the receiver's ratchet step, refused at epoch 255 |
| `Sessions.Session.Accept` | handshake/session.go:208-233 | what each frame type does to the receive state, with the ALERT it is answered by |
| `Sessions.Session.Recv` | handshake/session.go:193-235 | the receive loop absorbs REKEYs until a payload, a failure or the end of input |
| `Refusals.RefusalTold` | handshake/session.go:193-235 | a refused frame leaves the receiver as it was, and unless it was an ALERT is answered with one on which the peer's Recv fails for the same reason |
| `Refusals.DataExactly` | handshake/session.go:237-272 | a DATA frame is delivered if and only if its counter is new and below 2^31 and its ciphertext opens under key, nonce and associated data; else the failure is the one named |
| `Refusals.DeliveredOnce` | handshake/session.go:245-252 | after a delivery every DATA frame with that counter or a lower one is refused |
| `Refusals.RekeyExactly` | handshake/session.go:328-345 | a one-byte REKEY opens the next epoch with nothing received in it, or fails at epoch 255; any other body is refused |
| `Refusals.TooLargeFails` | handshake/frames.go:425-443 | a frame said to be over 16 MiB fails Recv past its header, without an ALERT |
| `Refusals.AadBinds` | handshake/session.go:439-450 | the associated data determines frame type, length, direction and epoch |
| `Sessions.Session.Close` | handshake/session.go:372-400 | closing zeroes both keys and both salts once and is idempotent |
| `Sessions.Conn.Write` | handshake/frames.go:361-374 | one envelope appended, or an error and nothing written |
| `Sessions.Conn.Read` | handshake/frames.go:425-442 | one envelope taken, or an error |
| `Frames.ReadHello` | handshake/frames.go:63-113 | the decoder with its loops accepts and returns what the specification does |
| `Frames.HelloRoundTrip` | handshake/frames.go:30-113 | decoding an encoded HELLO returns it, refused only when the suite is not offered |
| `Layouts.HelloBytes` | handshake/frames.go:30-60 | the position of every HELLO field |
| `Layouts.HelloPskBytes` | handshake/frames.go:311-322 | the position of every HELLO_PSK field |
| `Layouts.ExchangeBytes` | handshake/frames.go:122-194 | the positions of the parts of KEM_INIT, KEM_REPLY and AUTH |
| `Layouts.RecordBytes` | handshake/frames.go:221-381 | the positions of the parts of DATA, ALERT and the envelope |
| `Layouts.HashedBytes` | handshake/transcript.go:58-72 | what the first digest and the signature cover, byte by byte |
| `Frames.HelloCanonical` | handshake/frames.go:63-113 | only encodings of valid HELLOs decode |
| `Frames.KemInitRoundTrip` | handshake/frames.go:122-138 | KEM_INIT round trip |
| `Frames.KemInitCanonical` | handshake/frames.go:129-138 | only encodings of KEM_INIT decode |
| `Frames.KemReplyRoundTrip` | handshake/frames.go:148-174 | KEM_REPLY round trip |
| `Frames.KemReplyCanonical` | handshake/frames.go:160-174 | only encodings of KEM_REPLY decode |
| `Frames.AuthRoundTrip` | handshake/frames.go:183-212 | AUTH encodes to exactly the bytes that decode to it |
| `Frames.HelloPskRoundTrip` | handshake/frames.go:311-343 | HELLO_PSK round trip |
| `Frames.HelloPskCanonical` | handshake/frames.go:324-343 | only encodings of HELLO_PSK decode |
| `Frames.DataRoundTrip` | handshake/frames.go:221-246 | DATA round trip |
| `Frames.DataCanonical` | handshake/frames.go:233-246 | only encodings of DATA decode |
| `Frames.AlertRoundTrip` | handshake/errors.go:87-142 | the reader of an ALERT names the failure its writer met, or a decode failure when the failure has no code |
| `Frames.EnvelopeRoundTrip` | handshake/frames.go:361-442 | a written envelope reads back and leaves the rest of the stream |
| `Frames.PartialFrame` | handshake/frames.go:425-442 | a partly arrived frame is not readable, a wholly arrived one is |
| `Frames.StreamRoundTrip` | handshake/frames.go:361-442 | a stream of envelopes reads back as the frames written, in order |
| `Primitives.IkmInjective` | handshake/kdf.go:87-121 | keying material determines its secrets, and that of a full handshake is never that of a resumption |
| `Primitives.KeysBind` | handshake/kdf.go:57-121 | without collisions of extraction and expansion among two derivations, a traffic or resumption key they share means the same kind of handshake, digest, X25519 secret and KEM or resumption secret, and the same one of the keys |
| `Primitives.OutputsApart` | handshake/kdf.go:57-121 | the five outputs of a handshake are five different expansions: no salt is part of a key |
| `Primitives.RatchetApart` | handshake/kdf.go:135-144 | so are key and salt of a ratchet step, and those of different steps |
| `Primitives.ExpandLabelsDistinct` | handshake/kdf.go:57-81 | the five outputs of a derivation are expanded under five different labels |
| `Primitives.RatchetInfosDistinct` | handshake/kdf.go:135-144 | each epoch and each of the two outputs of the ratchet has its own info string |
| `Primitives.RequirementsConsistent` | handshake/kdf.go:44-81 | the correctness requirements placed on the primitives can be met all at once |
| `NonceUse.ApartConsistent` | handshake/kdf.go:57-144 | so can they together with the freedom from collisions asked of the key expansion |
| `Transcripts.Transcript.AbsorbHello` | handshake/transcript.go:58-66 | the first digest covers protocol label, suite and HELLO |
| `Transcripts.Transcript.AbsorbKem` | handshake/transcript.go:74-81 | the second digest covers the first, KEM_INIT and KEM_REPLY |
| `Transcripts.Transcript.FinishFull` | handshake/transcript.go:92-107 | the last digest covers the second, both static keys and the offered schemes |
| `Transcripts.Transcript.FinishPsk` | handshake/transcript.go:116-123 | the resumption digest covers the first and the responder's ephemeral |
| `Transcripts.EqualDigests` | handshake/transcript.go:58-107 | without collisions among the two runs' own inputs, equal H_2 means the same suite, HELLO, KEM_INIT, KEM_REPLY, keys and schemes |
| `Transcripts.EqualPskDigests` | handshake/transcript.go:116-126 | the same for a resumption: suite, HELLO_PSK and the responder's share |
| `Transcripts.SignInputInjective` | handshake/identity.go:158-175 | the signed string determines H_2, role and suite |
| `Agreement.InitiatorAgrees` | handshake/initiator.go:112-268 | an initiator pinned to an honest identity that has verified its peer has a partner: a responder run of that identity that signed byte-identical HELLO, KEM_INIT and KEM_REPLY, with the same H_2 and secrets, and the same session keys when both finish |
| `Agreement.ResponderAgrees` | handshake/responder.go:117-282 | a responder that finishes with an honest initiator's key has a partner: an initiator run of that key that had verified this responder and signed the same exchange |
| `Agreement.InitSigns` | handshake/initiator.go:169-268 | what a signing initiator has checked, and the keys and peer identity it ends with |
| `Agreement.RespSigns` | handshake/responder.go:161-282 | what a signing responder has answered, and what it has verified when it ends |
| `Agreement.SameSecrets` | handshake/responder.go:171-209 | two ends that share the transcript share both secrets |
| `Agreement.NotOwnRole` | handshake/identity.go:82-107 | no signature made as initiator serves as a responder's |
| `Agreement.NotOtherRole` | handshake/identity.go:82-107 | no signature made as responder serves as an initiator's |
| `Completion.HandshakeCompletes` | handshake/initiator.go:112-268 | every admissible honest setting completes: both runs finish as partners, and each one's input is exactly the other's output |
| `Completion.HonestRunsQualify` | handshake/responder.go:228-262 | honest runs meet the signature hypotheses of both agreement theorems |
| `Completion.ExpectOther` | handshake/frames.go:447-463 | a frame out of turn ends the run with a decode error, without an ALERT |
| `Configured.HelloSays` | handshake/initiator.go:112-136 | the HELLO carries the clock, the run's random, the own key and its hash, and suite, schemes and mode as configured or by default |
| `Configured.HelloPskSays` | handshake/initiator.go:272-300 | the same for HELLO_PSK, with the cached key's id and the fresh X25519 share |
| `Configured.CompletesIff` | handshake/initiator.go:60-268 | an honest full exchange, between clocks after 1970 and coins for which the primitives work, finishes at both ends if and only if: the suite is the default or 1 and accepted; the schemes are the default or a list with 1 that fits a frame, and for a strict responder nothing else; the expected key is absent or right; a strict responder has a replay cache and meets a strict or non-classical initiator; and with a cache, clocks are at most 30 seconds apart and the cache has room and not the key. Then the runs are partners |
| `Configured.RefusalHeard` | handshake/responder.go:117-190 | a refused HELLO ends both runs for the same reason, unsupported suite, downgrade or replay, in that order, with one ALERT between them |
| `Configured.WrongKeyHeard` | handshake/initiator.go:196-215 | an unexpected responder key ends both runs with an identity mismatch, the initiator's ALERT between them |
| `Configured.ResumesIff` | handshake/initiator.go:272-381 | an honest resumption finishes at both ends if and only if the suite is accepted, the mode admitted, the clocks and the replay cache fit, and the store holds the key unexpired; with the same key at both ends they end with one set of session keys and the identities they had |
| `Configured.ResumeRefusalHeard` | handshake/responder.go:286-340 | a refused resumption ends both runs for the same reason, one ALERT between them |
| `Configured.KeyResumesForAnHour` | handshake/psk.go:50-145 | after any full handshake over a faithful channel, the key the initiator's session caches resumes for an hour at both ends' clocks, while both keep it |
| `Admission.SignsOnlyAdmitted` | handshake/responder.go:117-159 | a responder signs only for a HELLO its suite and profile policy admits and whose client id is the digest of the presented key, and records that id |
| `Admission.RunIsOp` | handshake/responder.go:139-148 | a whole run is one operation on the replay cache and serves only when that operation admits its first frame |
| `Admission.NoFirstFrameServedTwice` | handshake/responder.go:141-148 | any number of full or resumed runs sharing one cache and a non-decreasing clock: no first frame with an unwrapped timestamp is served by two |
| `Resumption.FullHandshakeAgrees` | handshake/responder.go:117-282 | over a faithful channel both ends of a finished full handshake are partners, and one key is issued to the initiator's identity |
| `Resumption.ResumptionAgrees` | handshake/initiator.go:272-377 | over a faithful channel a finished resumption gives both ends one set of keys; each end keeps the identity it had stored |
| `Resumption.ChainsKeepIdentities` | handshake/responder.go:286-375 | along every chain of resumptions, with other traffic on the store in between, keys agree, recorded identities stay those verified in the first handshake, and each key is gone from the store after the resumption that used it |
| `SingleUse.RunIsOps` | handshake/responder.go:286-375 | a whole responder run is at most one Redeem and then at most one Issue on the store; a resumption that finishes redeemed the key it asked for, unexpired, and its peer is the one stored with it |
| `SingleUse.UninterruptedIsRun` | handshake/responder.go:286-375 | a run whose two store operations nothing comes between leaves the store a whole run leaves |
| `SingleUse.KeyResumedOnce` | handshake/responder.go:286-375 | any number of full or resumed runs at once, in every interleaving of their operations on a shared store with each other and with others: a run that resumes from a key got it from an earlier Issue, in its lifetime and for its owner, and no run since that Issue has resumed from it |
| `HandshakeRuns.ExpectFrame` | handshake/frames.go:447-463 | the wanted frame, or the error an ALERT or another frame stands for |
| `HandshakeRuns.MakeView` | handshake/initiator.go:174-220 | every check between KEM_REPLY and the responder's AUTH, and the transcript digest |
| `HandshakeRuns.VerifyAuth` | handshake/identity.go:139-156 | the peer's AUTH is accepted if and only if its body is the expected role byte and a signature that verifies, under the peer's key, over the string of the own transcript digest, role and suite |
| `HandshakeRuns.SignAuth` | handshake/identity.go:91-107 | when signing is correct, the peer that shares the transcript accepts the body made here |
| `HandshakeRuns.InitiateFull` | handshake/initiator.go:112-268 | frames written, input consumed and result of a full initiator run |
| `HandshakeRuns.InitiateAuth` | handshake/initiator.go:169-268 | the second half of that run, with the ALERT each failure calls for |
| `HandshakeRuns.InitiateResume` | handshake/initiator.go:272-377 | the same for a resumed run |
| `HandshakeRuns.FinishResume` | handshake/initiator.go:327-376 | what each reply to HELLO_PSK leads to |
| `HandshakeRuns.Initiate` | handshake/initiator.go:60-108 | defaults, magic, choice of full or resumed run, and the session opened |
| `HandshakeRuns.AcceptSuite` | handshake/responder.go:379-392 | the allowlist search |
| `HandshakeRuns.PassGate` | handshake/responder.go:141-148 | timestamp first, then the cache |
| `HandshakeRuns.AdmitHello` | handshake/responder.go:117-159 | every check on a HELLO in order, and the cache after it |
| `HandshakeRuns.MakeReply` | handshake/responder.go:161-222 | when the exchange is correct, every initiator whose KEM_INIT this is gets the two secrets of this side out of the reply |
| `HandshakeRuns.RespondFull` | handshake/responder.go:117-282 | frames written, input consumed, cache, store and result of a full responder run |
| `HandshakeRuns.RespondAuth` | handshake/responder.go:224-282 | from KEM_REPLY to the issued key |
| `HandshakeRuns.AdmitHelloPsk` | handshake/responder.go:286-325 | every check on a HELLO_PSK, cache and store after it |
| `HandshakeRuns.RespondResume` | handshake/responder.go:286-375 | the resumed responder run |
| `HandshakeRuns.Respond` | handshake/responder.go:53-113 | magic, first frame, run and session opened |
| `PskStores.PskStore.Issue` | handshake/psk.go:50-61 | the entry stored under the key's id |
| `PskStores.PskStore.Redeem` | handshake/psk.go:70-86 | a hit is returned once and consumed, an expired entry only consumed |
| `PskStores.PskStore.Sweep` | handshake/psk.go:91-100 | exactly the expired entries go |
| `PskStores.RedeemedAtMostOnce` | handshake/psk.go:50-86 | every redemption returns what one earlier Issue stored, in its lifetime, and no two come from the same Issue |
| `PskStores.RedeemsExactly` | handshake/psk.go:70-100 | with a clock that does not go back, a Redeem hits if and only if an untouched Issue of the id is unexpired |
| `PskStores.SweepUnseen` | handshake/psk.go:91-100 | a sweep changes no Redeem, then or later, and leaves nothing a Redeem would then refuse |
| `Replay.ReplayCache.SeenOrAdd` | handshake/replay.go:74-105 | rotation, lookup in both generations, cap, insertion |
| `Replay.ReplayCache.Sweep` | handshake/replay.go:128-137 | rotation only |
| `Replay.CheckTimestamp` | handshake/replay.go:109-122 | accepts exactly the timestamps within 30 s of the clock modulo 2^64, and the one half the range away |
| `Replay.RunRefines` | handshake/replay.go:74-137 | under any mix of operations the two generations stand for a plain timestamped log |
| `Replay.RememberedForTtl` | handshake/replay.go:67-105 | a key let in at time t is refused by every later operation up to and including t + ttl |
| `Replay.RefusalExplained` | handshake/replay.go:90-101 | a refused key was let in before, or the generation is full |
| `Replay.ForgottenAfterTwo` | handshake/replay.go:74-105 | a key is let in again, if there is room, once the cache has been looked at a lifetime after it was let in and again a lifetime after that |
| `Replay.GenerationsBounded` | handshake/replay.go:97-103 | no generation exceeds its cap |
| `Replay.NoFramePassesTwice` | handshake/responder.go:141-148 | with a non-decreasing clock no HELLO or HELLO_PSK with an unwrapped timestamp passes the gate twice |
| `Replay.WrappedPassesTwice` | handshake/replay.go:109-122 | for every wrapped timestamp a run in which the frame passes twice |
| `Replay.PassesOnceIffUnwrapped` | handshake/replay.go:109-122 | a first frame is safe from passing twice in all runs if and only if its timestamp does not wrap |
| `WireBuilder.Builder.constructor` | builder.go:34-46 | header with magic and version, the rest zero |
| `WireBuilder.Builder.Reset` | builder.go:49-52 | back to the header, which stays as it is |
| `WireBuilder.Builder.Grow` | builder.go:55-66 | room for n more bytes, contents kept |
| `WireBuilder.Builder.Align` | builder.go:69-76 | zero padding to the alignment |
| `WireBuilder.Builder.StartObject` | builder.go:109-118 | an aligned, zeroed object at the returned position |
| `WireBuilder.Builder.SetFixed` | builder.go:130-151 | the bytes of one field change and no others |
| `WireBuilder.Builder.SetBytesFixed` | builder.go:197-203 | a fixed-width byte field |
| `WireBuilder.Builder.SetBytes` | builder.go:212-231 | data appended and the field patched with relative offset and length, empty data leaving zeros; a slot past the written bytes is stored in the spare buffer, and the store panics exactly when it is past the buffer |
| `WireBuilder.Builder.Patch` | builder.go:227-230 | a store at a position of the buffer changes those written bytes it covers and no others |
| `WireBuilder.Builder.SetObject` | builder.go:234-245 | the signed relative pointer, or zeros for null |
| `WireBuilder.Builder.SetList` | builder.go:248-260 | pointer and length of a list |
| `WireBuilder.Builder.EnsureField` | builder.go:262-272 | the object's bytes exist and are zero up to the field's end |
| `WireBuilder.Builder.AddObjectPtr` | builder.go:395-405 | one more signed relative pointer in a list |
| `WireBuilder.Builder.WriteBytes` | builder.go:312-322 | raw data at the returned position |
| `WireBuilder.Builder.FinishAsRoot` | builder.go:305-309 | the root offset is the object's |
| `WireBuilder.Builder.Finish` | builder.go:79-85 | header with root offset and size, then the contents |
| `WireBuilder.Builder.FinishWithFlags` | builder.go:88-91 | the same with the flag word set |
| `BuilderReuse.ReusedLikeFresh` | builder.go:49-91 | the same operations on a fresh and on a reset builder return the same offsets and bytes everywhere but the flag word, the whole frame under FinishWithFlags, and under Finish if and only if the old flag word is zero |
| `BuilderReuse.ClipInside` | builder.go:212-231 | a bytes slot inside what is written is set as the plain specification sets it |
| `BuilderReuse.ApplyAll` | builder.go:109-309 | any sequence of builder operations on objects past the header has the effect of its specification, unless a bytes slot ends past the buffer, which panics; none does that ends inside what is written once its data is |
| `BuilderReuse.ResetAndBuild` | builder.go:412-430 | after Reset any builder of the version, finished with flags, returns a fresh builder's offsets and frame, unless a bytes slot past the buffer panics |
| `WireReader.Parse` | zap.go:120-144 | the message is a prefix of the input whose length is its size field |
| `WireReader.ParseAccepts` | zap.go:120-144 | accepted exactly when the input begins with a complete well-headed message |
| `WireReader.BytesSpan` | zap.go:414-445 | data outside the header and inside the message |
| `WireReader.ObjectAt` | zap.go:461-478 | objects inside the message, never the header; which pointers are followed is `Pointers.ObjectSet` |
| `Pointers.ObjectSet` | zap.go:461-478 | an object field set to any object of the message within 2^31 bytes, before it or behind, reads as that object, and as null exactly when that is the field itself |
| `Pointers.ObjectUnset` | builder.go:234-246 | a field set to 0 reads as null |
| `Pointers.ListSet` | zap.go:488-575 | a list field reads as the list it was set to, before it or behind, without a stride exactly when its length is at most the message's, with one exactly when its elements fit |
| `Pointers.ListUnset` | builder.go:248-260 | a list field set to offset 0 or length 0 reads as null |
| `Pointers.PointerAdded` | zap.go:657-674 | an appended element pointer leads to its object |
| `Pointers.NullAdded` | builder.go:395-405 | and a null one nowhere |
| `Pointers.ScalarSet` | zap.go:309-343 | a scalar reads as it was set |
| `Pointers.PointerKept` | builder.go:234-260 | later writes that leave the slot alone leave what it leads to |
| `WireReader.ListAt` | zap.go:488-519 | lists inside the message, with a length the message can hold |
| `WireReader.ListStride` | zap.go:540-574 | every element of a granted list lies inside the message |
| `WireReader.ListStrideIsList` | zap.go:540-574 | a list granted for a stride is the list granted without one |
| `WireReader.ObjectPtr` | zap.go:657-674 | an element pointer leads inside the message |
| `WireReader.ChainsStayInside` | zap.go:309-682 | along every chain of accessors from the root of a message that parses: an object reached by a pointer and every list start inside the message past the header; every scalar and byte read from an object or list is a slice of the input inside the message, or nothing |
| `WireReader.InlineElementInsideIff` | zap.go:640-647 | an inline element is inside the message if and only if the end the caller's element size gives it is |
| `WireReader.StrideElementInside` | zap.go:540-574 | a list granted for a stride has each element, at that stride, wholly inside |
| `WireReader.InlineElementLeaves` | zap.go:640-647 | without a stride, the second element starts as far out as the element size says |
| `WireReader.ElementOffsetExact` | zap.go:640-647 | the offset computed in 64 bits is the element's if and only if that is below 2^63 |
| `WireReader.ElementWraps` | zap.go:640-647 | an element size and index for which it is below the list's own start |
| `TreeWriting.ExecCorrect` | v1/nested.go:85-100 | running any write program on a zeroed object leaves an encoding of its meaning and changes nothing before it; of an inline list out of stride the meaning is the payloads a reader finds |
| `TreeWriting.WriteKeeps` | v1/field.go:174-217 | any write changes its own slot and what it appends, and nothing else |
| `TreeWriting.ListCorrect` | v1/list.go:264-315 | an inline list leaves at every stride what its elements leave there on their own, and their records if it is in stride, and nothing else changes but its field |
| `TreeWriting.ReadEncoded` | v1/nested.go:41-68 | what is read from an encoded object agrees with the record it encodes, to any depth: equal in all but the records of inline lists out of stride |
| `TreeWriting.ChildrenCorrect` | v1/list_nested.go:137-179 | after a nested list is written its field leads to the pointer array, whose slots lead to the encoded elements in order, and nothing written before has changed but the field |
| `TreeWriting.ListPatched` | builder.go:248-260 | a list field holds the relative offset of its target and the length, and nothing else changes |
| `TreeBuild.RunProgram` | v1/field.go:174-217 | the builder after a program of writes is the specified one, across all growths |
| `TreeBuild.WriteNested` | v1/nested.go:85-100 | the child is built after the parent and the parent's field patched |
| `TreeBuild.WriteListNested` | v1/list_nested.go:137-160 | elements, then their pointer array, then the parent's field |
| `TreeBuild.AppendElem` | v1/list_nested.go:174-179 | one element built, its position recorded |
| `TreeBuild.WriteList` | v1/list.go:264-286 | the elements, whatever their closures write, then the parent's field |
| `TreeBuild.AppendElems` | v1/list.go:303-315 | each element built in turn, its position recorded |
| `TreeBuild.AddPointers` | v1/list_nested.go:151-158 | the aligned array of pointers to the elements |
| `TreeBuild.Build` | v1/view.go:370-380 | the frame of a top-level message |
| `TreeBuild.BuildWraps` | v1/view.go:279-380 | every built frame below 2^31 bytes wraps, and past the header is what was written |
| `TreeBuild.ParseFinished` | builder.go:79-85 | Parse accepts a finished frame, whole |
| `TreeBuild.PointersFinished` | builder.go:79-85 | finished and parsed, every object and list pointer leads where it led before |
| `TreeBuild.LinkedObject` | builder.go:234-246 | set, finished and parsed, an object field is any object of the message it was set to, forwards or backwards, and so from the root |
| `TreeBuild.LinkedList` | builder.go:248-260 | and a list field any list |
| `TreeBuild.ElementLeads` | v1/list_nested.go:62-88 | a slot of a pointer array leads to its object, before it or behind, exactly when all of it is there |
| `TreeBuild.NullElementReads` | v1/list_nested.go:62-88 | a null slot reads as an element with every field at its default |
| `TreeBuild.FlagsFinished` | builder.go:88-92 | the flags a message is finished with are those it is read with |
| `TreeBuild.WrapsOnlyItself` | v1/view.go:279-320 | a built frame is refused by Wrap for any other kind, and for a size it does not have |
| `Layouts.HeaderBytes` | zap.go:16-27 | root offset and size stand little-endian at bytes 8 and 12, and Finish changes nothing else |
| `Layouts.FreshBytes` | builder.go:34-47 | a new message begins with the magic, its version and zeros |
| `TreeBuild.BuildThenAgree` | v1/list_nested.go:62-179 | every tree, with writes in any order and repeated, builds to a frame below 2^31 bytes that wraps, and what is read agrees at every depth with the last value written to each field: every fixed field, byte string, nested object and nested list, every payload of every inline list, and the records of those in stride |
| `TreeBuild.BuildThenRead` | v1/list_nested.go:62-179 | and if all inline lists are in stride, what is read is the last value written to each field |
| `InlineLists.All` | v1/list.go:81-107 | yields a view of each element in order, stops only at one that does not fit, and yields exactly the length when all fit |
| `InlineLists.Payloads` | v1/list.go:128-149 | yields exactly the payloads of the elements, in order |
| `InlineLists.Indexed` | v1/list.go:154-180 | yields each index with the view of its element, in order |
| `InlineLists.GrantedListsFit` | v1/list.go:191-212 | every element of a granted list lies inside the message |
| `InlineLists.HeldReads` | v1/list.go:51-233 | a list in step reads back element by element |
| `InlineLists.HeldFails` | v1/list.go:51-233 | after an element that displaces the next, by its tail or its padding, a list does not read back if the next begins with another byte than stands there |
| `InlineLists.InlineRoundTrip` | v1/list.go:51-315 | for elements that leave given numbers of bytes, all contents read back if and only if there is at most one, or the stride is divisible by 8 and no element but the last leaves more than its stride |
| `InlineLists.ListWritten` | v1/list.go:264-315 | a written list is where its slot says, each element aligned after all the one before it left, and nothing else changes |
| `InlineMessages.ListIsWritten` | v1/list.go:264-315 | an inline list of any object, written by the recursive writer, is the list of the bytes its elements leave on their own |
| `InlineMessages.InStrideIsInStep` | v1/list.go:303-315 | a list is in step exactly when it has at most one element, or its schema's size is divisible by 8 and no closure but the last appends anything |
| `InlineMessages.InlineListExact` | v1/list.go:51-315 | for an inline list at any depth of a message, of any object: if it is in step the reader finds each element's slot as its closure left it; if not, some element displaces the next, and the reader misses that one's slot once it begins with another byte than stands there |
| `InlineMessages.QuietListExact` | v1/list.go:51-315 | of elements that append nothing the reader finds every slot if and only if there is at most one, or 8 divides their size, or all but the first are zero |
| `Relocation.ElemsAnywhere` | v1/list.go:303-315 | the elements of a list, with all their closures append, leave the same bytes wherever in a message they are written |
| `Codegen.IsBytes` | v1/codegen/schema.go:181-198 | the width of a bytes type, accumulated in 64 bits |
| `Codegen.CheckBounds` | v1/codegen/emit.go:86-95 | every type known and every field inside the payload |
| `Codegen.ScalarBits` | v1/codegen/emit.go:45-65 | a numeric type has the width its name says in bits |
| `Codegen.MarkField` | v1/codegen/emit.go:105-115 | the owner array after a field, or, exactly when a byte inside has an owner, the overlap, or, exactly when none has and the field does not fit, the index out of range |
| `Codegen.EmitCheck` | v1/codegen/emit.go:83-116 | with a payload and every field but the last named, accepts exactly the schemas whose fields are known, inside the payload, pairwise disjoint and off the kind byte; without a payload, exactly those whose every field's end wraps round 64 bits; and which schemas make the owner array be indexed out of range |
| `Codegen.AcceptedIffWellLaid` | v1/codegen/emit.go:97-116 | the owner array decides disjointness when every field but the last is named |
| `Codegen.NamesExact` | v1/codegen/emit.go:97-116 | for given field names, every schema with a payload is decided rightly if and only if every name but the last is not empty |
| `Codegen.UnnamedOverlapAccepted` | v1/codegen/emit.go:109-113 | for any names with an empty one before the last, a schema of those names with two fields on one byte that passes |
| `Codegen.NoPayloadNoFields` | v1/codegen/emit.go:86-95 | a schema without a payload is well laid out only when it has no fields |
| `Codegen.EmptyPayloadAccepted` | v1/codegen/emit.go:86-95 | a schema without a payload, with a field whose end wraps round 64 bits, that passes and is not well laid out |
| `Codegen.AcceptedIsWellFormed` | v1/codegen/emit.go:83-116 | an accepted schema, of messages or of elements, has its slots inside the payload and apart, and of messages also off the kind byte |
| `Codegen.EmittedListExact` | v1/codegen/emit.go:239-376 | an emitted list of scalar-only elements, which is inline whatever their size, has every element found as written if and only if there is at most one, or 8 divides their size, or all but the first are zero |
| `Codegen.EmittedWrap` | v1/codegen/emit.go:401-436 | opens only views inside the frame, of the payload's size or, when the frame ends before that, up to its end |
| `Codegen.EmittedWrapIsWrap` | v1/codegen/emit.go:401-436 | for messages, opens the whole payload exactly when the generic Wrap accepts, with the same view |
| `Codegen.EmittedWrapPanics` | v1/codegen/emit.go:428-434 | its slice panics exactly on frames whose root is past their end, and only where no kind is compared or the kind is zero |
| `Codegen.ShorterReads` | v1/codegen/emit.go:428-434 | of a view cut short, a field that is there reads as its bytes and any other as zeros |
| `Codegen.ConstructedKind` | v1/codegen/emit.go:420-426 | a constructed message is refused by the emitted Wrap of any other kind |
| `Codegen.ConstructorReadsBack` | v1/codegen/emit.go:277-436 | for every accepted schema with a payload of at least one byte and every field but the last named, of messages (kind stamped and compared) or of elements (neither), the emitted constructor's frame below 2^31 bytes is opened whole by the emitted Wrap, and each field reads back its own argument, whether scalar, fixed bytes, string, bytes, list or nested object; an inline list of several elements whose size 8 does not divide has the slots of `EmittedListExact` |
| `Codegen.ListFieldForms` | v1/codegen/emit.go:362-376 | a list of elements with a string or bytes field reads back as an array of pointers, any other as an inline list |
| `Rpc.WrapRoundTrip` | node_codec.go:81-103 | the correlation header round trip |
| `Layouts.CorrelationBytes` | node_codec.go:81-90 | id and kind stand little-endian at bytes 0 and 4, the message behind them |
| `Rpc.PlainMisreadIffNoFlags` | node_codec.go:93-103 | a valid message without a header is taken for a call frame if and only if its flag word is zero |
| `Rpc.PlainIff` | node_codec.go:93-103 | and is safe to send if and only if its flag word is not zero or no second header begins at byte 8 |
| `Rpc.FlaggedOrRooted` | node_codec.go:93-103 | in particular with any flag, or any root offset but the magic |
| `Rpc.BuiltIsPlain` | v1/view.go:370-380 | every message of `Build` is safe to send |
| `Rpc.NestedIsNotPlain` | node_codec.go:93-103 | a valid message of each version that is not |
| `Rpc.Connection.Begin` | node.go:319-323 | the next request id and its call |
| `Rpc.Connection.Deliver` | node.go:545-557 | true exactly when a call is registered under the id and its slot is free, and then that call, and no other, has the message |
| `Rpc.Connection.Dispatch` | node.go:535-629 | one turn of the dispatch loop: responses routed, requests answered under their own id, the rest handled without a header (`Calls.PlainAnswered`) |
| `Rpc.AnswersNeverCross` | node.go:303-354 | in every interleaving of calls and dispatch loops at both ends, with frames reordered or repeated, fewer than 2^32 calls a side, and only safe messages sent without a header: every returned message is a handler's answer to that call's own request and no response reaches two calls |
| `Rpc.NeverCrossIff` | node.go:535-629 | for any set of valid messages the ends may send without a header: no run crosses answers if and only if all of them are safe |
| `Rpc.CrossingReached` | node.go:535-557 | the run in which one unsafe message, of either version, makes answers cross |
| `Calls.CallReturnsAnswer` | node.go:303-354 | in every interleaving at both ends in which a call is begun, registered, written, answered by the peer's dispatch loop, delivered by either receive loop and taken, and nothing else is done to it, it returns the message of that answer |
| `Calls.TableExact` | node.go:325-335 | in every interleaving the pending table holds exactly the calls that are registered and have not left |
| `Calls.EndsWithout` | node.go:331-353 | a call that times out, or could not be written, ends without a result and leaves no entry behind |
| `Calls.PlainAnswered` | node.go:599-629 | a valid message without a header is answered with exactly what its handler returned if it has a flag; without one, if safe to send, it is dropped |
| `Calls.PlainUnanswered` | node.go:599-629 | without an answer, or when it cannot be written, nothing is sent |
| `Calls.PostAnswered` | node.go:599-629 | over any run, the answer to a message sent without a header is the next frame of the answering end, and stays on the wire |
| `Calls.Delivers` | node.go:766-793 | both receive loops hand a response to the call that waits for it |
| `Calls.SecondDropped` | node.go:545-562 | a second response, and one to a call that has left, changes nothing |
| `BufPool.PickClass` | bufpool.go:69-86 | the smallest class that fits, or none |
| `BufPool.PoolsAreSafe` | bufpool.go:133-202 | in every interleaving of the loads, stores and counts of dispatch loops and of `Retain` and `Release` calls, overlapping ones included, that is covered: calls past their load have a reference each, and no `Release` is while a `Retain` is between its test and its load. Every count is the number of holders, a pooled slab or header is in its pool once with no holder, and no `Retain` meets a nil field |
| `BufPool.BuffersFit` | bufpool.go:133-154 | in every such run a slab is of the smallest class that holds what was asked for, and a loop about to read has one unless it reads more than 65536 bytes |
| `BufPool.UndeliveredReturned` | node.go:545-562 | in every such run a response given to no call is still with its loop or released by it once, and goes back to the pool |
| `BufPool.SafeExactlyWhenCovered` | zap.go:232-254 | after a covered run and one more step, every way to finish the calls under way is safe if and only if the state is still covered |
| `BufPool.OverlapReached` | zap.go:232-243 | a run, for each class, in which two `Release`s of one message overlap and the count falls below the holders |
| `BufPool.NilLoadReached` | zap.go:250-254 | a run, for each class, in which a `Release` clears the field between a `Retain`'s test and its load, which then meets nil |
| `BufPool.CalmRuns` | zap.go:232-254 | calls made one at a time on each message meet that condition, and of its `Release`s one counts down at most |
| `BufPool.DeliveredHeldOnce` | node.go:536-561 | a delivered response whose dispatch turn is over, neither retained nor released, has exactly one holder, the message, and is out of the pools |
| `BufPool.ReturnedIffNotRetained` | zap.go:232-254 | from the start, with calls made one at a time: once all calls on a released message have returned and the last holder has put back what it frees, header and slab are in their pools if and only if `Retain` was never called; after a `Retain` the header is in no pool and its slab in none |
| `BufPool.KeptForGood` | zap.go:232-254 | such a header and slab stay out of the pools in every covered continuation |
| `BufPool.LeakReached` | zap.go:232-254 | a run, for each class, of one `Retain` and then one `Release` that ends so |
| `Uma.ClassFor` | transport/uma_linux_cuda.go:165-172 | the smallest class that fits, or none |
| `Uma.Pool.Get` | transport/uma_linux_cuda.go:101-135 | the steps one call takes; it fails exactly when the free list is empty and the budget or the runtime refuses, and then leaves everything as it was |
| `Uma.Pool.Alloc` | transport/uma_linux_cuda.go:175-194 | a buffer of the smallest class that fits, one from the runtime above the largest, and none, with nothing changed, for a size of zero or less |
| `Uma.Pool.Grow` | transport/uma_linux_cuda.go:112-134 | reservation, allocation, rollback |
| `Uma.Pool.Release` | transport/uma_linux_cuda.go:197-274 | the steps of one uninterrupted call: nothing for a released buffer, else the pointer goes back to the slab of its size, or to the runtime, and the field is cleared |
| `Uma.ReleasedIsReused` | transport/uma_linux_cuda.go:101-142 | the pointer released last is the next one handed out from its class, from no more memory |
| `Uma.BudgetAndOwnership` | transport/uma_linux_cuda.go:101-274 | in every interleaving, failed allocations and overlapping `Release`s included, in which no two `Release`s of one buffer find it unreleased: reserved bytes are those of free and outstanding buffers plus reservations in flight and never exceed a nonzero cap, no pointer is in two places, each is allocated, and none is freed twice |
| `Uma.SafeExactlyWhenCovered` | transport/uma_linux_cuda.go:197-274 | after such a run and one more step, every way to go on without a new `Release` is safe if and only if no two `Release`s of one buffer have found it unreleased |
| `Uma.SingleReleasesSafe` | transport/uma_linux_cuda.go:267-274 | `Release` is idempotent, and all of this holds, when no `Release` tests the flag while another is between its test and its store |
| `Uma.RaceReached` | transport/uma_linux_cuda.go:267-274 | a run in which two `Release`s both pass the test |
| `Calldata.New256Neg` | dexsession/calldata.go:166-178 | the carry loop computes 2^256 - v for v > 0, and zero for zero |
| `Calldata.WordI24` | dexsession/calldata.go:131-143 | the sign-extended word is the two's complement value |
| `Calldata.WordI256FromInt64` | dexsession/v4liquidity.go:96-106 | the sign-extended word is the two's complement value |
| `Calldata.EncodeSwapCalldata` | dexsession/calldata.go:211-257 | selector, head words and dynamic bytes in place: whole words after the selector, as few as hold the hook data, which is followed by zeros only |
| `Calldata.EncodeModifyLiquidityCalldata` | dexsession/v4liquidity.go:65-92 | the same for modifyLiquidity |
| `Calldata.EncodeDynamicBytes` | dexsession/calldata.go:249-257 | length word, bytes, and zeros to the next word boundary |
| `Calldata.CalldataShape` | dexsession/calldata.go:211-257 | the same of all calldata, for any head |
| `Calldata.IntentRoundTrip` | dexsession/calldata.go:62-83 | deadline and nonce decode back |
| `Calldata.IntentShortest` | dexsession/calldata.go:55-83 | no shorter body decodes to the same deadline and nonce |
| `Calldata.SwapRoundTrip` | dexsession/calldata.go:211-257 | strict decoding by the Solidity Contract ABI Specification, zero padding to a whole word and no further bytes included, returns pool key (fee modulo 2^24), direction, negated amount and hook data, or rejects exactly when the tick spacing does not fit 24 bits |
| `Calldata.ModifyRoundTrip` | dexsession/v4liquidity.go:65-106 | the same for ticks, delta, salt and hook data |
| `Calldata.SwapDecodesExactly` | dexsession/calldata.go:211-257 | the swap arguments decode back unchanged if and only if tick spacing fits 24 signed bits and the fee is below 2^24 |
| `Calldata.ModifyDecodesExactly` | dexsession/v4liquidity.go:65-106 | the same for modifyLiquidity, with both ticks in 24 signed bits |

## Left out

- QUIC, TLS, mDNS, websocket, forwarding, MCP and the C transports: plumbing over libraries that are not modelled.
- Cryptographic internals: SHA3, HKDF, ML-DSA, ML-KEM, X25519 and AES-GCM are function values; key zeroisation is modelled only for `Close`.
- Failures of the random source, and the panic of AES-GCM on plaintexts of 64 GiB: coins are parameters and sealing is total.
- ALERT detail text: an ALERT is modelled with an empty detail.
- Partial transport writes: a write puts a whole frame on the wire or nothing.
- Clock: the clock reads of one call are one instant.
- Handshake deadlines and connection close hooks: they only end a run early.
- Identities without a private key: both sides refuse to run with one; every modelled side has its key.
- Frame-buffer reuse inside writeFrame and the NodeID handshake codec: they would add only easy members.
- BufPool: headers, slabs and messages are values in a state machine over the atomic steps, not heap objects; buffers above 64 KiB have no slab; the steps of a run are interleaved one after another, so the compiler's and the hardware's reordering of unsynchronised loads and stores is not modelled.
- Handler code that keeps a request message past its return: the dispatch loop gives it no reference, so nothing is claimed for it.
- Uma destroy, the transport's channels and the bytes of buffers: outside the accounting; a nil pointer given back, or a pointer freed twice, is recorded as a fault and not followed further.
- WireReader.ChainsStayInside: takes offsets and element sizes as numbers; Go's 64-bit arithmetic agrees with that exactly while offset plus index times size stays below 2^63 (`ElementOffsetExact`).
- Codegen.EmitCheck: has memory for an owner array of any size; the source panics for sizes the runtime cannot allocate.
- Go closures that fill nested messages and list elements: modelled as write programs; schemas as values with sizes and fields; nested schemas have a size of at least one byte.
- Messages of 2^31 bytes and more: view offsets are 32-bit signed, so round trips are stated below that size.
- The text the code generator emits: only its layout check, the writes of its constructors in order and its Wrap; elements and nested objects have scalar, string and bytes fields, as no other emitted element write type-checks.
- Codegen.ConstructorReadsBack: for a payload of no bytes, which has no fields unless they end past the 64-bit range, nothing is said.
- Settlement hook data, session, promise and capability types of dexsession: single guards and forwarding calls.
- Floats and generics: scalars are their bytes.
