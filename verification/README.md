# Ratchet sessions and NTCP2 framing, verified

This project models the hard core of the Go library in Dafny and proves properties of it over every run and every
input:

- the **ECIES ratchet engine** (`ratchet/`): the Noise IK handshake and its reply, the sending chain with its DH
  rotation budget and handshake gates, the 128-counter receive window, the session-tag index with its lock sections, the
  session table with eviction, the New Session replay defence and the payload block codec;
- the **replay cache** (`mod/replaycache/`);
- the **NTCP2 data phase** (`ntcp2/`, `handshake/`): the modifier chain, padding, SipHash length masks, frame splitting
  and read buffering, as two connections talking over two byte streams.

`dafny verify dfyconfig.toml` checks everything.

## How it is built

State that the source changes in place is a class; each of its methods is proved equal to a function of the old state,
and the properties are proved about those functions. Protocols are state machines: steps are the source's lock sections
or public calls, and the theorems speak about every sequence of steps. Arithmetic that wraps in the source (uint32
counters, uint16 lengths) wraps in the model.

Cryptographic primitives are unknown functions (`Crypto.Suite`, `Modifiers.Ciphers`). The laws a theorem needs are in its
`requires`: opening undoes sealing, DH commutes, decoding undoes encoding, AES decryption undoes encryption. Where a
result needs more it says so: an ideal AEAD (`Lockstep.Unforgeable`, `Stream.NumberBound`, `Transcript.SomebodySealed`),
no hash collision between two messages (`Transcript.Apart`), or distinct session tags.
`Crypto.LawsAreConsistent` gives a suite with all the laws, `Stream.SaneIsConsistent` shows that it meets those of the
streams, and `Witness.BothDirectionsCarryMessages` gives runs with it that meet every hypothesis of
`EndToEnd.SessionIsExact`, distinct tags and the ideal AEAD included.
Random bytes, clock readings, fresh key pairs, map iteration order and failing library calls are parameters.

| file | content |
|---|---|
| Common, Crypto | bytes, exclusive-or, primitives and their laws |
| Payload | block codec and builder |
| RecvWindow, SendChain, SendKeys | receiving and sending side of one session, and the chain every sealed message belongs to |
| NoiseIK, Transcript | message 1 (bound and unbound), the reply, agreement, and what each section is sealed under |
| Lockstep, Duplex | one direction of a session, and both, over a network that loses, reorders, duplicates and forges |
| EndToEnd, Witness | from the handshake to traffic, and a session in which all of it happens |
| SessionTable, TagIndex, Removal, ReplyTags, TagHints | session table, tag index, removed sessions, reply tags and counter hints under all interleavings |
| TagRefill, TagSupply | which tags a replenished window holds, and how many losses it survives |
| ReplayCache, Freshness | the cache against its full history, and no New Session accepted twice |
| PaddingEngine, Modifiers | padding blocks, modifiers and chains of them |
| Framing, Stream | NTCP2 frames, and two connections talking both ways |

## Main results

1. **Lockstep.** Whatever the network and the lock schedule do, every message the receiver opens is exactly the payload
   the sender sealed under that number, and no number is opened twice (`Lockstep.Lockstep`), also with claims, batches and
   index entries left over from earlier chains. Before the first rotation an authentic message whose tag was claimed opens
   (`Lockstep.FirstChainDelivery`). The same holds in both directions at once, where opening a message lifts the
   responder's gate (`Duplex.BothExact`, `Duplex.ResponderWaits`), and from the first handshake byte on
   (`EndToEnd.SessionIsExact`).
2. **Exact receive window.** The cached keys are at all times exactly the unused counters between base and fill mark,
   each the sender's own key (`RecvWindow.WindowIsExact`, `WindowIsKeyed`).
3. **Sound tag index.** In every interleaving of the lock sections, an indexed tag is pending in the session it names and
   is claimed at most as often as it was installed (`TagIndex.IndexIsSound`). When termination, expiry or eviction
   removes a session, no entry names it at the end of that step (`Removal.RemovedIsForgotten`); the index can name it
   again, and exactly when is `Removal.NamedAgainIff`. The counter hint is the tag's position on a ratchet of the session
   (`TagHints.HintIsPosition`).
4. **Handshake keys.** Exactly what the reader of a handshake message accepts, and what every section is sealed under,
   written out in hashes, key derivations and the four Diffie-Hellman secrets (`Transcript.ReadsBoundIff`,
   `EndToEnd.HandshakeMixesFourSecrets`). A bound message that is accepted was written byte for byte for this responder
   by somebody who knew both its secrets, and so was an accepted reply, in answer to it (`Transcript.AcceptedWasWritten`,
   `Transcript.AcceptedReplyWasWritten`).
5. **Every sealed message in its place.** Over every run of the sending side, rotations and failing calls included, each
   message carries the tag and the key of its place on the chain it belongs to (`SendKeys.EveryMessageBelongs`).
6. **No New Session message accepted twice**, unless 45000 others were recorded since (`Freshness.NoReplayAccepted`); the
   cache answers as its full history would (`ReplayCache.CacheRefinesHistory`).
7. **Streams.** In every interleaving of reads and writes at both ends, torn writes and early end of stream included, each
   end reads a prefix of what the other wrote (`Stream.ReadsArePrefixes`); if the writes succeeded nothing is lost and
   reading on delivers every byte (`Stream.NothingIsLost`, `Stream.EverythingArrives`). Chains of modifiers of any nesting
   invert (`Modifiers.ConversationIsExact`).

## Where the code does less than it says

- Within 128 of 2^32 the end of the receive window wraps below its base and every message is rejected; the comment in
  the source speaks of a cap (`RecvWindow.WrappedWindowRejects`, `RecvWindow.WrapIsReached`).
- Trimming the window by a MessageNumber block never removes anything on a reachable state (`RecvWindow.TrimIsHarmless`).
- At most 52 messages are sealed on one chain exactly for runs of up to 2^32 calls; then the uint32 call counter has
  wrapped past the rotation threshold (`SendChain.ChainBoundIff`).
- An initiator's gate is lifted by a message that carries its reply tag, authentic or not: it seals on its old chain
  exactly between that claim and the installation of a reply (`SendChain.InitiatorSealsIff`).
- The window of 24 tags moves only while fewer than 12 of them are outstanding, so 12 lost messages stall a session,
  although the receive window spans 128 counters (`TagSupply.WindowMovesIff`).
- Storing a session under a hash in use leaves tags that name a session no longer in the table, exactly if the old
  session still had some (`TagIndex.StoreOrphansIff`, `Removal.OverwriteOrphans`).
- A removed session comes back into the tag index, though not into the table, when a batch of tags drawn before its
  removal is installed after it, or its reply is applied after it (`Removal.BatchRevives`, `Removal.ReplyRevives`).
- A DH key update replaces the receive tag ratchet but not the tag counter, so later hints are no longer the tags'
  numbers once a tag was drawn before it (`TagHints.RekeyShiftsHints`), and it can put more than 32 sessions under one
  peer key (`TagIndex.RekeyKeepsBoundIff`).
- A failed seal uses up a tag and a key but no message number, so the tags of the messages that follow are one further on
  than their number on the chain (`SendKeys.TagCountsFailures`).
- A round of replenishing for which the ratchet has too few tags loses those it has drawn (`TagRefill.ReplenishRegisters`).
- Several Termination blocks are accepted as long as the last body block is one (`Payload.PayloadBuilder.Validate`).
- Stripping AEAD padding is ambiguous for certain contents; in the deterministic mode exactly for the lengths in
  `PaddingEngine.CountingAmbiguousIff`.
- A frame found too large after sealing has used up its message number: later writes report success but are never read
  (`Stream.RejectionEndsStream`, `Stream.RejectionLosesWrites`). `Framing.OversizeIff` says exactly when this can happen.
- A frame size of 16, which only an unvalidated configuration has, makes a write spin until the frame counter is used up
  (`Framing.NoRoomNeverSucceeds`).

## Model

| member | source | states |
|---|---|---|
| `Payload.ParsePayload` | ratchet/payload_builder.go:183-218 | accepts exactly the byte strings that encode some block list, and returns that list |
| `Payload.EncodesUnique` | ratchet/payload_builder.go:183-218 | a byte string encodes at most one block list |
| `Payload.PrefixDetermined` | ratchet/payload_builder.go:187-215 | a list whose encoding starts with that of `bs` starts with `bs` |
| `Payload.TruncatedEncodesNothing` | ratchet/payload_builder.go:187-199 | no list starts with a header that promises more data than there is |
| `Payload.SerializeInto` | ratchet/payload.go:281-294 | writes the block's wire form in place and leaves the rest of the buffer; fails exactly if there is no room or the block is too long |
| `Payload.WireBytes` | ratchet/payload.go:281-294 | the wire form byte by byte: type, length most significant byte first, data |
| `Payload.PayloadBuilder.AddBlock` | ratchet/payload_builder.go:32-35 | appends the block |
| `Payload.PayloadBuilder.Validate` | ratchet/payload_builder.go:70-116 | accepts exactly the lists without Options, with padding only in last place, and with a Termination in last body place if there is any |
| `Payload.WellOrderedIff` | ratchet/payload_builder.go:70-116 | the accepted lists are exactly a body without Options and padding, ended by a Termination if it has any, and at most one padding block |
| `Payload.PayloadBuilder.Build` | ratchet/payload_builder.go:40-64 | succeeds exactly on well-ordered lists that fit, with their encoding |
| `Payload.BuildThenParse` | ratchet/payload_builder.go:40-64 | whatever parses from built bytes is the list that was built, and re-serialising it gives the bytes back |
| `Payload.PrependEncodes` | ratchet/helpers.go:53-91 | control blocks in front of a well-formed payload parse as control blocks, then payload |
| `Payload.NextKeyRoundTrip` | ratchet/payload.go:124-146 | parsing a NextKey block gives key ID, flags and key back |
| `Payload.AnnouncementBytes` | ratchet/payload.go:124-146 | the bytes of the two announcements a session makes: flags 5 and 3, key ID, key |
| `Payload.DateTimeBytes` | ratchet/payload.go:187-197 | exactly four bytes under type 0 are read as a time, most significant byte first |
| `Payload.DateTimeRoundTrip` | ratchet/payload.go:99-103 | every uint32 time is read back from its block |
| `Payload.DateTimeUnique` | ratchet/payload.go:187-197 | a block read as some time is the one built for it |
| `RecvWindow.WindowIsExact` | ratchet/session_decrypt.go:403-437 | over every run: cached counters are exactly [base, fill) minus the accepted ones, base is the least unaccepted, none is accepted twice |
| `RecvWindow.WindowIsKeyed` | ratchet/recv_window.go:16-32 | over every run: each cached key is the key of its counter on the chain |
| `RecvWindow.WindowIsBounded` | ratchet/session_decrypt.go:403-416 | over every run: at most 128 cached keys and 128 derivations in a call |
| `RecvWindow.WindowEndBounds` | ratchet/session_decrypt.go:403-416 | the uint32 window end in every case, the wrapping one included |
| `RecvWindow.DecryptKeepsExact` | ratchet/session_decrypt.go:389-452 | one delivery consumes at most one counter, unused and within 128 of the base |
| `RecvWindow.DecryptKeepsKeyed` | ratchet/session_decrypt.go:389-452 | a delivery keeps every cached key the key of its counter |
| `RecvWindow.TrimIsHarmless` | ratchet/recv_window.go:60-83 | trimming by PN removes no key of a reachable window |
| `RecvWindow.TrimKeeps` | ratchet/recv_window.go:60-83 | trimming keeps exactly the keys up to PN and from the base on |
| `RecvWindow.ShortIsIgnored` | ratchet/session_decrypt.go:389-402 | a message shorter than a tag changes nothing |
| `RecvWindow.AckReportsConsumedPrefix` | ratchet/session_decrypt.go:574-600 | the Ack is the length of the fully accepted prefix, capped at 65535 |
| `RecvWindow.WrappedWindowRejects` | ratchet/session_decrypt.go:403-416 | with the base within 128 of 2^32 nothing is accepted and nothing changes |
| `RecvWindow.InOrderAdvances` | ratchet/session_decrypt.go:389-452 | n messages in order are all accepted and leave the base at n + 1, up to the wrap-around |
| `RecvWindow.WrapIsReached` | ratchet/session_decrypt.go:403-416 | after 2^32 - 129 messages in order every further message is rejected |
| `RecvWindow.InWindowOpens` | ratchet/session_decrypt.go:457-482 | an unused counter in the window is accepted on its hint whenever its own key opens the message |
| `RecvWindow.HintDoesNotMatter` | ratchet/session_decrypt.go:457-507 | if at most one key opens the message, any two hints give the same plaintext and the same window |
| `RecvWindow.RecvSession.ResetRecvWindow` | ratchet/recv_window.go:36-50 | the window of a fresh chain |
| `RecvWindow.RecvSession.FillRecvKeyCache` | ratchet/recv_window.go:16-32 | derives and caches keys up to the mark |
| `RecvWindow.RecvSession.TryCounterHintDecrypt` | ratchet/session_decrypt.go:457-482 | opens exactly if the hint is in range, cached and its key fits |
| `RecvWindow.RecvSession.ScanWindowDecrypt` | ratchet/session_decrypt.go:487-507 | the first counter of the window whose key opens the message |
| `RecvWindow.RecvSession.ConsumeKey` | ratchet/session_decrypt.go:429-437 | deletes the key and moves the base past used counters |
| `RecvWindow.RecvSession.DecryptExistingSession` | ratchet/session_decrypt.go:389-452 | new window and plaintext are the function `Decrypt`, for which the theorems above are proved |
| `RecvWindow.RecvSession.TrimRecvWindowByPN` | ratchet/recv_window.go:60-83 | deletes the cached keys above pn and below the base, in any map order |
| `RecvWindow.RecvSession.ProcessAckRequest` | ratchet/session_decrypt.go:574-600 | the acknowledged count, fitting 16 bits |
| `SendChain.NonceUniqueness` | ratchet/session_encrypt.go:158-179 | over every run no (chain, number) pair is sealed twice and numbers stay within 1..65534 |
| `SendChain.SendingChainBound` | ratchet/ratchet_step.go:39-59 | over every run of at most 2^32 calls no chain seals more than 52 messages |
| `SendChain.ChainBoundIff` | ratchet/ratchet_step.go:39-59 | every run of at most n calls keeps every chain at 52 messages or fewer, if and only if n <= 2^32 |
| `SendChain.FailingCallsAfterWrap` | ratchet/ratchet_step.go:39-59 | 2^32 + k calls of a responder whose rotations fail, k up to 49, seal 52 + k messages on one chain |
| `SendChain.HandshakeGates` | ratchet/session_encrypt.go:142-156 | over every run: the handshake state is taken once, an initiator seals nothing before, a responder that replied seals nothing until it opened a message |
| `SendChain.InitiatorSealsIff` | ratchet/session_encrypt.go:142-156 | in every reachable state with numbers and budget left an initiator seals if and only if its handshake state was taken, and on a chain from before the reply if and only if moreover no reply was installed |
| `SendChain.SealsAfterDroppedReply` | ratchet/session_decrypt.go:284-291 | such a state is reached: an initiator seals after a reply that was claimed but did not authenticate |
| `SendChain.NextKeyDiscipline` | ratchet/ratchet_step.go:61-107 | over every run: key IDs on queued blocks strictly increase below 32767; the queued blocks are, as multisets, the delivered, the pending and those drained by failed calls; delivered and pending ones come in order |
| `SendChain.SealedPayloadParses` | ratchet/helpers.go:53-91 | the receiver parses exactly the drained control blocks, then the caller's blocks |
| `SendChain.ReceiverReadsControl` | ratchet/helpers.go:53-91 | announced keys come first and parse to what was queued, then the acknowledgments, each tag-set ID then count, then the caller's blocks |
| `SendKeys.EveryMessageBelongs` | ratchet/crypto_helpers.go:170-202 | over every run each message carries tag and key of its place on its chain, counted from the seeds the chain was installed with; queued are exactly the announced keys; acknowledgments leave in order of request; a reverse key is awaited once a chain rotated |
| `SendKeys.TagCountsFailures` | ratchet/session_encrypt.go:158-179 | a message's tag number is one more than the messages sealed and the seals failed on its chain before |
| `SendChain.EncryptEffect` | ratchet/session_encrypt.go:126-182 | what a call may change of counter, chain, key ID and gates |
| `SendChain.EncryptBudget` | ratchet/ratchet_step.go:39-59 | the four ways a call may change the rotation counters |
| `SendChain.SendSession.TakeHandshakeState` | ratchet/session_decrypt.go:284-291 | the handshake state can be taken once |
| `SendChain.SendSession.ApplyNSRSendKeys` | ratchet/session_decrypt.go:326-371 | new sending chains from number 1; a responder then waits for a first message |
| `SendChain.SendSession.MarkOpened` | ratchet/session_decrypt.go:441-448 | opening a message lifts the responder's gate only |
| `SendChain.SendSession.PerformDHRatchetStep` | ratchet/ratchet_step.go:61-107 | new chain, next key ID and a queued forward block, or no change at all |
| `SendChain.SendSession.AttemptDHRatchetRotation` | ratchet/ratchet_step.go:39-59 | counts the call, rotates when due, tolerates two failures |
| `SendChain.SendSession.PrependPendingNextKeys` | ratchet/helpers.go:53-91 | empties both queues and writes their blocks, in order, before the plaintext |
| `SendChain.SendSession.GenerateReverseNextKey` | ratchet/nextkey.go:190-218 | queues a reverse block under the next key ID, or changes nothing |
| `SendChain.SendSession.EncryptExistingSession` | ratchet/session_encrypt.go:126-182 | new state and wire bytes are the function `Encrypt`, for which the theorems above are proved |
| `NoiseIK.TransportAgrees` | ratchet/noise_ik.go:56-74 | decrypting what an equal symmetric state encrypted gives the plaintext and equal states |
| `NoiseIK.BoundAgreement` | ratchet/noise_ik.go:96-164 | a bound message 1 is read as bound, with payload, initiator key, session keys and h, ck agreeing; an all-zero static key is never read as bound |
| `NoiseIK.UnboundAgreement` | ratchet/noise_ik.go:183-244 | an unbound message 1 is read as unbound with payload and keys |
| `NoiseIK.ReplyAgreement` | ratchet/noise_ik_nsr.go:116-263 | a reply written from a matching state is read with the same payload and keys, and carries the tag the initiator registered |
| `NoiseIK.HandshakeAgreement` | ratchet/session_decrypt.go:326-371 | for all keys and payloads the whole handshake agrees, and each side's sending chains are the other's receiving chains |
| `Transcript.BoundIsSealedUnderBothSecrets` | ratchet/noise_ik.go:96-164 | a bound message exists exactly if both secrets do; static section under a key of DH(e, rs), payload under one of DH(e, rs) and DH(s, rs), each bound to the transcript before it |
| `Transcript.UnboundIsSealedUnderOneSecret` | ratchet/noise_ik.go:183-244 | the unbound message: both sections under the key of DH(e, rs), numbers 0 and 1 |
| `Transcript.ReadsBoundIff` | ratchet/noise_ik.go:266-366 | a message is read as bound, with this payload, sender, keys and state, if and only if its sections open under the two secrets |
| `Transcript.ReadsUnboundIff` | ratchet/noise_ik.go:266-331 | and as unbound if and only if the first section holds zeros and the second opens as message 1 under the same key |
| `Transcript.TranscriptBinds` | ratchet/noise_ik.go:56-74 | without hash collisions the transcript hash fixes responder key, ephemeral key and static section |
| `Transcript.AcceptedWasWritten` | ratchet/noise_ik.go:266-366 | with an ideal AEAD and no collisions, an accepted bound message was written byte for byte for this responder, with this payload and static key, by somebody who knew both secrets |
| `Transcript.WrittenMeetsConditions` | ratchet/noise_ik.go:96-164 | the conditions of that theorem are met by every message that was written |
| `Transcript.ReplyIsSealedUnderBothSecrets` | ratchet/noise_ik_nsr.go:116-187 | a reply exists exactly if both secrets do; tag, MAC under "se" over "ee", payload under the key of the direction to the initiator, and the two split keys |
| `Transcript.ReadsReplyIff` | ratchet/noise_ik_nsr.go:198-263 | a reply is accepted, with this payload and these keys, if and only if MAC and payload open under those keys |
| `Transcript.AcceptedReplyWasWritten` | ratchet/noise_ik_nsr.go:198-263 | likewise an accepted reply was written byte for byte in answer to this very New Session message, by somebody who knew both its secrets |
| `Transcript.WrittenReplyMeetsConditions` | ratchet/noise_ik_nsr.go:116-187 | the conditions of that theorem are met by every reply that was written |
| `Transcript.ReplyDirections` | ratchet/session_decrypt.go:326-371 | the initiator sends on the first split key and receives on the second, the responder inversely; tags from the first output, keys from the second |
| `Transcript.NewSessionDirections` | ratchet/crypto_helpers.go:26-52 | before the reply: root and tag key split in two, the initiator sends on the first halves |
| `Transcript.DirectionsStayApart` | ratchet/noise_ik_nsr.go:269-290 | if the split keys differ and derivations do not collide, the two directions never share a message key under one number |
| `NoiseIK.SymmetricState.Encrypt` | ratchet/noise_ik.go:96-164 | EncryptAndHash on the object |
| `NoiseIK.SymmetricState.Decrypt` | ratchet/noise_ik.go:334-366 | DecryptAndHash on the object; a failure leaves it unchanged |
| `NoiseIK.InitNoiseIK` | ratchet/noise_ik.go:56-74 | the initial state: protocol name and responder key mixed in |
| `NoiseIK.WriteNoiseIKMessage1` | ratchet/noise_ik.go:96-164 | the step-by-step writer computes `WriteBound` |
| `NoiseIK.WriteNoiseIKMessage1Unbound` | ratchet/noise_ik.go:183-244 | the step-by-step writer computes `WriteUnbound` |
| `NoiseIK.IsAllZeros` | ratchet/noise_ik.go:247-254 | true exactly on all-zero strings |
| `NoiseIK.ReadNoiseIKMessage1` | ratchet/noise_ik.go:266-304 | the step-by-step reader computes `Read1`, all error cases included |
| `NoiseIK.WriteNoiseIKMessage2` | ratchet/noise_ik_nsr.go:116-187 | the step-by-step reply writer computes `Write2` |
| `NoiseIK.ReadNoiseIKMessage2` | ratchet/noise_ik_nsr.go:198-263 | the step-by-step reply reader computes `Read2`, all error cases included |
| `Lockstep.Lockstep` | ratchet/session_decrypt.go:55-81 | under any loss, reordering, duplication, forgery and lock schedule, with leftovers of earlier chains and any other section of the sender in between, accepted messages are exactly sealed ones, each once; keys, tags, hints and counters of both sides agree |
| `Lockstep.ForeignStaysShut` | ratchet/session_decrypt.go:389-452 | a message claimed on a tag of an earlier chain never opens against the new window |
| `Lockstep.OpenIsAuthentic` | ratchet/session_decrypt.go:389-452 | a ciphertext that opens on a tag of the chain is the peer's message of that tag's number |
| `Lockstep.ClaimedMessageOpens` | ratchet/session_decrypt.go:389-437 | a claimed authentic message within 128 of the base opens to its own payload |
| `Lockstep.FirstChainDelivery` | ratchet/session_encrypt.go:126-182 | before the first rotation, in runs of fewer than 2^32 steps, a claimed authentic message always opens: the chain never outruns the window |
| `Lockstep.FirstMessageArrives` | ratchet/session_encrypt.go:126-182 | from every starting state whose sender may seal short of a rotation, an honest first message that no other key of the chain opens can be delivered and is accepted |
| `Duplex.BothExact` | ratchet/session_decrypt.go:389-452 | the lockstep theorem for both directions of a session, interleaved in any way |
| `Duplex.BothDeliver` | ratchet/session_decrypt.go:389-437 | in both directions claimed authentic messages of the first chain open, in runs of fewer than 2^32 moves and calls |
| `Duplex.ResponderWaits` | ratchet/session_decrypt.go:441-448 | over every run the responder has sealed nothing as long as it has opened nothing |
| `Duplex.BothFirstMessagesArrive` | ratchet/session_decrypt.go:441-448 | from every established pair short of a rotation a run delivers the initiator's first message, which lifts the gate, and then the responder's, if no other key of the chain opens them |
| `EndToEnd.HandshakeMirrors` | ratchet/noise_ik_nsr.go:116-263 | after the four handshake steps each side's sending chains are the other's receiving chains |
| `EndToEnd.HandshakeMixesFourSecrets` | ratchet/noise_ik_nsr.go:116-263 | for all keys and payloads the chains after the handshake are one function of the secrets es, ss, ee and se, each known to both ends |
| `EndToEnd.HandshakeEstablishes` | ratchet/session_decrypt.go:326-371 | both directions then stand in the initial state of the lockstep theorem, the initiator free to seal and the responder gated, whatever the sessions did before and still hold |
| `EndToEnd.SessionIsExact` | ratchet/session_decrypt.go:21-102 | from the first handshake byte, over every run of both directions, everything opened is what the peer sealed, each message at most once, and the responder seals nothing before it opened a message |
| `EndToEnd.SessionDelivers` | ratchet/session_decrypt.go:389-437 | after mirrored chains were installed claimed authentic messages open in both directions, with fewer than 2^32 calls and moves |
| `Witness.BothDirectionsCarryMessages` | ratchet/session_decrypt.go:441-448 | for all keys and payloads the model suite's session meets every hypothesis of `SessionIsExact` and has a run in which each end accepted the other's message |
| `ReplayCache.CacheRefinesHistory` | mod/replaycache/cache.go:88-108 | over every run a check hits exactly if the key's last recording is younger than the TTL and was not evicted for lack of room; the size stays within its limit |
| `ReplayCache.CleanupIsInvisible` | mod/replaycache/cache.go:150-160 | background cleanup changes no later answer |
| `ReplayCache.EvictionSparesRecent` | mod/replaycache/cache.go:165-190 | a key is evicted only if at least maxSize - max(1, maxSize/10) surviving entries are no older |
| `ReplayCache.SortByTime` | mod/replaycache/cache.go:171-184 | a sorted permutation of the entries |
| `ReplayCache.TTLCache.constructor` | mod/replaycache/cache.go:52-83 | a default of 10000 for a missing size, the TTL as given, no entries |
| `ReplayCache.TTLCache.CheckAndAdd` | mod/replaycache/cache.go:88-108 | true exactly on a live entry, which stays; otherwise the key is recorded now, after eviction if full |
| `ReplayCache.TTLCache.EvictOldestLocked` | mod/replaycache/cache.go:165-190 | deletes max(1, n/10) entries, none younger than a survivor |
| `ReplayCache.TTLCache.EvictExpired` | mod/replaycache/cache.go:150-160 | keeps exactly the entries younger than the TTL |
| `Freshness.ValidateNSDateTimeFreshness` | ratchet/session_freshness.go:52-79 | accepts exactly payloads with a DateTime block within the past and future limits |
| `Freshness.FreshIff` | ratchet/session_freshness.go:52-79 | accepted is exactly a payload that starts with the DateTime block of a uint32 time at most `past` behind and at most `future` ahead of the clock |
| `Freshness.FreshBetween` | ratchet/session_freshness.go:52-79 | for one payload: accepted exactly between the two limits, both inclusive |
| `Freshness.NoReplayAccepted` | ratchet/session_decrypt.go:188-207 | over every run a message accepted twice had at least 45000 other keys recorded since its earlier timestamp |
| `Freshness.NoReplayInShortRuns` | ratchet/session_decrypt.go:188-207 | a run that records at most 45000 messages accepts none twice |
| `Freshness.ReplayIsRecent` | ratchet/session_freshness.go:89-91 | the TTL covers every moment at which a recorded message still looks fresh |
| `Freshness.TtlIsTight` | ratchet/session_freshness.go:89-91 | no shorter TTL covers them |
| `Freshness.AcceptedAgainMeansEvicted` | ratchet/session_decrypt.go:188-207 | a fresh-looking replay misses the cache only after an eviction for lack of room |
| `Freshness.EvictionIsExplained` | mod/replaycache/cache.go:165-190 | a full cache that evicts a key holds 45000 logged others that are no older |
| `SessionTable.SwapRemoveExact` | ratchet/session_table.go:152-161 | exactly one occurrence of the tag goes |
| `SessionTable.RemoveFromPending` | ratchet/session_table.go:152-161 | the swap-remove loop computes `SwapRemove` |
| `SessionTable.BytesLess` | ratchet/session_table.go:165-179 | lexicographic order |
| `SessionTable.LessTotal` | ratchet/session_table.go:165-179 | the order is total, irreflexive and antisymmetric |
| `SessionTable.LessIff` | ratchet/session_table.go:165-179 | one string is less exactly if at the first difference it ends or has the smaller byte |
| `SessionTable.LessTransitive` | ratchet/session_table.go:165-179 | the order is transitive |
| `SessionTable.LruIsUnique` | ratchet/session_table.go:187-223 | the eviction choice does not depend on map order |
| `SessionTable.LruIsOldest` | ratchet/session_table.go:187-223 | no session was used longer ago than the one evicted; ties go to the least hash |
| `SessionTable.QuotaVictimIsOldest` | ratchet/session_table.go:237-285 | the quota victim is the peer's own, settled if any of the peer's is, and the oldest of its kind |
| `SessionTable.CleanupSparesRecent` | ratchet/session_lifecycle.go:12-57 | a session survives the clean-up exactly if it was used no longer ago than the timeout |
| `SessionTable.SessionManager.GenerateTagWindow` | ratchet/session_manager.go:327-352 | draws tags until 24 are pending, skipping tags of other sessions; fails exactly if the ratchet runs dry |
| `SessionTable.SessionManager.GenerateTagsOutsideLock` | ratchet/session_manager.go:273-293 | draws the missing tags with their counters; an error loses the drawn ones |
| `SessionTable.SessionManager.InstallGeneratedTagsLocked` | ratchet/session_manager.go:299-317 | installs tags while fewer than 24 are pending, skipping tags of other sessions |
| `SessionTable.SessionManager.ReplenishTagWindow` | ratchet/session_manager.go:202-258 | at most three rounds of drawing and installing; the new state is the function `Replenish`, for which the next rows are proved |
| `TagRefill.ReplenishRegisters` | ratchet/session_manager.go:202-258 | collisions or not: of the tags drawn in complete rounds exactly those no other session holds are pending and indexed, in order, with their counters; an incomplete round loses its tags |
| `TagRefill.ReplenishFills` | ratchet/session_manager.go:202-258 | without collisions the window then holds 24 tags, the old ones and the next of the ratchet, each indexed to this session with its counter |
| `TagRefill.InstallRegisters` | ratchet/session_manager.go:299-317 | of a batch, the free tags are installed up to a full window |
| `TagRefill.FillRegisters` | ratchet/session_manager.go:327-352 | a window is filled with the free ones of the tags drawn, until it is full or the ratchet is empty |
| `SessionTable.SessionManager.LookupSessionByTag` | ratchet/session_table.go:109-125 | hands out session and counter hint and removes the tag from both indexes |
| `SessionTable.SessionManager.ValidateAndConsumeTag` | ratchet/session_table.go:136-146 | consumes the tag unless the session is too old; asks for more below 12 |
| `SessionTable.SessionManager.ClaimReplyTag` | ratchet/session_decrypt.go:85-102 | a reply tag can be claimed once |
| `SessionTable.SessionManager.ApplyReplyTags` | ratchet/session_decrypt.go:326-371 | purges the pending tags and fills the window from the new ratchet, counters from 1 |
| `SessionTable.SessionManager.PurgePending` | ratchet/session_decrypt.go:352-357 | removes exactly the session's pending tags from both indexes |
| `SessionTable.SessionManager.RemoveSession` | ratchet/session_table.go:205-215 | removes table entry, pending tags and reply tag of one session |
| `SessionTable.SessionManager.RemoveSessionByPointer` | ratchet/session_table.go:29-61 | removes the session wherever it is stored, or nothing |
| `SessionTable.SessionManager.EvictLRUSessionLocked` | ratchet/session_table.go:187-223 | removes the minimum of (last use, hash), for every map order |
| `SessionTable.SessionManager.EnforcePerPeerQuotaLocked` | ratchet/session_table.go:237-305 | at 32 sessions removes one of that peer, the oldest established one if there is any |
| `SessionTable.SessionManager.FindQuotaVictim` | ratchet/session_table.go:237-285 | count and victim, for every map order |
| `SessionTable.SessionManager.CleanupExpiredSessions` | ratchet/session_lifecycle.go:12-57 | removes exactly the expired sessions, and counts them |
| `SessionTable.SessionManager.StoreNewSession` | ratchet/session_encrypt.go:76-123 | eviction, quota, reply tag, table entry and tag window, in that order |
| `TagIndex.IndexIsSound` | ratchet/session_table.go:109-161 | in every interleaving of the lock sections: indexed tags are pending in their session, at most 24 pending, none claimed more often than installed |
| `TagIndex.StepKeepsSound` | ratchet/session_manager.go:202-352 | every single lock section keeps the invariant |
| `TagHints.HintIsPosition` | ratchet/session_manager.go:273-352 | in every interleaving each indexed tag carries as its counter hint the tag's number on a ratchet its session was given, counted from that ratchet's base |
| `TagHints.BaseIsZero` | ratchet/recv_window.go:36-50 | without DH key updates the base is 0 |
| `TagHints.RekeyShiftsHints` | ratchet/nextkey.go:167-180 | after a DH key update the first tag's hint is 1 exactly if the tag counter still stood at 1 |
| `TagHints.HintsMatchIndex` | ratchet/session_table.go:109-161 | in every interleaving the tags with a hint are exactly the indexed ones |
| `ReplyTags.EachRegistrationClaimedOnce` | ratchet/session_decrypt.go:85-102 | in every interleaving a reply tag is claimed at most as often as it was registered |
| `ReplyTags.ClaimClears` | ratchet/session_decrypt.go:85-102 | a claim leaves its session without a reply tag and otherwise as it was |
| `ReplyTags.FoundUntilClaimedOrRemoved` | ratchet/session_encrypt.go:76-123 | from its registration on a reply tag is found if and only if no step claimed it, overwrote it, removed a session that holds it, or closed |
| `Removal.RemovedIsForgotten` | ratchet/session_table.go:29-305 | termination, expiry, LRU eviction or quota: at the end of the removing step no table, tag or reply-tag entry names any of the removed sessions |
| `Removal.RenamedIff` | ratchet/session_manager.go:202-258 | a step makes the index name an unnamed session exactly if it installs a free tag of an outstanding batch of it, or applies its reply with a free tag |
| `Removal.NamedAgainIff` | ratchet/session_manager.go:202-258 | over every continuation a forgotten session is named again at some moment exactly if such a step occurs |
| `Removal.BatchRevives` | ratchet/session_manager.go:229-238 | the run: stored, one tag used, replacement drawn, dropped, batch installed; the index names a session in no table |
| `Removal.ReplyRevives` | ratchet/session_decrypt.go:326-371 | the run: stored, dropped, reply applied; the index names a session in no table |
| `Removal.OverwriteOrphans` | ratchet/session_encrypt.go:90-123 | the run: two sessions stored under one hash; the first one's tags are orphaned |
| `TagIndex.StoreOrphansIff` | ratchet/session_encrypt.go:90-123 | storing leaves an index entry without a table entry exactly if the replaced session still had one |
| `TagIndex.TableIsBounded` | ratchet/session_table.go:187-305 | in every run at most 5000 sessions, and without DH key updates at most 32 of any peer |
| `TagIndex.RekeyKeepsBoundIff` | ratchet/nextkey.go:167-180 | a DH key update keeps the bound of 32 exactly if the session already had that peer key or the peer had fewer than 32 |
| `TagSupply.WindowMovesIff` | ratchet/session_manager.go:183-258 | whatever subset of the window arrives, in any order and with repetitions, new tags are drawn exactly if fewer than 12 remain undelivered; otherwise no tag outside the window is ever indexed; with fresh tags left, all tags of the window and all drawn since are indexed under their counters unless delivered, nothing else is, and at least 12 wait |
| `PaddingEngine.AddAEADPadding` | handshake/padding_engine.go:164-189 | the buffer is data, header and fill |
| `PaddingEngine.RemoveTrailingAEADPadding` | handshake/padding_engine.go:193-224 | removes the shortest self-consistent trailing block within the scan limit |
| `PaddingEngine.StripsShortest` | handshake/padding_engine.go:193-224 | the shortest self-consistent trailing block of at most 65516 bytes, and within the limit if one is set, is what goes |
| `PaddingEngine.StripsNothing` | handshake/padding_engine.go:193-224 | without such a block nothing goes |
| `PaddingEngine.StripAfterPad` | handshake/padding_engine.go:164-224 | stripping after padding gives an extension of the data, and the data exactly if no shorter block is self-consistent |
| `PaddingEngine.CountingAmbiguousIff` | handshake/padding_engine.go:164-189 | in deterministic mode, exactly which lengths are ambiguous |
| `PaddingEngine.CountingRoundTrip` | handshake/padding_engine.go:164-224 | in deterministic mode every padding below 64510 bytes is stripped exactly |
| `Modifiers.XorApply` | handshake/xor_modifier.go:69-91 | the byte loop computes the repeating-key XOR |
| `Modifiers.XorWithInvolutive` | handshake/xor_modifier.go:95-97 | applying it twice is the identity |
| `Modifiers.XorRepeatsKey` | handshake/xor_modifier.go:69-91 | the key is used from its start, and from its start again when it is used up |
| `Common.XorBits` | handshake/xor_modifier.go:69-91 | bit by bit, set exactly where the two numbers differ |
| `Modifiers.XORModifier.Modify` | handshake/xor_modifier.go:69-97 | both directions coincide; a closed modifier fails |
| `Modifiers.XORModifier.Close` | handshake/xor_modifier.go:108-117 | the key is wiped and the modifier closed |
| `Modifiers.ClosedFails` | handshake/xor_modifier.go:69-97 | a closed modifier fails both ways, and so does a chain that starts with it |
| `Modifiers.PadOutApply` | handshake/padding_modifier.go:69-131 | the buffer is length, data and padding |
| `Modifiers.PadLayout` | handshake/padding_modifier.go:69-131 | four bytes of length, most significant first, the data, the padding |
| `Modifiers.PadRoundTripIff` | handshake/padding_modifier.go:138-181 | decoding gives the data back exactly if the uint32 total does not fall below the data length |
| `Modifiers.MaskedInvolutive` | handshake/siphash/siphash.go:90-105 | the same mask undoes itself on every length field |
| `Modifiers.LengthModifier.NextOutboundMask` | handshake/siphash/siphash.go:128-133 | advances the outbound state only; the mask is its low 16 bits |
| `Modifiers.LengthModifier.NextInboundMask` | handshake/siphash/siphash.go:120-125 | advances the inbound state only; the mask is its low 16 bits |
| `Modifiers.LengthModifier.ModifyOutbound` | handshake/siphash/siphash.go:79-105 | the object follows `Outbound` |
| `Modifiers.LengthModifier.ModifyInbound` | handshake/siphash/siphash.go:85-105 | the object follows `Inbound` |
| `Modifiers.EncryptPrefix` | ntcp2/aes_obfuscation_modifier.go:113-116 | CBC of the first 32 bytes in place, the rest untouched |
| `Modifiers.DecryptPrefix` | ntcp2/aes_obfuscation_modifier.go:186-189 | CBC decryption of the first 32 bytes in place |
| `Modifiers.CbcRoundTrip` | ntcp2/aes_obfuscation_modifier.go:82-203 | decryption with the same initial vector undoes encryption |
| `Modifiers.PrefixIsCbc` | ntcp2/aes_obfuscation_modifier.go:82-133 | the first 32 bytes are their two blocks in cipher block chaining |
| `Modifiers.TwoMessagesOneChain` | ntcp2/aes_obfuscation_modifier.go:82-133 | the prefixes of messages 1 and 2 are one chain of four blocks under the initial vector |
| `Modifiers.IdleDoesNothing` | handshake/modifier_chain.go:50-99 | in which phases each kind of modifier leaves everything as it is, both ways |
| `Modifiers.ChainComposes` | handshake/modifier_chain.go:50-71 | the second part of a chain works on what the first has made |
| `Modifiers.AESObfuscationModifier.ModifyOutbound` | ntcp2/aes_obfuscation_modifier.go:82-133 | the object follows `Outbound`; state carried from message 1 to message 2 |
| `Modifiers.AESObfuscationModifier.ModifyInbound` | ntcp2/aes_obfuscation_modifier.go:140-203 | the object follows `Inbound`; keys with the top bit set are refused |
| `Modifiers.BlockPadInvertsIff` | ntcp2/padding_modifier.go:94-132 | the padding modifier is undone exactly without cleartext padding and without an ambiguous trailing block |
| `Modifiers.SingleInvertsIff` | handshake/modifier_chain.go:76-99 | one modifier of any kind is undone by its peer exactly if the data is recoverable |
| `Modifiers.ModifierInverts` | handshake/modifier_chain.go:50-99 | for chains of any length and nesting, recoverable data comes back and both ends match again |
| `Modifiers.PrefixHidesCleartext` | handshake/modifier_chain.go:50-99 | for chains the condition is not necessary: a length prefix hides later cleartext padding |
| `Modifiers.ConversationIsExact` | handshake/modifier_chain.go:50-99 | over every conversation, both ways and in any phases, each end receives exactly what was sent |
| `Modifiers.ModifierChain.ModifyOutbound` | handshake/modifier_chain.go:50-71 | forward loop with early exit, states included |
| `Modifiers.ModifierChain.ModifyInbound` | handshake/modifier_chain.go:76-99 | backward loop with early exit, states included |
| `Modifiers.FailurePropagates` | handshake/modifier_chain.go:76-99 | an inbound error leaves the earlier modifiers untouched |
| `Modifiers.OutboundKeepsIn` | ntcp2/conn_framing.go:296-302 | sending data frames does not disturb receiving |
| `Modifiers.InboundKeepsOut` | ntcp2/conn_framing.go:307-313 | receiving data frames does not disturb sending |
| `Modifiers.GrowthBound` | ntcp2/padding_modifier.go:94-113 | a chain adds at most `Growth` bytes to a data frame, and keeps that bound |
| `Modifiers.GrowthReached` | ntcp2/padding_modifier.go:94-113 | every usable chain adds exactly as much for some padding, to any data |
| `Framing.NTCP2Conn.BuildWireFrame` | ntcp2/conn_framing.go:492-509 | masked length and ciphertext; only the outbound mask advances |
| `Framing.NTCP2Conn.WriteSingleFrame` | ntcp2/conn_framing.go:360-481 | guard, modify, seal, size check, mask, write: every outcome and what it leaves behind |
| `Framing.NTCP2Conn.WriteChunks` | ntcp2/conn_framing.go:339-356 | the split loop; it ends on every input |
| `Framing.NTCP2Conn.WriteBytes` | ntcp2/conn_framing.go:262-357 | a write on an established connection, broken latch included |
| `Framing.NTCP2Conn.BufferPlaintext` | ntcp2/conn_framing.go:211-223 | the caller gets what fits, the rest is kept |
| `Framing.NTCP2Conn.ReadFrame` | ntcp2/conn_framing.go:80-207 | guard, unmask, check, open, modify: every outcome and what it leaves behind |
| `Framing.NTCP2Conn.ReadBytes` | ntcp2/conn_framing.go:28-62 | leftovers first, then the next frame |
| `Framing.NoRoomNeverSucceeds` | ntcp2/conn_framing.go:321-357 | with a frame size of 16 no non-empty write ever succeeds |
| `Framing.WriteUsesFewestFrames` | ntcp2/conn_framing.go:339-356 | a completed write accepts all bytes in the fewest frames that hold them |
| `Framing.WireIs` | ntcp2/conn_framing.go:321-538 | a completed write puts exactly its frames on the wire: the n-th length is the ciphertext length exclusive-or the low 16 bits of SipHash applied n times to the initial state, the n-th ciphertext is sealed under the n-th message number |
| `Framing.FrameSizes` | ntcp2/conn_framing.go:545-550 | settings from 1 to 65535 count, any other means 16384 |
| `Framing.NeverOversize` | ntcp2/conn_framing.go:460-481 | frame size plus growth of the chain within 65535 rules out oversize frames |
| `Framing.OversizeIff` | ntcp2/conn_framing.go:460-481 | for usable chains: some write meets an oversize frame if and only if frame size plus growth exceed 65535 |
| `Framing.TooLargeIsRejected` | ntcp2/conn_framing.go:460-481 | such a frame uses up its message number, not its mask, and nothing is sent |
| `Stream.LengthRoundTrip` | ntcp2/conn_framing.go:131-165 | with masks in step the unmasked length is the ciphertext length |
| `Stream.FrameRoundTrip` | ntcp2/conn_framing.go:360-456 | a frame written in step is read back whole and leaves both ends in step |
| `Stream.DrainAppend` | ntcp2/conn_framing.go:80-126 | what can be decoded does not depend on what arrives later |
| `Stream.FrameFault` | ntcp2/conn_framing.go:460-538 | a failed write leaves a torn frame or a skewed message number, and frames after a skew do not open |
| `Stream.ReadsArePrefixes` | ntcp2/conn_framing.go:28-357 | in every run of both ends, failures included, each end has read a prefix of what the other wrote |
| `Stream.NothingIsLost` | ntcp2/conn_framing.go:28-357 | if all writes succeeded, in both directions read, buffered and decodable bytes make up the written ones, and masks, numbers and modifiers of both ends agree; an end is broken only if its frame counter is used up, and then it has read everything |
| `Stream.EverythingArrives` | ntcp2/conn_framing.go:28-62 | from there, finitely many reads with any buffer size deliver every written byte |
| `Stream.WriteSucceeds` | ntcp2/conn_framing.go:321-357 | a write whose frames fit succeeds with counters left and a socket that takes the bytes, whether or not the receiver can still open it |
| `Stream.ConfigFits` | ntcp2/conn_framing.go:460-481 | frames fit whenever the frame size leaves room for the growth of the chain |
| `Stream.CutKeepsSafe` | ntcp2/conn_framing.go:170-190 | cutting the stream after any byte keeps the invariant behind `ReadsArePrefixes` |
| `Stream.RejectionEndsStream` | ntcp2/conn_framing.go:460-481 | after a write rejected for size nothing written later is ever read |
| `Stream.RejectionLosesWrites` | ntcp2/conn_framing.go:321-357 | on every fresh pair with one byte of padding and the largest frame size: a full chunk is rejected, the next write reports success, and its byte is never read |

## Left out

- Receiving side of a DH rotation (`ratchet/nextkey.go`, `ProcessIncomingDHRatchet`): the receiver does not complete it in this code, so only what the sender's rotations guarantee and what a key update does to the tag index are modelled; `Lockstep` covers messages up to the first rotation.
- An AEAD error on sealing is modelled in `SendChain`; the lockstep theorems take sealing as total.
- SessionTable.SessionManager.ReplenishTagWindow: run without interruption; the interleavings of its lock sections are the steps Draw and Install of `TagIndex`.
- Sessions are records under a pointer identity in a map, not separate objects: sharing of one session between table and index is modelled, data races inside one lock section are not.
- Queued NextKey and Ack blocks are held in parsed form and encoded when they are drained, not when they are queued.
- One-time keys (`tryDecryptOneTimeKey`), the order in which the three decryption paths are tried, and the handling of payload blocks other than NextKey, Ack, MessageNumber and DateTime.
- Errors of library key derivations and missing ratchets: derivations are total functions, except that the tag ratchet can run dry, key generation can fail and DH can reject.
- A modifier that fails for lack of random bytes is modelled, but the stream theorems ask that the modifiers accept every frame; a failure in mid-chain can leave the two ends out of step.
- `Stream.ReadsArePrefixes`: asks that each frame is recoverable by the chain, since otherwise even a single frame is not read back as written.
- Modifiers.ModifierInverts: for chains the condition is sufficient only; `PrefixHidesCleartext` shows a chain that inverts without it.
- `Duplex.BothDeliver`: as `Lockstep.FirstChainDelivery`.
- `EndToEnd.SessionDelivers`: as `Lockstep.FirstChainDelivery`.
- `Lockstep.FirstChainDelivery`: fewer than 2^32 calls and steps, because the bound on a chain rests on the uint32 call counter. The converse, a claimed message that does not open beyond that number, is not shown.
- `Lockstep.FirstMessageArrives`: the first message only, sealed before a rotation is due.
- `Duplex.BothFirstMessagesArrive`: the first messages only, sealed before a rotation is due.
- `RecvWindow.HintDoesNotMatter`: for messages that at most one cached key opens, as with an ideal AEAD.
- Padding sizes: the ratio and the random variation are not modelled, only that the size lies between minimum and maximum.
- Message 3 padding, block validation helpers of the NTCP2 padding modifier, AEAD-error delays and TCP resets.
- Unframed reads and writes before the length masks are installed.
- Wiping of keys and buffers (except the XOR key), logging, error texts, debug dumps.
- Build records, `conn/`, `listener/`, `ssu2/`, dialing, configuration builders and shutdown: network plumbing and thin wrappers, which would add only easy members.
