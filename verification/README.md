# Verified models of the OrcaX tunnel and its TLS fork

This project models the stateful core of the OrcaX tunnel (`orcax/`) and of the rustls fork it
ships with (`orcax/rustls-fork/`), and proves what that code guarantees on every input and in
every run. `dafny verify dfyconfig.toml` checks the whole project.

Each file holds one component. Code that changes things step by step is a class or a method with
loops, proved equal to a function or a state machine over values; the main theorems are about
those, so they speak about whole runs.

| file | component |
|---|---|
| `vision.dfy` | the Vision padding protocol: a resumable unpadder and its writers |
| `ticketer.dfy` | rotation of ticket keys by concurrent calls |
| `vecbuf.dfy`, `record_layer.dfy`, `common_state.dfy` | the TLS sending path: chunk queue, nonces, records, deferred key updates |
| `limited_cache.dfy`, `session_store.dfy` | the bounded cache and the client's session store |
| `transcript.dfy`, `client_hs.dfy` | the client's wait for a ServerHello, with its transcript |
| `client_hello.dfy`, `reality.dfy` | the ClientHello parser and Reality authentication |
| `orca.dfy`, `addons.dfy`, `whitelist.dfy` | frame, address and addon codecs, domain matching |
| `bytes.dfy` | bytes, big-endian numbers, concatenation |

## Main results

- **Vision.** Feeding a wire string in any chunks equals feeding it in one call and equals a
  byte-at-a-time machine. Every framed stream is recovered. A run of `PadState` writes is
  recovered whenever the first payload is below 2 GiB: one that overflows the 16-bit length field
  gets no padding, and its uncovered rest passes raw. From there on the 32-bit arithmetic truncates
  the length. Whether every draw of padding is recovered is decided exactly by the first payload's
  length, and a 4 GiB payload whose head is lost is given. A continuing frame is recovered exactly
  when its length fits.
- **Ticket keys.** In every interleaving, with any generator failures, rolls are more than one
  lifetime apart, the two slots hold the last two reigns, no key reigns twice, and a ticket stops
  opening only after a roll later than its issue time plus the lifetime. The comment that tickets
  are accepted for no longer than twice the lifetime does not hold: a run is given. From any
  reachable state on it holds exactly when the ticket's key is gone, or was demoted by a roll
  within one lifetime of the issue, or the bound lies beyond the clock; a current key can be used
  at any later time.
- **Sending.** In every run the plaintext on the wire followed by the buffer is exactly what
  callers were told was accepted. The wire carries records in encryption order exactly when every
  non-empty message that bypasses the key-update queue was sent while it was empty; a run in which
  an alert overtakes a key update is given. In order or not, every encrypted record is on the wire
  or queued exactly once, and no two share key and nonce.
- **Session store.** Every inserted ticket is returned, held or dropped, exactly once; inserted
  tickets come back newest first, the last eight of them. The cache keeps exactly the last
  capacity - 1 insertions. A store for eight sessions, the size the client
  asks for, never returns a ticket, although its comment promises eight; a store for more does.
- **Client hello phase.** A run accepts if and only if it is an agreeable ServerHello, or one legal
  HelloRetryRequest and a ServerHello agreeable after it, with the transcript of section 4.4.1 of
  RFC 8446. After a retry the version is TLS 1.3 exactly when the retry named a TLS 1.3 suite; a
  run that ends in TLS 1.2 is given.
- **Reality.** The parser reads every well-formed hello exactly. Client and server agree on the
  associated data for every hello the parser accepts, so the verdict depends only on the lists
  and the clocks.
- **Codecs.** Frame streams, addresses, varints and addons round-trip; the two padding strippers
  and a whole stream of padded frames are characterised by if-and-only-if conditions; whitelist
  matching is matching of label suffixes.

## Modelling conventions

- Random numbers, clocks, hash functions, AEAD, key derivation, UTF-8 validity, IP parsing and
  the socket writer are parameters. Of the AEAD only "open undoes seal" and a 16-byte tag are used.
- Fixed-width effects that matter are written out: truncated lengths, 32-bit timestamps, 64-bit
  saturation and shifts. Shifts and `or` on disjoint bits are written as sums.
- A failed assertion or `unwrap` is a precondition of the method, or a run that does not happen
  (`None`), or the outcome `Failed(Panic)`, which is proved unreachable.
- Overflowing 32-bit sums wrap around, as in a release build.
- How much room the allocator grants a queue is a parameter: at least what was asked for. The
  results about stores of a given size take exactly that.
- Built-in whitelist domains are a parameter of the whitelist.

## Model

| member | source | states |
|---|---|---|
| `Vision.CommandFromByte` | orcax/transport/src/vision.rs:126-135 | 0 continues, 1 ends, 2 goes direct, and every other byte is unknown |
| `Vision.UnpadState.constructor` | orcax/transport/src/vision.rs:203-216 | starts the reference machine |
| `Vision.UnpadState.TakeUuid` | orcax/transport/src/vision.rs:243-259 | the accumulated UUID prefix is judged at its sixteenth byte, however it is split |
| `Vision.UnpadState.ReadHeaderByte` | orcax/transport/src/vision.rs:268-279 | one header byte moves the machine by one step and keeps both lengths in range |
| `Vision.UnpadState.ReadSome` | orcax/transport/src/vision.rs:268-291 | a loop round always consumes bytes, and a slice copied at once equals that many single steps |
| `Vision.UnpadState.EndFrame` | orcax/transport/src/vision.rs:293-338 | the command of a finished frame decides state and error |
| `Vision.UnpadState.Feed` | orcax/transport/src/vision.rs:231-341 | output, final state and error equal those of the byte-at-a-time machine |
| `Vision.RunSplit` | orcax/transport/src/vision.rs:235-240 | running a string equals running a prefix, then the rest from the state reached |
| `Vision.ChunkingInvariance` | orcax/transport/src/vision.rs:235-240 | feeding any list of chunks up to the first error equals feeding their concatenation |
| `Vision.PaddingBounds` | orcax/transport/src/vision.rs:457-470 | below 2 GiB the frame stays within 2048 bytes and content that fills it gets no padding, for every seed; short content gets at least the base length when the seed's sums do not overflow |
| `Vision.EncodeFrame` | orcax/transport/src/vision.rs:449-492 | prefix, header with truncated lengths, payload, then exactly the drawn noise; a panic when the buffer size computed from the truncated length is impossible |
| `Vision.PadState.constructor` | orcax/transport/src/vision.rs:369-372 | nothing written yet |
| `Vision.PadState.Wrap` | orcax/transport/src/vision.rs:376-393 | the first call frames with End, later calls pass through |
| `Vision.PadState.IntoDirect` | orcax/transport/src/vision.rs:409-426 | the first call frames with Direct, later calls pass through |
| `Vision.RunFrame` | orcax/transport/src/vision.rs:10-22 | a frame with 16-bit lengths yields its payload and the next boundary state |
| `Vision.RunBadFrame` | orcax/transport/src/vision.rs:334-338 | a frame with any other command byte delivers its payload and then fails with that byte |
| `Vision.RunOversizedFrame` | orcax/transport/src/vision.rs:479-484 | of a longer payload only the low 16 bits of the length are honoured, for every command |
| `Vision.RunLastFrame` | orcax/transport/src/vision.rs:305-333 | after End or Direct no byte is lost at any payload length |
| `Vision.RunPaddedLastFrame` | orcax/transport/src/vision.rs:268-333 | a last frame of any content and padding lengths: both length fields keep 16 bits, and what they do not cover passes raw |
| `Vision.ContinueExactly` | orcax/transport/src/vision.rs:479-484 | a Continue frame by itself is recovered iff its payload is shorter than 65536 bytes |
| `Vision.OversizedContinueFails` | orcax/transport/src/vision.rs:299-304 | after Continue a 65536-byte payload can be rejected |
| `Vision.RoundTrip` | orcax/transport/src/vision.rs:10-28 | UUID, Continue frames, a terminating frame and a raw tail, cut anyhow, give the payloads and the tail; direct iff the last command was Direct |
| `Vision.WrongUuidFails` | orcax/transport/src/vision.rs:243-259 | a stream that does not begin with the UUID fails without output, however it is cut |
| `Vision.PeerRecoversWrites` | orcax/transport/src/vision.rs:369-427 | every run of writes whose first payload is below 2 GiB is recovered, under any cutting; done iff something was written, direct iff the first write was Direct |
| `Vision.PeerRecoversExactly` | orcax/transport/src/vision.rs:369-492 | for every first payload and all later writes: recovered under every draw of padding that returns and every cutting iff the length is below 65536, or truncates to at least 2027, or to less than -276, where every draw panics |
| `Vision.LongWriteFails` | orcax/transport/src/vision.rs:458-470 | a first payload of 2^32 bytes, one and then zeros, is not recovered |
| `Ticketer.TicketSwitcherState.constructor` | orcax/rustls-fork/rustls/src/ticketer.rs:38-54 | first key current, one in reserve, switch time saturating |
| `Ticketer.TicketSwitcherState.EnterSection` | orcax/rustls-fork/rustls/src/ticketer.rs:94-112 | the first critical section: nothing until the switch time, else a roll or the decision to recover |
| `Ticketer.TicketSwitcherState.InstallSection` | orcax/rustls-fork/rustls/src/ticketer.rs:114-133 | the second critical section: installs the reserve and rolls only if recovery is still due |
| `Ticketer.TicketSwitcherState.Decrypt` | orcax/rustls-fork/rustls/src/ticketer.rs:152-165 | opens tickets of the current and the previous key and no others |
| `Ticketer.StepRolls` | orcax/rustls-fork/rustls/src/ticketer.rs:96-133 | a step of any thread rolls at most once, and only after the switch time |
| `Ticketer.StepIssues` | orcax/rustls-fork/rustls/src/ticketer.rs:146-150 | tickets are issued under the current key and no later than the switch time |
| `Ticketer.StepOpens` | orcax/rustls-fork/rustls/src/ticketer.rs:152-165 | a ticket is opened under the state the call leaves, no later than its switch time |
| `Ticketer.CallCompletes` | orcax/rustls-fork/rustls/src/ticketer.rs:65-165 | which steps end a call, and that it then does exactly what it was called for; a failed generator call does nothing |
| `Ticketer.InstallFillsReserve` | orcax/rustls-fork/rustls/src/ticketer.rs:114-133 | the first key handed to a call goes into the reserve; a recovering call that is still late makes the second one current |
| `Ticketer.LateCallTakesReserve` | orcax/rustls-fork/rustls/src/ticketer.rs:96-108 | a late call makes the reserve current, demotes the current key and sets the next switch time |
| `Ticketer.ReserveIsFilled` | orcax/rustls-fork/rustls/src/ticketer.rs:65-134 | in every reachable state an empty reserve means a call that rolled is in flight or a generator call has failed since the last install |
| `Ticketer.NextLateCallRolls` | orcax/rustls-fork/rustls/src/ticketer.rs:65-134 | after a run without failures in which all calls returned, the reserve is filled and the next late call rolls at once |
| `Ticketer.StepKeepsInv` | orcax/rustls-fork/rustls/src/ticketer.rs:65-134 | every step of every thread keeps the times, the slots and the place of each key |
| `Ticketer.RollsAreSpaced` | orcax/rustls-fork/rustls/src/ticketer.rs:56-134 | in every reachable state rolls are more than a lifetime apart, the slots hold the last two reigns, no key reigns twice, and exactly the last two open tickets |
| `Ticketer.TicketOutlivesLifetime` | orcax/rustls-fork/rustls/src/ticketer.rs:146-165 | a ticket of time t fails to open only after a roll later than t plus the lifetime |
| `Ticketer.UpperBoundExactly` | orcax/rustls-fork/rustls/src/ticketer.rs:34-36 | from any reachable state on, every later opening of a ticket is within twice the lifetime iff its key is gone, or was demoted by a roll within one lifetime of the issue, or the bound is beyond the clock |
| `Ticketer.CurrentOpensAnyTime` | orcax/rustls-fork/rustls/src/ticketer.rs:65-165 | while its key is current, some run from the state opens a ticket at any given time |
| `Ticketer.DemotedIsBounded` | orcax/rustls-fork/rustls/src/ticketer.rs:65-165 | in every run, a demoted key is used no later than the switch time of its demotion, and a key that is gone never |
| `Ticketer.UpperBoundFails` | orcax/rustls-fork/rustls/src/ticketer.rs:34-36 | a run in which a ticket of time 10 with lifetime 10 opens at time 1000 |
| `VecBuf.Fitting` | orcax/rustls-fork/rustls/src/vecbuf.rs:55-65 | takes as much as possible without passing the limit |
| `VecBuf.ChunkVecBuffer.constructor` | orcax/rustls-fork/rustls/src/vecbuf.rs:17-22 | an empty queue |
| `VecBuf.ChunkVecBuffer.SetLimit` | orcax/rustls-fork/rustls/src/vecbuf.rs:31-33 | the new limit, with the queue unchanged |
| `VecBuf.ChunkVecBuffer.IsEmpty` | orcax/rustls-fork/rustls/src/vecbuf.rs:36-38 | no chunks iff no bytes |
| `VecBuf.ChunkVecBuffer.IsFull` | orcax/rustls-fork/rustls/src/vecbuf.rs:40-44 | true iff a limit is exceeded |
| `VecBuf.ChunkVecBuffer.Len` | orcax/rustls-fork/rustls/src/vecbuf.rs:47-53 | the flat length |
| `VecBuf.ChunkVecBuffer.ApplyLimit` | orcax/rustls-fork/rustls/src/vecbuf.rs:58-65 | what fits beside the flat contents |
| `VecBuf.ChunkVecBuffer.Append` | orcax/rustls-fork/rustls/src/vecbuf.rs:76-84 | appends to the flat queue, never an empty chunk |
| `VecBuf.ChunkVecBuffer.AppendLimitedCopy` | orcax/rustls-fork/rustls/src/vecbuf.rs:69-73 | appends the accepted prefix and keeps a total that was within the limit within it |
| `VecBuf.ChunkVecBuffer.Pop` | orcax/rustls-fork/rustls/src/vecbuf.rs:88-90 | removes the first chunk, which is not empty |
| `VecBuf.ChunkVecBuffer.Consume` | orcax/rustls-fork/rustls/src/vecbuf.rs:122-132 | drops exactly that many bytes of the flat queue |
| `VecBuf.ChunkVecBuffer.Read` | orcax/rustls-fork/rustls/src/vecbuf.rs:94-107 | delivers and removes the longest prefix that fits, leaving the rest of the buffer alone |
| `VecBuf.ChunkVecBuffer.WriteTo` | orcax/rustls-fork/rustls/src/vecbuf.rs:135-148 | offers a prefix of at most 64 chunks and removes exactly the bytes accepted, none on an error |
| `Records.NewNonce` | orcax/rustls-fork/rustls/src/crypto/cipher.rs:189-207 | IV xor the 96-bit big-endian sequence number |
| `Records.XorCancel` | orcax/rustls-fork/rustls/src/crypto/cipher.rs:198-204 | xor with the same bits undoes itself |
| `Records.NonceInjective` | orcax/rustls-fork/rustls/src/crypto/cipher.rs:186-192 | under one IV different 64-bit sequence numbers give different nonces |
| `Records.NonceBits` | orcax/rustls-fork/rustls/src/crypto/cipher.rs:189-207 | the twelve bytes before the xor are the sequence number in base 256, and every bit of the nonce is flipped exactly where the IV has a 1 |
| `Records.RecordLayer.constructor` | orcax/rustls-fork/rustls/src/record_layer.rs:43-54 | no key, sequence number 0 |
| `Records.RecordLayer.PrepareMessageEncrypter` | orcax/rustls-fork/rustls/src/record_layer.rs:119-125 | installs a key that is not yet used and restarts the sequence |
| `Records.RecordLayer.StartEncrypting` | orcax/rustls-fork/rustls/src/record_layer.rs:137-140 | activates a prepared key |
| `Records.RecordLayer.SetMessageEncrypter` | orcax/rustls-fork/rustls/src/record_layer.rs:151-154 | installs and activates |
| `Records.RecordLayer.EncryptOutgoing` | orcax/rustls-fork/rustls/src/record_layer.rs:109-117 | uses the installed key with the next sequence number |
| `Records.RunKeepsLayerInv` | orcax/rustls-fork/rustls/src/record_layer.rs:109-154 | in every run encryptions strictly increase in key epoch and sequence number, below the hard limit |
| `Records.NoncesAreUnique` | orcax/rustls-fork/rustls/src/record_layer.rs:109-154 | in every run with fresh keys no key is used twice with one nonce and the counter never wraps |
| `Sending.Fragments` | orcax/rustls-fork/rustls/src/msgs/fragmenter.rs:33-48 | no fragment is empty or longer than the maximum |
| `Sending.FragmentsJoin` | orcax/rustls-fork/rustls/src/msgs/fragmenter.rs:33-48 | the fragments joined are the data |
| `Sending.CommonState.constructor` | orcax/rustls-fork/rustls/src/common_state.rs:55-80 | nothing pending, queued or sent |
| `Sending.CommonState.QueueTlsMessage` | orcax/rustls-fork/rustls/src/common_state.rs:372-375 | the outgoing bytes stay the encodings of the records on the wire |
| `Sending.CommonState.SendSingleFragment` | orcax/rustls-fork/rustls/src/common_state.rs:252-270 | one record with the next mark, or nothing once the key is exhausted |
| `Sending.CommonState.SendFragments` | orcax/rustls-fork/rustls/src/common_state.rs:240-247 | the fragments in order, one record each |
| `Sending.CommonState.PerhapsWriteKeyUpdate` | orcax/rustls-fork/rustls/src/common_state.rs:568-572 | the queued record goes on the wire and the queue is empty |
| `Sending.CommonState.SendPlainLimited` | orcax/rustls-fork/rustls/src/common_state.rs:272-300 | buffers before and encrypts after the handshake, accepting what the right buffer's limit allows |
| `Sending.CommonState.SendSomePlaintext` | orcax/rustls-fork/rustls/src/common_state.rs:179-187 | a write step: queued key update first, then the accepted prefix |
| `Sending.CommonState.StartOutgoingTraffic` | orcax/rustls-fork/rustls/src/common_state.rs:302-370 | everything pending is encrypted in order, ignoring the limit |
| `Sending.CommonState.ShouldUpdateKey` | orcax/rustls-fork/rustls/src/common_state.rs:545-557 | yes exactly for a request while nothing is queued; a fatal alert and an error for an unknown request, no change otherwise |
| `Sending.CommonState.UpdateEncrypterAndNotify` | orcax/rustls-fork/rustls/src/tls13/key_schedule.rs:465-469 | the notification is sealed under the old key and queued, the sequence restarts under the new one |
| `Sending.CommonState.HandleKeyUpdate` | orcax/rustls-fork/rustls/src/client/tls13.rs:983-1006 | a key-update step for a request, a fatal alert for an unknown one, no change otherwise |
| `Sending.CommonState.SendMsgEncrypt` | orcax/rustls-fork/rustls/src/common_state.rs:216-225 | a message step: records straight to the wire |
| `Sending.CommonState.WriteTls` | orcax/rustls-fork/rustls/src/conn.rs:548-550 | what has left is always a prefix of the encoded records |
| `Sending.StepKeeps` | orcax/rustls-fork/rustls/src/common_state.rs:184-305 | every call keeps wire order, a non-empty direct message if no key update is queued |
| `Sending.WireOrder` | orcax/rustls-fork/rustls/src/common_state.rs:545-572 | in every run, the wire followed by the queued key update is strictly increasing in epoch and sequence number iff every non-empty direct message found no key update queued; it is then exactly what was encrypted |
| `Sending.WireOrderFails` | orcax/rustls-fork/rustls/src/common_state.rs:545-572 | a run in which the alert for an unknown key-update request overtakes a queued key update |
| `Sending.NothingIsLost` | orcax/rustls-fork/rustls/src/common_state.rs:184-572 | in every run, in order or not, the wire and the queue together hold exactly the encrypted records, each once |
| `Sending.RecordNoncesAreUnique` | orcax/rustls-fork/rustls/src/common_state.rs:184-572 | in every run with fresh keys no two records share key and nonce |
| `Sending.PlaintextConserved` | orcax/rustls-fork/rustls/src/common_state.rs:228-370 | in every run the application bytes of the records followed by the buffer are exactly the accepted prefixes, and the records alone once outgoing traffic has started |
| `Sending.StepConserves` | orcax/rustls-fork/rustls/src/common_state.rs:184-370 | every call conserves plaintext, in or out of order |
| `Sending.MessagesAreSent` | orcax/rustls-fork/rustls/src/common_state.rs:216-225 | in every run the handshake messages and alerts, and the key updates among them, are encrypted whole and in order |
| `Sending.KeyUpdateChangesKey` | orcax/rustls-fork/rustls/src/tls13/key_schedule.rs:465-469 | a key update is announced under the old key, and what follows is sealed with the next key from sequence number 0 |
| `Sending.WriteFlushes` | orcax/rustls-fork/rustls/src/common_state.rs:184-187 | a write puts a queued key update on the wire before its own records, even if it writes nothing |
| `Sending.MessageOrderExactly` | orcax/rustls-fork/rustls/src/common_state.rs:378-408 | a message sent directly keeps the order iff it is empty or nothing is queued |
| `Cache.LimitedCache.constructor` | orcax/rustls-fork/rustls/src/limited_cache.rs:28-33 | an empty cache, with whatever room the allocator grants |
| `Cache.LimitedCache.Insert` | orcax/rustls-fork/rustls/src/limited_cache.rs:57-79 | map and queue together do what the plain FIFO does; updates do not reorder |
| `Cache.LimitedCache.EvictOldest` | orcax/rustls-fork/rustls/src/limited_cache.rs:73-78 | the oldest entry leaves both |
| `Cache.LimitedCache.Get` | orcax/rustls-fork/rustls/src/limited_cache.rs:81-87 | finds what the FIFO holds |
| `Cache.LimitedCache.GetOrInsertDefaultAndEdit` | orcax/rustls-fork/rustls/src/limited_cache.rs:35-55 | edits the entry, or a default inserted as the newest |
| `Cache.LimitedCache.GetMutAndEdit` | orcax/rustls-fork/rustls/src/limited_cache.rs:89-95 | changes the value in place and nothing else |
| `Cache.LimitedCache.Remove` | orcax/rustls-fork/rustls/src/limited_cache.rs:97-115 | removes the entry from both and keeps the order of the others |
| `Cache.Replay` | orcax/rustls-fork/rustls/src/limited_cache.rs:28-116 | the cache, taken through any run of calls from the start, holds what the FIFO holds after that run |
| `Cache.StepFifoExactly` | orcax/rustls-fork/rustls/src/limited_cache.rs:35-116 | what every call does to the value found under every key, evictions included |
| `Cache.RunKeepsFifoInv` | orcax/rustls-fork/rustls/src/limited_cache.rs:35-116 | after every run keys are distinct, in first-insertion order, at most capacity - 1 |
| `Cache.NewestSurvive` | orcax/rustls-fork/rustls/src/limited_cache.rs:7-13 | without removals exactly the last capacity - 1 insertions survive |
| `Sessions.ClientSessionMemoryCache.constructor` | orcax/rustls-fork/rustls/src/client/handy.rs:76-84 | an empty store that asks for room for its sessions in groups of eight, rounded up |
| `Sessions.ClientSessionMemoryCache.SetKxHintFor` | orcax/rustls-fork/rustls/src/client/handy.rs:88-93 | the server's entry, created if absent, has the hint and keeps the rest; the oldest server may leave |
| `Sessions.ClientSessionMemoryCache.KxHint` | orcax/rustls-fork/rustls/src/client/handy.rs:95-101 | the server's hint, if it has one |
| `Sessions.ClientSessionMemoryCache.SetTls12Session` | orcax/rustls-fork/rustls/src/client/handy.rs:103-113 | the server's entry, created if absent, has the session and keeps the rest; the oldest server may leave |
| `Sessions.ClientSessionMemoryCache.Tls12Session` | orcax/rustls-fork/rustls/src/client/handy.rs:115-128 | the server's TLS 1.2 session, if it has one |
| `Sessions.ClientSessionMemoryCache.RemoveTls12Session` | orcax/rustls-fork/rustls/src/client/handy.rs:130-137 | an existing entry loses its TLS 1.2 session and nothing else; no entry is created |
| `Sessions.ClientSessionMemoryCache.InsertTls13Ticket` | orcax/rustls-fork/rustls/src/client/handy.rs:139-153 | adds the newest ticket, the oldest of eight making room |
| `Sessions.ClientSessionMemoryCache.TakeTls13Ticket` | orcax/rustls-fork/rustls/src/client/handy.rs:155-164 | returns and removes the last ticket |
| `Sessions.Replay` | orcax/rustls-fork/rustls/src/client/handy.rs:78-164 | the store, taken through any run of calls from the start, ends and returns tickets as the run says |
| `Sessions.StepKeepsStoreInv` | orcax/rustls-fork/rustls/src/client/handy.rs:88-164 | every call keeps the cache bounds and at most eight tickets a server |
| `Sessions.StepExactly` | orcax/rustls-fork/rustls/src/client/handy.rs:88-164 | hint, session and tickets of every server after every call, by its data before; a ninth ticket pushes out the oldest |
| `Sessions.TicketsAreConserved` | orcax/rustls-fork/rustls/src/client/handy.rs:139-164 | in every run the tickets returned, held and dropped are exactly those inserted; only the oldest of eight or an evicted server's are dropped |
| `Sessions.InsertsThenTakes` | orcax/rustls-fork/rustls/src/client/handy.rs:139-164 | tickets inserted for a server without any and then taken come back newest first, the last eight of them and no more |
| `Sessions.TicketsAreSingleUse` | orcax/rustls-fork/rustls/src/client/handy.rs:139-164 | in every run, tickets returned and held together are among those inserted, counted with multiplicity |
| `Sessions.StoreIsBounded` | orcax/rustls-fork/rustls/src/client/handy.rs:76-84 | after every run fewer servers than there is room for, at most eight tickets each; with exactly the room asked for, fewer tickets than the size |
| `Sessions.SmallStoreReturnsNothing` | orcax/client/src/main.rs:155-162 | a store for at most eight sessions returns no ticket in any run |
| `Sessions.InsertThenTake` | orcax/rustls-fork/rustls/src/client/handy.rs:76-84 | in every state, a ticket just inserted is what a take returns iff the store is for more than eight sessions |
| `Sessions.TakeReturnsNewest` | orcax/rustls-fork/rustls/src/client/handy.rs:52-53 | after every run a take returns the latest inserted ticket the server still has |
| `Transcripts.HandshakeHashBuffer.constructor` | orcax/rustls-fork/rustls/src/hash_hs.rs:22-27 | an empty transcript without client authentication |
| `Transcripts.HandshakeHashBuffer.SetClientAuthEnabled` | orcax/rustls-fork/rustls/src/hash_hs.rs:31-33 | the buffer will be kept |
| `Transcripts.HandshakeHashBuffer.AddMessage` | orcax/rustls-fork/rustls/src/hash_hs.rs:35-41 | appends the encoding |
| `Transcripts.HandshakeHashBuffer.StartHash` | orcax/rustls-fork/rustls/src/hash_hs.rs:61-73 | the hash has absorbed the buffer, which is kept only for client authentication |
| `Transcripts.HandshakeHash.AbandonClientAuth` | orcax/rustls-fork/rustls/src/hash_hs.rs:94-96 | the kept copy is dropped, the hash is not |
| `Transcripts.HandshakeHash.AddMessage` | orcax/rustls-fork/rustls/src/hash_hs.rs:98-115 | absorbs the encoding and extends the kept copy |
| `Transcripts.HandshakeHash.IntoHrrBuffer` | orcax/rustls-fork/rustls/src/hash_hs.rs:125-134 | a buffer that starts with the message carrying the hash so far |
| `Transcripts.HandshakeHash.RollupForHrr` | orcax/rustls-fork/rustls/src/hash_hs.rs:136-148 | a running hash that starts with that message |
| `Transcripts.MessageHashFields` | orcax/rustls-fork/rustls/src/msgs/handshake.rs:2270-2275 | the hash message has type 254, the hash's length in 24 bits, and the hash as content |
| `Transcripts.BothSidesRetry` | orcax/rustls-fork/rustls/src/hash_hs.rs:125-148 | the client's and the server's way give the same transcript, that of section 4.4.1 of RFC 8446 |
| `ClientHandshake.FindSuite` | orcax/rustls-fork/rustls/src/client/client_conn.rs:314-320 | finds a configured suite with the id iff there is one |
| `ClientHandshake.AcceptedVersionExactly` | orcax/rustls-fork/rustls/src/client/hs.rs:489-529 | the accepted version is TLS 1.3 iff the hello says so in its extension under legacy version TLS 1.2 or in its legacy version, and TLS 1.2 iff that is its legacy version and there is no extension |
| `ClientHandshake.OrdinaryTls13IsAccepted` | orcax/rustls-fork/rustls/src/client/hs.rs:479-615 | every ordinary TLS 1.3 hello with an offered suite is accepted, with its transcript |
| `ClientHandshake.RetryExactly` | orcax/rustls-fork/rustls/src/client/hs.rs:677-842 | a retry is followed iff it is legal, and leaves the state in which no second retry is followed |
| `ClientHandshake.AcceptingRuns` | orcax/rustls-fork/rustls/src/client/hs.rs:479-873 | a run accepts iff it is an agreeable hello, or one legal retry and a hello agreeable after it, in terms of configuration and message fields; what it accepts is that hello's version and suite, with the transcript of all messages |
| `ClientHandshake.RefusalIsTrue` | orcax/rustls-fork/rustls/src/client/hs.rs:479-842 | a refusal names something that is wrong with the message, and nothing that is looked for before it is |
| `ClientHandshake.RetryVersionExactly` | orcax/rustls-fork/rustls/src/client/hs.rs:785-808 | after a retry the accepted version is TLS 1.3 iff the retry's suite is |
| `ClientHandshake.RetryCanEndInTls12` | orcax/rustls-fork/rustls/src/client/hs.rs:785-808 | a retry with a TLS 1.2 suite and a TLS 1.2 hello, both as parsing can yield them, are accepted |
| `ClientHandshake.NeverPanics` | orcax/rustls-fork/rustls/src/client/hs.rs:643-695 | the key share is present wherever it is unwrapped |
| `ClientHello.ParseKeyShareData` | orcax/transport/src/client_hello.rs:158-187 | the scan of key-share entries, within bounds on every input |
| `ClientHello.ParseExtensions` | orcax/transport/src/client_hello.rs:97-127 | the scan of extensions, within bounds on every input |
| `ClientHello.ParseSuites` | orcax/transport/src/client_hello.rs:80-83 | the suites as big-endian pairs |
| `ClientHello.ParseBodyTail` | orcax/transport/src/client_hello.rs:71-127 | suites, compression and extensions |
| `ClientHello.ParseHelloBody` | orcax/transport/src/client_hello.rs:41-69 | version, random, session id and the rest |
| `ClientHello.ParseClientHello` | orcax/transport/src/client_hello.rs:24-138 | parses every input without leaving its bounds |
| `ClientHello.AcceptedHellos` | orcax/transport/src/client_hello.rs:24-95 | which inputs are accepted at all, by absolute positions |
| `ClientHello.SharesInverse` | orcax/transport/src/client_hello.rs:158-187 | of serialized entries, the first x25519 one of 32 bytes |
| `ClientHello.SharesThenTail` | orcax/transport/src/client_hello.rs:158-187 | the same with anything behind the announced end, or an entry cut short |
| `ClientHello.SniInverse` | orcax/transport/src/client_hello.rs:140-156 | of a serialized name list, the first name if it is a valid host name |
| `ClientHello.ExtensionsInverse` | orcax/transport/src/client_hello.rs:102-126 | of serialized extensions, the last server name and the last key share |
| `ClientHello.ExtensionsThenTail` | orcax/transport/src/client_hello.rs:97-127 | the same with anything behind the announced end, or an extension cut short |
| `ClientHello.HelloInverse` | orcax/transport/src/client_hello.rs:22-138 | every well-formed hello, whatever follows it, is parsed to exactly its fields |
| `ClientHello.TruncatedHello` | orcax/transport/src/client_hello.rs:24-38 | a hello cut short anywhere is refused |
| `Reality.ZeroRange` | orcax/transport/src/reality.rs:89-91 | zeroes the range and nothing else |
| `Reality.EncryptSessionIdWithKey` | orcax/rustls-fork/rustls/src/reality.rs:92-139 | 32 bytes: version 0, time and short id sealed with the zeroed hello as associated data |
| `Reality.VerifyClientHello` | orcax/transport/src/reality.rs:45-160 | the checks in the order of the code, with its refusals |
| `Reality.EarlyRefusals` | orcax/transport/src/reality.rs:50-94 | an unlisted name, a missing key share, a session id of another length and a short hello are refused, each whatever comes after it |
| `Reality.VerdictExactly` | orcax/transport/src/reality.rs:96-159 | otherwise the verdict is decided by what the session id opens to under the zeroed hello: accepted iff 16 bytes, listed short id and agreeing clock, with exactly its fields |
| `Reality.ParseIgnoresSessionId` | orcax/transport/src/client_hello.rs:57-69 | other session-id bytes change nothing else that is parsed |
| `Reality.SameAssociatedData` | orcax/transport/src/reality.rs:79-94 | both sides compute the same associated data for any session-id bytes |
| `Reality.RealityAgreement` | orcax/transport/src/reality.rs:96-159 | the verdict on a sealed hello is decided by short id and clocks, and yields exactly what was sealed |
| `Reality.HexInverse` | orcax/transport/src/reality.rs:193-195 | decoding undoes hex encoding |
| `Reality.ShortIdAgreement` | orcax/transport/src/reality.rs:192-201 | server and client agree on a short id iff it has at most eight bytes |
| `Orca.FrameTypeFromByte` | orcax/protocol/src/orca.rs:91-106 | the only frame type with that byte; unknown exactly above 8 |
| `Orca.TypeBytes` | orcax/protocol/src/orca.rs:91-106 | the nine types in the order of their bytes; any other byte is an error |
| `Orca.FrameLayout` | orcax/protocol/src/orca.rs:247-258 | type, flags, 32-bit stream id and 16-bit length in network order, then the payload |
| `Orca.DecodeEncode` | orcax/protocol/src/orca.rs:247-295 | one encoded frame is decoded from the front of any stream, padding stripped |
| `Orca.TruncatedFrame` | orcax/protocol/src/orca.rs:261-279 | a frame cut anywhere is an error |
| `Orca.FrameStream` | orcax/protocol/src/orca.rs:247-295 | concatenated unpadded frames decode to themselves |
| `Orca.ParseTarget` | orcax/protocol/src/address.rs:20-68 | consumes no more than it is given |
| `Orca.TargetErrors` | orcax/protocol/src/address.rs:24-68 | which bytes are a target, and what each error means |
| `Orca.TargetRoundTrip` | orcax/protocol/src/orca.rs:143-170 | a StreamOpen target is recovered with the rest untouched iff a domain has at most 255 bytes |
| `Orca.TargetLayout` | orcax/protocol/src/orca.rs:143-170 | command 1, port in network order, address types 1, 2 and 3 |
| `Orca.TruncatedTarget` | orcax/protocol/src/address.rs:24-68 | a target cut short anywhere is the error of the missing part |
| `Orca.StreamOpenRoundTrip` | orcax/protocol/src/orca.rs:143-295 | encoding a StreamOpen frame, decoding it and parsing its target gives stream id, target and the rest iff a domain has at most 255 bytes |
| `Orca.WithPadding` | orcax/protocol/src/orca.rs:297-310 | sets the flag and appends noise whose last byte is its length |
| `Orca.ClientStripExactly` | orcax/client/src/main.rs:395-399 | when exactly the client reader returns the payload, for every payload and pad length |
| `Orca.DecodeStripExactly` | orcax/protocol/src/orca.rs:281-287 | when exactly `Frame::decode` does; with 1 to 255 bytes of padding it loses the last payload byte |
| `Orca.ReadersDisagree` | orcax/protocol/src/orca.rs:281-310 | on the same wire bytes one reader loses a byte and the other none |
| `Orca.ReadFrames` | orcax/client/src/main.rs:380-412 | the reader loop sees exactly the whole frames of a stream |
| `Orca.ReaderRecoversExactly` | orcax/client/src/main.rs:380-412 | of any stream of frames, padded or not, and a frame cut short behind them, the reader sees exactly what each frame's type says iff every frame is harmless, a condition on type, flags, payload and padding length |
| `Orca.HarmlessExactly` | orcax/client/src/main.rs:393-412 | one padded or unpadded frame gives the event its type stands for iff it is harmless |
| `VlessAddons.ReadVarint` | orcax/protocol/src/addons.rs:98-112 | at most ten seven-bit groups, in a 64-bit word |
| `VlessAddons.VarintInverse` | orcax/protocol/src/addons.rs:98-112 | undoes the encoding of every 64-bit value and consumes exactly its bytes |
| `VlessAddons.UnendedVarint` | orcax/protocol/src/addons.rs:98-112 | no number is read exactly when none of the first ten bytes ends it |
| `VlessAddons.ParseField` | orcax/protocol/src/addons.rs:53-92 | one field, or a stop at what cannot be read |
| `VlessAddons.Parse` | orcax/protocol/src/addons.rs:46-95 | terminates on every input with the scan's result |
| `VlessAddons.FieldInverse` | orcax/protocol/src/addons.rs:60-92 | a well-formed field is read whole, whatever follows |
| `VlessAddons.ParseFindsLastFlow` | orcax/protocol/src/addons.rs:46-95 | of any well-formed fields in any order, the last valid Flow or the empty string |
| `VlessAddons.MalformedFieldStops` | orcax/protocol/src/addons.rs:53-92 | an unreadable field stops the scan, and what was found before it stands |
| `Whitelisting.SuffixIsLabelSuffix` | orcax/client/src/whitelist.rs:114-119 | the string test is exactly "the labels are a suffix" |
| `Whitelisting.LowerExactly` | orcax/client/src/whitelist.rs:87-114 | lower-casing identifies exactly the strings that differ only in ASCII case |
| `Whitelisting.CaseDoesNotMatter` | orcax/client/src/whitelist.rs:106-121 | hosts that differ only in ASCII case lie below the same domains |
| `Whitelisting.TrimExactly` | orcax/client/src/whitelist.rs:91 | trimming cuts all white space at both ends and nothing else |
| `Whitelisting.Whitelist.constructor` | orcax/client/src/whitelist.rs:81-104 | lists the built-in domains and every extra that contains a dot, lower-cased |
| `Whitelisting.Whitelist.Matches` | orcax/client/src/whitelist.rs:106-121 | for a non-IP host, true iff the labels of a built-in domain or of an accepted extra are a suffix of the host's, ignoring ASCII case |

## Left out

- Sending.CommonState.SendSingleFragment: leaves out the close at the soft limit, because there the code calls itself through `send_close_notify` without progress; runs stay below the limit.
- Sending.PlaintextConserved: direct messages are handshake messages and alerts, because application data is only ever sent through the write path.
- Closing a connection after an alert, QUIC and early data.
- The decrypting half of the record layer, including trial decryption, and `set_max_fragment_size` after the start.
- Poisoned mutexes in the ticket switcher and the session store; each critical section is one atomic step, together with the encryption or decryption done under the returned guard.
- Vision.EncodeFrame: panics on a zero modulus in the seed, and on overflow in a debug build.
- Vision.PaddingBounds: bounds from the seed's values only for values below 2^30, because larger ones overflow the code's `i32`.
- ClientHandshake: what follows an accepted ServerHello (key schedule, TLS 1.2 session resumption), QUIC, and the contents of the hellos, which are arbitrary.
- Orca.ReadFrames: the map from stream ids to channels, byte counters and logging; UDP datagrams and the authentication messages of the frame protocol.
- Sockets, tasks, SOCKS5, WebSocket and process control, the platform runners, and cryptographic primitives.
- `mux.rs`, `vless.rs` and `brutal.rs`, which would only add easy members.
- The direct-mode cutover of Vision, which the code documents as not implemented.
