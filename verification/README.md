# Model of the end-to-end secure WebSocket overlay

The repository lays an end-to-end secure channel over the WebSocket connection of an
instant-messaging client. Two users run a symmetric handshake through the server, exchange
AEAD-protected records, recover messages that arrived while no cipher was in place, and put
recovered messages back in order. This project models that logic and proves what it is
there for. `dafny verify dfyconfig.toml` checks everything.

## What is modelled

- **Recovery and reordering** (`MessageRef`, `ReorderSpec`, `ReorderRuns`, `ReorderFrames`,
  `ReorderConservation`, `ReorderProvenance`, `Reorder`, `SendCache`). The reorder state of one session is a
  transition system over its two maps; the handlers are methods of a class proved against
  it. Over every run the buffer is an in-order queue, with the exact condition under which
  a frame of several retransmitted messages breaks the order.
- **Handshake** (`Dispatch`, `HandshakeSpec`, `HandshakeRefinement`, `HandshakeRuns`,
  `HandshakeKeys`, `HandshakeExample`, `Session`). Two peers, each with a handshake goroutine and a read loop,
  over two FIFO links that carry the actual bytes. Every interleaving is covered:
  the byte-level protocol is shown to refine a machine of program counters, from which
  progress, a bound on every run, agreement and working streams afterwards follow.
- **Record layer** (`HalfConn`): the eight-byte counter, AEAD framing, the cipher switch.
- **Key agreement and formats** (`Sm2KeyExchange`, `KeyExchange`, `Cryptobyte`,
  `HandshakeMessage`, `Negotiation`, `Hmac`, `Prf`, `FinishedHash`).
- **Buffers and caches** (`ReadBio`, `WriteBio`, `RealtimeCache`).

Code that changes things in place is modelled by classes and methods with loops; each is
proved equal to a specification function, and the lemmas are about those functions.

## Assumptions

- A handler of `recovery.go` and the emission that follows it are one step. The source
  emits after it has released its lock, so two handlers running at once could interleave
  their emissions.
- Encrypting a record and sending it are one step; nothing is claimed about two writers on
  one session. Links are FIFO and lose nothing during a handshake.
- The order in which Go iterates a map is an argument (`order`), so statements hold for
  every order. The library sort is a stable insertion sort.
- One session at a time; the map from session ids to reorder states is not part of this
  model. Which session a message belongs to is (`Dispatch.Route`).
- Timers fire at any moment: expiry of a lost message is a step that may always happen.
- Points of the curve are multiples of the generator; hashes, signatures, AEADs, KEM and
  key derivation are functions with the laws stated in the `Lawful`, `Partners` and
  `KemPartners` predicates (opening undoes sealing, decapsulation undoes encapsulation,
  verification accepts what was signed, lengths).
- `prf.go` uses Go's own HMAC; `crypto/hmac/hmac.go` follows the same construction and is
  what `Hmac` models. A hash object's state is the bytes fed to it.
- A panic or a wraparound is reported as a result.

## Where the code does something one might not expect

- A retransmit frame with several messages can emit out of order
  (`ReorderRuns.TwoMessageFrameCanDisorder`); `ReorderFrames.RunInOrderExactlyWhen` gives the
  exact condition on the maps and the frame before it is handled. Frames with one message,
  the only kind a lost request asks for, never do. Nothing is lost or duplicated either way
  (`ReorderConservation.RunConserves`).
- A second message delivered under the key of a held-back one replaces it exactly while a
  lower number than its own is missing (`ReorderConservation.HeldBackVanishesExactlyWhen`).
- A suite without explicit nonce cannot be read back: the sender falls back to the record
  counter, the receiver refuses (`HalfConn.RecordRoundTrip`).
- `ReadFromOnce` slices past its capacity exactly when the buffer was released between its
  two critical sections and bytes have arrived (`ReadBio.FinishPanicsExactlyWhen`).
- Peers without a common version are not refused; the version is zero exactly then
  (`HandshakeSpec.VersionZeroExactlyWhen`, `HandshakeRuns.CompletedHolds`).
- Signature schemes and versions go out in the configured order. Two peers that order them
  differently settle on different ones exactly when the first common entry of one list is
  not that of the other (`HandshakeSpec.ChoicesDifferExactlyWhen`).
- A hello or a Finished in the place of the key exchange is not refused; it leads to an empty
  premaster secret (`HandshakeSpec.EmptyPremasterExactlyWhen`).
- The SM2 suite, though named after SM3, lacks the flag that selects it, so that its key
  derivation and Finished sums use SHA-256 (e2ewebsocket/prf.go:53-66, cipher_suites.go:112);
  the hybrid suite uses SM3 (`HandshakeKeys.HashOf`).
- After completion the two running transcripts differ, each peer having added only the
  other's Finished (`HandshakeRuns.Agreement`).
- The SM2 suite writes only the low byte of a point's length
  (`KeyExchange.ParamsReadBack`); the hybrid suite refuses such points.
- Two peers of one host can share a session id. Whether a host has such peers is decided by
  its own name alone (`Dispatch.HostCollidesExactlyWhen`): never without an underscore in it,
  whatever the peers are called; "a_b_a" is one that has.
- Messages of two conversations can share a key of the real-time cache exactly when one
  conversation's id begins with the other's and "#server:" or "#client:"
  (`RealtimeCache.ConversationsMeetExactlyWhen`).
- The second critical section of a delivery never releases anything
  (`ReorderSpec.DeliverFlushReleasesNothing`).

## Model

| member | source | states |
|---|---|---|
| `MessageRef.KeyNonEmpty` | e2ewebsocket/recovery.go:439-459 | a reference has a key exactly when it identifies its message |
| `MessageRef.MergeKeepsKeys` | e2ewebsocket/recovery.go:447-479 | completing a reference keeps every key of the one completed, in the same order |
| `MessageRef.MergeCompletes` | e2ewebsocket/recovery.go:461-479 | and takes over every key of the other of a kind that is missing |
| `MessageRef.KeysMeetExactlyWhen` | e2ewebsocket/recovery.go:447-459 | two references have a key in common exactly when they share a client id, a server id or a number |
| `MessageRef.FiledTogetherExactlyWhen` | e2ewebsocket/recovery.go:439-459 | they are filed under one key exactly when the first kind of identity that either has, client id before server id before number, is the same in both |
| `Common.DecimalInjective` | e2ewebsocket/recovery.go:455-457 | different numbers have different texts, of digits and at most a sign |
| `Common.LexLessMeans` | e2ewebsocket/conn.go:700-705 | names compare by the first character that differs, a proper prefix being smaller |
| `ReorderSpec.StepKeepsInv` | e2ewebsocket/recovery.go:121-281 | over all arrivals, frames and expiries: every held-back message is filed under its own key, has a positive number and a lower one still missing; nothing missing means nothing held back |
| `ReorderSpec.DeliverFlushReleasesNothing` | e2ewebsocket/recovery.go:207-230 | in every state that satisfies the invariant the flush inside a delivery releases nothing |
| `ReorderSpec.EmitsNothingBehindAGap` | e2ewebsocket/recovery.go:207-281 | no step emits a numbered message while a lower number is still missing |
| `ReorderSpec.BeforeIsStrictWeakOrder` | e2ewebsocket/recovery.go:248-256 | the sort's comparison is a strict weak order on everything that can be held back |
| `ReorderSpec.BeforeCanCycle` | e2ewebsocket/recovery.go:248-256 | it is not one once unnumbered messages are compared |
| `ReorderRuns.RunKeepsInv` | e2ewebsocket/recovery.go:121-388 | the invariant holds after every run |
| `ReorderRuns.RunRefinesQueue` | e2ewebsocket/recovery.go:121-388 | for increasing arrivals with distinct keys and frames that overtake nothing: what was emitted, followed by what is waiting in order of number, is the arrivals without the expired ones |
| `ReorderRuns.OrderedExactlyWhen` | e2ewebsocket/recovery.go:329-388 | over increasing arrivals the output is strictly increasing if and only if no message of a frame is let through past a held-back lower one |
| `ReorderFrames.FrameInOrderExactlyWhen` | e2ewebsocket/recovery.go:329-388 | a frame overtakes exactly when one of its messages fills a waiting shell that nothing missing is below after it, while something below is held back, by an earlier message or before: told from the maps and the frame before it is handled |
| `ReorderFrames.RunInOrderExactlyWhen` | e2ewebsocket/recovery.go:329-388 | the output of a run over increasing arrivals is strictly increasing if and only if that is true of none of its frames |
| `ReorderConservation.RunConserves` | e2ewebsocket/recovery.go:121-388 | for arrivals with distinct keys in any order and any frames: emitted references have no repeats, and with the waiting and the expired ones, all disjoint, they make up the arrivals |
| `ReorderConservation.HeldBackVanishesExactlyWhen` | e2ewebsocket/recovery.go:207-222 | an arrival makes a held-back message vanish exactly when another message is delivered under its key behind a gap |
| `ReorderConservation.MarkIgnoredExactlyWhen` | e2ewebsocket/recovery.go:121-148 | marking adds exactly the message's shell, unless it has no identity or one with the same identity is missing already |
| `ReorderRuns.SingleMessageRunsInOrder` | e2ewebsocket/recovery.go:173-178 | runs whose frames carry at most one message meet that condition |
| `ReorderRuns.TwoMessageFrameCanDisorder` | e2ewebsocket/recovery.go:329-388 | a run with 10 and 20 missing, 15 held back and a frame restoring both emits out of order |
| `ReorderProvenance.RunAccountable` | e2ewebsocket/recovery.go:207-230 | everything a run emits was delivered as it is, or rebuilt from a retransmission of a message marked lost |
| `Reorder.SortStableSorts` | e2ewebsocket/recovery.go:248-256 | the release sort permutes its input and leaves no later element before an earlier one |
| `Reorder.ReorderState.HasBlockingGapLocked` | e2ewebsocket/recovery.go:271-281 | finds out whether a lower number is missing |
| `Reorder.ReorderState.MarkLostInbound` | e2ewebsocket/recovery.go:121-156 | files a shell, as the transition system does |
| `Reorder.ReorderState.FlushReadyPendingLocked` | e2ewebsocket/recovery.go:243-269 | removes exactly the releasable messages and returns them in release order |
| `Reorder.ReorderState.ExpireLostInbound` | e2ewebsocket/recovery.go:184-205 | gives up a shell and releases what waited for nothing else |
| `Reorder.ReorderState.DeliverApplication` | e2ewebsocket/recovery.go:207-230 | emits the message, or holds it back behind a gap, as the transition system does |
| `Reorder.ReorderState.HandleRetransmit` | e2ewebsocket/recovery.go:329-388 | fills the shells a frame addresses and emits what they let through, as the transition system does |
| `SendCache.PutShape` | e2ewebsocket/recovery.go:104-118 | one write changes one entry and drops at most the oldest |
| `SendCache.CacheIsWindowOfHistory` | e2ewebsocket/recovery.go:87-119 | over any history the cache is the newest 256 insertions without repeats, each with what was last written under it |
| `SendCache.LookupIsFirstCandidate` | e2ewebsocket/recovery.go:342-356 | the four-way lookup is the first candidate key with a waiting shell |
| `SendCache.FoundExactlyWhen` | e2ewebsocket/recovery.go:417-424 | a reference is found exactly when one of its keys is cached, and by the first |
| `SendCache.RespondExactly` | e2ewebsocket/recovery.go:300-327 | a response answers in order exactly the requests that are found |
| `SendCache.RetransmissionFindsShell` | e2ewebsocket/recovery.go:342-356 | a completed reference always finds a shell, and its own exactly when none waits under an earlier key |
| `SendCache.ClientIdentifiedNeverMisdirected` | e2ewebsocket/recovery.go:447-479 | a message with a client id is never taken for another |
| `SendCache.LostRequestRoundTrip` | e2ewebsocket/recovery.go:300-327 | request, response and retransmission restore the plaintext last cached, released or held back |
| `SendCache.Sender.CacheOutboundMessage` | e2ewebsocket/recovery.go:87-119 | one write to the bounded cache |
| `SendCache.Sender.HandleLostRequest` | e2ewebsocket/recovery.go:300-327 | answers a request from the cache, completing each reference |
| `HalfConn.IncIsPlusOne` | e2ewebsocket/session.go:429-440 | the carry loop adds one to the 64-bit number except at its largest value |
| `HalfConn.RecordRoundTrip` | e2ewebsocket/session.go:232-346 | a sealed record opens to its payload at a matching peer exactly when the suite has an explicit nonce |
| `HalfConn.SealsExactlyWhen` | e2ewebsocket/session.go:292-346 | when a payload can be sent, and what that counts |
| `HalfConn.OpensExactlyWhen` | e2ewebsocket/session.go:232-290 | exactly which records are opened and what the AEAD is asked; any other leaves everything alone |
| `HalfConn.StreamBytes` | e2ewebsocket/session.go:292-346 | record k is its explicit nonce and the payload sealed under it with number k and the length in two bytes as additional data; the nonce is the eight bytes of k filled up or cut, or drawn from sixteen bytes on |
| `HalfConn.RecordStartsWithNumber` | e2ewebsocket/session.go:299-312 | with 8 to 15 nonce bytes record k starts with k in eight bytes and zeros |
| `HalfConn.NoncesDiffer` | e2ewebsocket/session.go:299-312 | no two records of a stream carry the same nonce |
| `HalfConn.Lockstep` | e2ewebsocket/session.go:232-346 | any list of payloads comes out as it went in and both counters move by its length |
| `HalfConn.PlaintextCountsDiffer` | e2ewebsocket/session.go:292-297 | before the switch only the receiver counts |
| `HalfConn.SwitchPairs` | e2ewebsocket/session.go:349-400 | a prepared cipher is in place after the switch, once, with the counter at zero, on both ends alike |
| `HalfConn.LockstepAfterSwitch` | e2ewebsocket/session.go:365-400 | after the switch on both ends the counters agree whatever went before |
| `HalfConn.HalfConn.IncSeq` | e2ewebsocket/session.go:429-440 | the in-place loop: plus one, wraparound exactly at 2^64-1 |
| `HalfConn.HalfConn.Encrypt` | e2ewebsocket/session.go:292-346 | seals a record and advances the counter |
| `HalfConn.HalfConn.Decrypt` | e2ewebsocket/session.go:232-290 | opens a record and advances the counter, or refuses and leaves it |
| `HalfConn.HalfConn.PrepareCipherSpec` | e2ewebsocket/session.go:349-361 | stores the next cipher and announces it once |
| `HalfConn.HalfConn.ChangeCipherSpec` | e2ewebsocket/session.go:365-377 | switches at once, or has to wait |
| `HalfConn.HalfConn.ResumeChangeCipherSpec` | e2ewebsocket/session.go:370-400 | the wait ends by closing or by the announcement |
| `Cryptobyte.PrefixedRoundTrip` | e2ewebsocket/handshake_message.go:222-244 | a length-prefixed field reads back and leaves what follows |
| `Cryptobyte.ListRoundTrip` | e2ewebsocket/handshake_message.go:34-36 | a list of sixteen-bit numbers reads back |
| `Cryptobyte.ListBytes` | e2ewebsocket/handshake_message.go:34-36 | each number as two bytes, high byte first |
| `Cryptobyte.LengthBytes` | e2ewebsocket/handshake_message.go:268-276 | length fields of one, two and three bytes, high byte first |
| `HandshakeMessage.MarshalHelloFits` | e2ewebsocket/handshake_message.go:25-99 | exactly the hellos that can be written |
| `HandshakeMessage.HelloRoundTrip` | e2ewebsocket/handshake_message.go:101-212 | a written hello reads back, its version list with the first version once more in front |
| `HandshakeMessage.HelloWire` | e2ewebsocket/handshake_message.go:25-99 | the bytes of a hello, field by field, with extensions 43, 10 and 13 |
| `HandshakeMessage.OtherWire` | e2ewebsocket/handshake_message.go:268-307 | those of a key exchange, type 12, and of a Finished, type 20 |
| `HandshakeMessage.ListBodyExactlyWhen` | e2ewebsocket/handshake_message.go:139-212 | which extension bodies read as a list: a non-empty one behind its length, and nothing after it |
| `HandshakeMessage.ExtensionRead` | e2ewebsocket/handshake_message.go:139-212 | what one extension of any bytes does: a repeated one refuses, the three known ones extend their list, others are noted only |
| `HandshakeMessage.HeaderUnread` | e2ewebsocket/handshake_message.go:101-112 | type and length in front of a hello are skipped unread |
| `HandshakeMessage.OthersRead` | e2ewebsocket/handshake_message.go:287-314 | any bytes behind four are a key exchange, whatever its length field says; a Finished must fill its own |
| `HandshakeMessage.AcceptedExtensionsDistinct` | e2ewebsocket/handshake_message.go:139-212 | whatever is accepted names no extension twice |
| `HandshakeMessage.MessageRoundTrip` | e2ewebsocket/session.go:153-185 | every written message goes to its own reader and comes back |
| `HandshakeMessage.HelloMessage.Marshal` | e2ewebsocket/handshake_message.go:25-99 | builds the bytes extension by extension |
| `HandshakeMessage.HelloMessage.Unmarshal` | e2ewebsocket/handshake_message.go:101-212 | fills the fields from any bytes or refuses |
| `HandshakeMessage.HelloMessage.UnmarshalExtensions` | e2ewebsocket/handshake_message.go:139-212 | the extension loop |
| `Negotiation.Intersection` | e2ewebsocket/tool_func.go:15-28 | the first element of the second list that the first has |
| `Negotiation.PicksMostPreferred` | e2ewebsocket/tool_func.go:15-28 | from lists in preference order it is the most preferred common element, zero when there is none |
| `Negotiation.IntersectSymmetric` | e2ewebsocket/cipher_suites.go:164-177 | both peers pick the same |
| `Negotiation.SymmetricExactlyWhen` | e2ewebsocket/tool_func.go:15-28 | for lists in any order they pick the same unless something is shared and the first shared element of one list is not that of the other |
| `Negotiation.OrderMatters` | e2ewebsocket/tool_func.go:15-28 | two lists for which they do not |
| `Negotiation.VersionsAgree` | e2ewebsocket/common.go:264-270 | the repeated first version of a decoded list changes nothing |
| `Negotiation.SuiteListDrawn` | e2ewebsocket/handshake_state.go:199-216 | a hello lists suites by preference whatever order they are configured in |
| `Negotiation.MakeSuiteList` | e2ewebsocket/handshake_state.go:206-216 | the loop that builds that list |
| `Sm2KeyExchange.AgreedIsProduct` | crypto/sm2keyexch/keyexchange.c:294-342 | either side's point is the cofactor times the product of both combined secrets |
| `Sm2KeyExchange.WidthExactlyWhen` | crypto/sm2keyexch/keyexchange.c:253-261 | the width is the one power of two whose square is at most the order and more than a quarter of it |
| `Sm2KeyExchange.ReducedMeans` | crypto/sm2keyexch/keyexchange.c:305-326 | the reduced coordinate keeps the low bits of the x-coordinate and sets the one above them |
| `Sm2KeyExchange.IdDigestMeans` | crypto/sm2keyexch/keyexchange.c:118-171 | the identity digest hashes the length in bits, the identity and the public key; which identities are refused |
| `Sm2KeyExchange.StandardFormulas` | crypto/sm2keyexch/keyexchange.c:363-590 | key and checksums from the agreed point, written out: which coordinates, digests, points and tags, in which order, for either role |
| `Sm2KeyExchange.SamePoint` | crypto/sm2keyexch/keyexchange.c:383-442 | both sides reach the same point for all keys and ephemerals |
| `Sm2KeyExchange.RolesAgree` | crypto/sm2keyexch/keyexchange.c:444-590 | the role branches build the same key input and the same inner digest |
| `Sm2KeyExchange.KeyAgreement` | crypto/sm2keyexch/keyexchange.c:363-604 | both sides fail together, exactly at infinity, and otherwise hold the same key and accept each other's checksum |
| `Sm2KeyExchange.InitialisedFacing` | crypto/sm2keyexch/keyexchange.c:118-272 | contexts two peers initialise for each other are the two ends of one exchange; both can be initialised exactly when both identities are non-empty, free of zero bytes and short enough |
| `Sm2KeyExchange.ExchangeFromInit` | crypto/sm2keyexch/keyexchange.c:189-604 | the agreement from initialisation to the final checks |
| `Sm2KeyExchange.KapContext.Initialise` | crypto/sm2keyexch/keyexchange.c:189-272 | sets a context up or refuses an identity |
| `Sm2KeyExchange.KapContext.Prepare` | crypto/sm2keyexch/keyexchange.c:274-361 | makes the ephemeral point and the combined secret step by step |
| `Sm2KeyExchange.KapContext.ComputeKey` | crypto/sm2keyexch/keyexchange.c:363-590 | overwrites the working point and derives key and checksums |
| `Sm2KeyExchange.KapContext.FinalCheck` | crypto/sm2keyexch/keyexchange.c:592-604 | accepts exactly the stored checksum |
| `KeyExchange.ParamsReadBack` | e2ewebsocket/key_agreement.go:73-82 | the SM2 parameters are found again exactly when the point has at most 255 bytes |
| `KeyExchange.SignatureReadsBack` | e2ewebsocket/key_agreement.go:206-250 | a signature part is accepted exactly with the negotiated scheme, SM2 with SM3, at most 65535 bytes and a signature valid over the same bytes |
| `KeyExchange.Sm2Bytes` | e2ewebsocket/key_agreement.go:73-116 | the bytes sent in the SM2 suite; the signature is over both randoms, the initiator's first, and the parameters |
| `KeyExchange.HybridBytes` | e2ewebsocket/key_agreement_sm2mlkem.go:54-109 | the same in the hybrid suite, ciphertext included |
| `KeyExchange.Sm2AcceptedExactlyWhen` | e2ewebsocket/key_agreement.go:119-251 | exactly which bytes are accepted, and that the premaster secret is the 32 bytes derived with the point in them |
| `KeyExchange.HybridAcceptedExactlyWhen` | e2ewebsocket/key_agreement_sm2mlkem.go:111-204 | the same in the hybrid suite |
| `KeyExchange.ShortHybridRefused` | e2ewebsocket/key_agreement_sm2mlkem.go:112-137 | messages too short for point and ciphertext are refused |
| `KeyExchange.Sm2RoundTrip` | e2ewebsocket/key_agreement.go:119-251 | the parser recovers point and signature and rebuilds the signed bytes |
| `KeyExchange.HybridRoundTrip` | e2ewebsocket/key_agreement_sm2mlkem.go:111-204 | the same for the hybrid message and its ciphertext |
| `KeyExchange.Sm2Premaster` | e2ewebsocket/key_agreement.go:67-251 | both ends accept each other's message and hold one premaster secret, or both refuse exactly when the point is at infinity |
| `KeyExchange.InitialisedPartners` | e2ewebsocket/key_agreement.go:43-65 | two agreements set up for each other are the partners these theorems are about |
| `KeyExchange.HybridPremaster` | e2ewebsocket/key_agreement_sm2mlkem.go:192-203 | both ends concatenate the SM2 secret, the initiator's KEM secret and the responder's |
| `KeyExchange.ExchangeContext.GenerateSm2Local` | e2ewebsocket/key_agreement.go:67-116 | fills, signs and extends the payload |
| `KeyExchange.ExchangeContext.GenerateHybridLocal` | e2ewebsocket/key_agreement_sm2mlkem.go:54-109 | the same with the KEM parameters, keeping the local KEM secret |
| `KeyExchange.ExchangeContext.ProcessSm2Remote` | e2ewebsocket/key_agreement.go:119-251 | takes a payload apart, computing the secret before checking the signature |
| `KeyExchange.ExchangeContext.ProcessHybridRemote` | e2ewebsocket/key_agreement_sm2mlkem.go:111-204 | takes a hybrid payload apart, checking the signature first |
| `HandshakeKeys.AgentsAgree` | e2ewebsocket/handshake_state.go:395-470 | under either suite two honest peers' exchanges give one premaster secret, unless the point is at infinity |
| `HandshakeKeys.SuitePremaster` | e2ewebsocket/key_agreement_factory_sm2mlkem.go:20-29 | suite 0x002b runs the SM2 exchange, 0x0031 the hybrid one with both KEM secrets in role order, any other none |
| `HandshakeKeys.CompletedTranscript` | e2ewebsocket/handshake_state.go:539-580 | a completed peer's transcript is the hellos and key exchanges in role order and the other's Finished: type 20, length 12 and the first twelve bytes of HMAC(master, HMAC(master, s) + s), s being the other's name and the hash of those messages |
| `HandshakeKeys.CompletedCiphers` | e2ewebsocket/handshake_state.go:496-537 | which bytes of the key block, and derived how, protect which direction |
| `HandshakeKeys.HandshakeKeysAgree` | e2ewebsocket/handshake_state.go:395-470 | and so meet the handshake's condition, if and only if the message also fits |
| `HandshakeKeys.AgentPeersHonest` | e2ewebsocket/handshake_state.go:395-537 | with the repository's key agreement, key derivation and ciphers, peers that share a suite and the scheme are honest peers of the handshake exactly when the agreed point is not at infinity and their messages fit |
| `HandshakeKeys.AgentPeersComplete` | e2ewebsocket/handshake_state.go:91-580 | and then every started run of theirs extends to one in which both have completed in agreement, with the master secret P_hash derives from the premaster secret of their key agreement |
| `Dispatch.BothEndsShareSession` | e2ewebsocket/conn.go:433-464 | a message reaches at its receiver the session its sender uses, and none at its sender |
| `Dispatch.RoutedExactlyWhen` | e2ewebsocket/conn.go:184-199 | exactly which messages reach a session, and whose |
| `Dispatch.SessionIdNamesPair` | e2ewebsocket/conn.go:700-705 | for any four names: two pairs have one session id exactly when they are the same pair or the text can be cut at two underscores into either |
| `Dispatch.PeersShareSessionExactlyWhen` | e2ewebsocket/conn.go:700-705 | different peers of a host share a session id exactly when they are the two ends that a fold of the host's name determines |
| `Dispatch.HostCollidesExactlyWhen` | e2ewebsocket/conn.go:700-705 | a host has two such peers if and only if its name folds: a first part and an underscore repeated throughout it, another underscore before its last part of the same length, and that part above the name |
| `Dispatch.PlainHostNeverCollides` | e2ewebsocket/conn.go:700-705 | a host without an underscore in its name has a session of its own with each peer, whatever the peers are called |
| `Dispatch.SessionIdsCanCollide` | e2ewebsocket/conn.go:700-705 | a name that folds, with the two peers |
| `Dispatch.HandleRecord` | e2ewebsocket/conn.go:211-366 | opens a record and decides what it means |
| `Dispatch.OpenedRecordMeans` | e2ewebsocket/conn.go:240-366 | what an opened record means by its first byte, with each type's conditions |
| `Dispatch.ClearRecordMeans` | e2ewebsocket/conn.go:240-366 | the same for a record in the clear: before completion application data is marked lost, after it delivered |
| `Dispatch.ResetExactlyWhen` | e2ewebsocket/conn.go:211-228 | a record resets the session exactly when it cannot be opened and is a hello in the clear |
| `Dispatch.LeadingByte` | e2ewebsocket/session.go:299-312 | a record with a short explicit nonce starts with its number divided by 2^56 |
| `Dispatch.StaleCiphertext` | e2ewebsocket/conn.go:211-251 | read without a cipher it is none of the five types exactly as long as its number is outside 21·2^56 to 26·2^56: marked lost before completion, refused after, and never a reset hello |
| `Dispatch.UnreadableCiphertext` | e2ewebsocket/conn.go:211-228 | one that another cipher cannot open is refused and resets nothing |
| `Dispatch.RestartedPeerIsHeard` | e2ewebsocket/conn.go:368-406 | a plaintext hello that the old cipher cannot open resets the session and is read first by the new one |
| `HandshakeSpec.HelloRefusedExactlyWhen` | e2ewebsocket/handshake_state.go:338-393 | by a peer that lists only suites it knows, a hello with lists in any order and without the number zero is refused exactly when no suite or no signature scheme is shared |
| `HandshakeSpec.VersionZeroExactlyWhen` | e2ewebsocket/common.go:264-270 | a hello that is not refused leads to version zero exactly when no version is shared |
| `HandshakeSpec.ChoicesDifferExactlyWhen` | e2ewebsocket/handshake_state.go:229-242 | two peers that go on after each other's hello have chosen different schemes, versions or suites exactly when the first shared entries of their lists differ |
| `HandshakeSpec.MasterComesFromPremaster` | e2ewebsocket/handshake_state.go:436-494 | a peer goes on from the key exchange exactly when the message leads to a premaster secret, with the master secret of that one |
| `HandshakeSpec.EmptyPremasterExactlyWhen` | e2ewebsocket/handshake_state.go:436-466 | that premaster secret is empty exactly when the message reads as a hello or a Finished, which then does not enter the transcript, or the key agreement yields nothing |
| `HandshakeSpec.FinishedAcceptedExactlyWhen` | e2ewebsocket/handshake_state.go:555-580 | a peer completes exactly when the message carries the sum it expects under the other's identity |
| `HandshakeSpec.LongMessageRefused` | e2ewebsocket/session.go:137-142 | a message longer than 65536 bytes is refused unread, no other for its length |
| `HandshakeSpec.LoopClosesExactlyWhen` | e2ewebsocket/conn.go:306-345 | what closes the read loop, with sixteen waiting messages as the limit, and what else a record changes |
| `HandshakeSpec.ClearRecordsSent` | e2ewebsocket/handshake_state.go:104-115 | the records of a hello and of the change of cipher, and when a hello is not sent |
| `HandshakeSpec.KeyExchangeSent` | e2ewebsocket/handshake_state.go:421-434 | the record of a key exchange, in the transcript at once only for the larger name |
| `HandshakeSpec.FinishedSent` | e2ewebsocket/handshake_state.go:539-553 | the record of a Finished, sealed over the sum under the own identity |
| `HandshakeRefinement.SameTerms` | e2ewebsocket/handshake_state.go:244-276 | the two peers negotiate the same terms, in opposite roles |
| `HandshakeRefinement.SameSecrets` | e2ewebsocket/handshake_state.go:395-537 | one master secret and one transcript; either's outgoing cipher is the other's incoming one; the sum each sends is the one the other expects |
| `HandshakeRefinement.MessagesRead` | e2ewebsocket/session.go:123-185 | each message of an honest peer reads back as what it is |
| `HandshakeRefinement.FinishedTravels` | e2ewebsocket/handshake_state.go:539-553 | the first protected record opens at the peer |
| `HandshakeRefinement.StepRefines` | e2ewebsocket/handshake_state.go:91-580 | every step of a peer is a step of the program counters and the other way round, with exactly the bytes they determine |
| `HandshakeRuns.RunRefines` | e2ewebsocket/handshake_state.go:91-580 | the same for whole runs of both peers over both links |
| `HandshakeRuns.RunsAreSound` | e2ewebsocket/conn.go:306-345 | in every interleaving nothing fails and no channel holds more than three of its sixteen slots |
| `HandshakeRuns.Progress` | e2ewebsocket/session.go:349-400 | once a peer has started some step is possible exactly until both have completed, also with a read loop waiting for its cipher |
| `HandshakeRuns.RunsAreBounded` | e2ewebsocket/handshake_state.go:91-336 | no run is longer than 32 steps |
| `HandshakeRuns.EveryRunCompletes` | e2ewebsocket/handshake_state.go:91-336 | every run can be extended to one in which both have completed |
| `HandshakeRuns.PeersAgree` | e2ewebsocket/handshake_state.go:244-580 | from either peer's completion on: same version, suite, scheme, master secret and transcript under the Finished sums, crossed ciphers |
| `HandshakeRuns.CompletedHolds` | e2ewebsocket/handshake_state.go:229-242 | a completed peer holds the master secret of its key agreement, and version zero exactly when no version is shared |
| `HandshakeRuns.FinishedMeetsItsCipher` | e2ewebsocket/conn.go:329-345 | the Finished record is only ever opened with its cipher and a zero counter |
| `HandshakeRuns.ProtectedStreams` | e2ewebsocket/session.go:232-346 | after the handshake any list of payloads comes out as it went in, both ways |
| `HandshakeRuns.ProtectedRecordsReach` | e2ewebsocket/conn.go:253-366 | after the handshake and any records before, protected application data is delivered, control handled, the alert text obeyed and other types refused, both ways |
| `HandshakeExample.HandshakesHappen` | e2ewebsocket/handshake_state.go:91-159 | peers as these theorems require, with the hybrid key agreement on a small group, exist under any two names it takes and complete, whichever starts |
| `Session.Session.ReadHello` | e2ewebsocket/handshake_state.go:118-146 | takes the other's hello from the channel and negotiates |
| `Session.Session.SendKeyExchange` | e2ewebsocket/handshake_state.go:408-434 | sends the key exchange, the initiator entering it in the transcript at once |
| `Session.Session.ReadKeyExchange` | e2ewebsocket/handshake_state.go:436-494 | completes the transcript in role order and derives the master secret |
| `Session.Session.SendFinished` | e2ewebsocket/handshake_state.go:539-553 | the sum labelled with the own identity, sealed |
| `Session.Session.ReadFinished` | e2ewebsocket/handshake_state.go:555-580 | compares with the sum labelled with the other's identity and then extends the transcript |
| `Session.Session.AdvanceHandshake` | e2ewebsocket/handshake_state.go:91-580 | one step of the goroutine is the specified one |
| `Session.Session.ReadOne` | e2ewebsocket/conn.go:162-345 | one round of the read loop is the specified one |
| `Session.Session.ResumeSwitch` | e2ewebsocket/session.go:370-400 | the waiting switch goes on as specified |
| `Session.Session.Perform` | e2ewebsocket/session.go:78-112 | every step of a session is a step of the protocol |
| `Hmac.HMAC.constructor` | crypto/hmac/hmac.go:92-128 | pads the key, hashed when it is longer than a block |
| `Hmac.MacIsRfc2104` | crypto/hmac/hmac.go:92-128 | the definition with its pads 0x36 and 0x5c byte by byte, for keys of any length |
| `Hmac.HMAC.Sum` | crypto/hmac/hmac.go:25-39 | the definition on what was written since the last reset, whatever the pads hold |
| `Hmac.HMAC.Reset` | crypto/hmac/hmac.go:48-89 | starts over, saving the hash states when both can be saved |
| `Hmac.Replay` | crypto/hmac/hmac.go:25-89 | over every sequence of calls the answers are those of the definition |
| `Prf.PHash` | e2ewebsocket/prf.go:84-101 | fills a buffer of any length with the P_hash stream |
| `Prf.WholeBlocks` | e2ewebsocket/prf.go:84-101 | from any block boundary on the stream is that block of P_hash |
| `Prf.StreamIsPHash` | e2ewebsocket/prf.go:84-101 | for any chain A(0) = seed, A(i+1) = HMAC(secret, A(i)), block i is HMAC(secret, A(i+1) + seed) |
| `Prf.MasterSecretBytes` | e2ewebsocket/prf.go:19-25 | the 48 bytes written out, with label and order of the randoms |
| `Prf.KeyBlockBytes` | e2ewebsocket/prf.go:27-32 | the key block written out, the responder's random first |
| `FinishedHash.SumBytes` | e2ewebsocket/finished_hash.go:78-89 | a Finished sum written out |
| `FinishedHash.FinishedHash.Write` | e2ewebsocket/finished_hash.go:73-76 | feeds a message |
| `FinishedHash.FinishedHash.LocalSum` | e2ewebsocket/finished_hash.go:83-85 | the sum of everything fed under the local identity |
| `FinishedHash.FinishedHash.RemoteSum` | e2ewebsocket/finished_hash.go:87-89 | the same under the remote identity |
| `FinishedHash.BothSums` | e2ewebsocket/finished_hash.go:61-89 | peers that feed the same bytes, however cut, expect what the other sends |
| `Prf.ShorterIsPrefix` | e2ewebsocket/prf.go:74-101 | a shorter request is a prefix of a longer one |
| `Prf.MasterFromPreMasterSecret` | e2ewebsocket/prf.go:19-25 | 48 bytes of the stream, initiator's random first |
| `Prf.KeysFromMasterSecret` | e2ewebsocket/prf.go:27-46 | six consecutive pieces of the requested lengths that make up the key block |
| `ReadBio.RunsAreSound` | crypto/bio.go:317-350 | between the two critical sections the buffer is still the one read into, cut at or before the destination, or released |
| `ReadBio.FinishPanicsExactlyWhen` | crypto/bio.go:332-342 | the second section slices past the capacity exactly when bytes arrived and the buffer was released in between |
| `ReadBio.ReadsAreFifo` | crypto/bio.go:221-350 | over every interleaving without a panic, consumed, queued and arrived bytes make up what the connection delivered, in order |
| `ReadBio.ReadGivesNext` | crypto/bio.go:241-271 | a read is given the next bytes delivered, as many as it asks for or as are queued; an empty queue gives 0 at the end and -1 before |
| `ReadBio.OtherAnswers` | crypto/bio.go:231-262 | what reads that take nothing are answered, and what a finished `ReadFromOnce` answers and appends |
| `ReadBio.KeptBuffersNeverPanic` | crypto/bio.go:221-350 | with buffers kept that holds for every interleaving |
| `ReadBio.ReadBio.Read` | crypto/bio.go:221-271 | takes from the front, in place |
| `ReadBio.ReadBio.BeginReadFromOnce` | crypto/bio.go:321-331 | makes room for a record |
| `ReadBio.ReadBio.FinishReadFromOnce` | crypto/bio.go:333-342 | appends what arrived, sliding it back when the queue has shrunk |
| `ReadBio.Replay` | crypto/bio.go:221-350 | over every interleaving the array answers as the queue does and hands out a prefix of what was delivered |
| `WriteBio.WritesAreFifo` | crypto/bio.go:70-173 | over every interleaving, written and unsent bytes make up what was appended, in order |
| `WriteBio.AppendAnswers` | crypto/bio.go:70-96 | an append answers how much it added, or -1 having added nothing |
| `WriteBio.WriteToAnswers` | crypto/bio.go:142-173 | a `WriteTo` begins exactly when something is unsent, offers all of it and answers how much was taken |
| `WriteBio.WriteBio.Append` | crypto/bio.go:70-96 | appends in place or in a larger array, leaving an open snapshot alone |
| `WriteBio.WriteBio.Transmit` | crypto/bio.go:147-157 | what the connection takes of the snapshot is the front of the queue |
| `WriteBio.WriteBio.FinishWriteTo` | crypto/bio.go:159-173 | drops what was written, keeping what was appended meanwhile |
| `WriteBio.Replay` | crypto/bio.go:70-173 | over every interleaving what is written out is a prefix of what was appended |
| `RealtimeCache.SweepListMeans` | e2ewebsocket/im_parser/openim_marshal/read_from_server.go:172-187 | unmarked messages stay in order, each marked one is replaced in place by its remembered copy or left out |
| `RealtimeCache.SanitizeMeans` | e2ewebsocket/im_parser/openim_marshal/read_from_server.go:157-193 | the same for every conversation of a push in any order; nothing looked up stays remembered; a result exactly when something was marked |
| `RealtimeCache.RememberMeans` | e2ewebsocket/im_parser/openim_marshal/read_from_server.go:195-211 | after a push each key holds the last message visited under it, other keys what they held |
| `RealtimeCache.SameKeyExactlyWhen` | e2ewebsocket/im_parser/openim_marshal/read_from_server.go:232-246 | within a conversation messages share a key exactly when they have the same number, or none and the same server id, or neither and the same client id |
| `RealtimeCache.ConversationsMeetExactlyWhen` | e2ewebsocket/im_parser/openim_marshal/read_from_server.go:232-246 | messages of different conversations can share a key exactly when one id begins with the other and "#server:" or "#client:" |
| `RealtimeCache.SanitizedHoldsCopies` | e2ewebsocket/im_parser/openim_marshal/read_from_server.go:172-187 | after any calls each message of a sanitised conversation is an unmarked one of the input or replaces a marked one by a remembered copy of the same message, or of one in such a conversation |
| `RealtimeCache.RememberedIsRestored` | e2ewebsocket/im_parser/openim_marshal/read_from_server.go:157-230 | a remembered message comes back in place of its marked form |
| `RealtimeCache.HandedOutOnce` | e2ewebsocket/im_parser/openim_marshal/read_from_server.go:195-230 | over any run each hand-out is of the message last remembered under its key and not handed out since |
| `RealtimeCache.RunsHandOutNoMore` | e2ewebsocket/im_parser/openim_marshal/read_from_server.go:195-230 | a key is handed out at most as often as it was remembered |
| `RealtimeCache.Parser.SanitizeSyncedPushMessages` | e2ewebsocket/im_parser/openim_marshal/read_from_server.go:157-193 | the two loops over conversations and messages |
| `RealtimeCache.Parser.RememberRealtimePushMessages` | e2ewebsocket/im_parser/openim_marshal/read_from_server.go:195-211 | remembers each message of a push that has a key |
| `RealtimeCache.Parser.TakeRealtimeMsgData` | e2ewebsocket/im_parser/openim_marshal/read_from_server.go:213-230 | hands out and forgets |

## Left out

- WebSocket I/O, dialing, deadlines, logging and the terminal client: plumbing.
- Key loading, PEM and DER, and the insides of SM2, SM3, SM4 and ML-KEM: library code.
- gzip, gob, JSON and protobuf: message bodies and parsed messages are values.
- Stream and CBC ciphers: the repository's suites are all AEAD.
- Renegotiation: its extension is never written, and a completed session does not start again.
- Real time: the lost-message timer and the two-second wait of the read loop.
- Application data and control records during a handshake: in `HandshakeSpec` they have no effect; a read loop that waits for completion on account of one is not modelled.
- Session reset during a handshake: `HandshakeSpec` stops the read loop where the source replaces the session; `HandshakeRuns.RunsAreSound` shows that honest peers never get there.
- Dishonest peers and secrecy: what is proved is that honest peers work together.
- The single-token notification of waiters on a completed handshake.
- `requestLostAfterHandshake`: waits for the handshake and then sends the request whose handling is modelled.
- `KeyExchange.CheckSignature`: does not tell apart the texts of the errors for unsupported schemes, because all of them refuse the message.
- `WriteBio.Transmit`: an `io.Writer` that claims to have written more than it was given is not modelled, because the interface forbids it.
