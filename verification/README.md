# A Dafny model of the wrongsv protocol core

wrongsv is a proxy that speaks many protocols. This project models the small stateful byte-stream
protocols inside it and proves what they promise over every run, every interleaving and every
fragmentation of their input. `dafny verify dfyconfig.toml` checks everything.

| files | part of the system |
|---|---|
| `Bytes.dfy` | bytes, big-endian numbers, sequence lemmas |
| `Aead.dfy`, `RecordLayer.dfy` | the TLS-disguised AEAD record layer (crates/encryption) |
| `Frames.dfy`, `MuxSession.dfy`, `MuxLoop.dfy`, `MuxWriters.dfy`, `SingStreams.dfy` | the sing-anytls multiplexer (crates/anytls) |
| `TlsPlaintext.dfy`, `AnyTlsAccept.dfy` | read-exact loops over TLS and the AnyTLS accept (crates/anytls) |
| `ClientHello.dfy`, `RealityHello.dfy`, `RealityAuth.dfy`, `RealityAccept.dfy`, `RealityEndToEnd.dfy` | the REALITY handshake front end (crates/reality) |
| `Stacks.dfy`, `Evaluator.dfy`, `BandwidthTarget.dfy` | the evaluator's control protocol (crates/evaluator-server, crates/evaluator-client) |
| `Metrics.dfy` | the concurrent usage registry (crates/metrics) |
| `GrpcFrames.dfy` | gRPC frame reassembly (crates/grpc) |
| `Socks5.dfy`, `HttpHead.dfy`, `HttpForward.dfy`, `HttpRequest.dfy` | the mixed SOCKS and HTTP proxy (crates/server) |
| `ClusterText.dfy`, `ClusterWords.dfy`, `Cluster.dfy` | cluster strings (src/main_config.rs) |

How the outside world is modelled:

- Cryptography is a value of a datatype of functions. The laws it must obey are a predicate
  (`Aead.Lawful`, `RealityAuth.LawfulCrypto`): opening undoes sealing under equal key, nonce and
  associated data, the tag has 16 bytes, Diffie-Hellman commutes. The protobuf codec of `Hunk`
  (`GrpcFrames.Lawful`), UTF-8 validity and base64 are parameters in the same way.
- A socket or a TLS reader is its unread bytes together with a schedule that says how each read turns
  out: short, empty, blocked, failed. A loop that is still waiting at the end of its schedule returns
  `Starved`. Theorems quantify over all schedules.
- Threads are steps of a machine; a theorem about a run quantifies over all sequences of steps.
- Integers that wrap or are cut do so in the model: 16-, 24- and 32-bit length fields, 64-bit
  counters, the signed connection gauge. Arithmetic that overflows follows a release build, which
  wraps; a debug build would stop there.
- Text is handled as UTF-8 bytes where the program handles it on the wire, and as characters in the
  cluster parser.

Where the code does less than one would hope, the model keeps the code and says exactly when it is
right:

- A `WouldBlock` inside `try_read_exact` drops the bytes already taken (`PartialHeaderLost`). It is
  harmless exactly when nothing was delivered before it (`BlockedLosesNothing`); the reader-loop
  theorem carries that condition as `clean`.
- `peek_byte` panics on an empty chunk, and only then (`SingStream.PeekByte`).
- REALITY's header loop may read past the record, and such bytes are lost (`PipelinedBytesLost`).
  Replay is exact if and only if that does not happen and a begun body is completed (`ReplayIsExact`).
- The ClientHello printer cuts its extension length to 16 bits. Parsing undoes printing exactly for the
  host lengths given in `ParseUndoesBuild`; `LongHostUnparsable` gives hosts for which it does not.
- A stack passes unmeasured when the client's own list leaves a constituent out, and a protocol skipped
  because its targets cannot start shifts the pairing of names and results: `SkippedTargetPasses` is a run
  in which a lossy stack passes. The client is told the right verdict in every run if and only if the list
  and the tested protocols are aligned on the stack (`TrustedVerdicts`); for the server's own list this means
  that no target fails to start at or before the index of any constituent (`StackVerdicts`).
- When the list is empty, or the targets of its last protocol cannot start, the server never says it is
  done and the client fails; `Outcome` gives the exact condition for success.
- A gRPC message of 2^32 bytes or more is printed with a cut length. Reassembly is faithful to a list of
  messages if and only if none is that long (`FaithfulExactly`, `DecodedExactly`).
- After a failed AnyTLS accept the fallback is sent the header, filled up with zeros if it broke off, and
  then the raw socket; plaintext already decrypted behind the header is lost (`PipelinedByteLost`). The
  fallback gets the client's whole plaintext if and only if that ended with the header: nothing was left
  after a failed authentication, or what was not read of the header is zeros (`FallbackIsExact`).
- A summary follows the list also when the last protocol was not tested, and the client then fails on it
  (`LateSummary`). No run contains an unexpected message if and only if that cannot happen
  (`NothingUnexpected`).
- A stream id opened again while it is live has two relays. Each relay's data keeps its order
  (`WireCarriesEachRelay`); what a stream carries is what its relay sent if and only if no other relay of
  that id has sent anything (`WireCarriesEachStream`, with `ReopenedStreamMixes`).
- An HTTP head over the limit may be read or refused as its reads happen to fall; every fragmentation is read
  if and only if the head ends within 65536 bytes (`HeadsReadExactly`).
- The server reads a hello as its 16-bit record length says and refuses lengths over 65531, so it holds the
  client's hello exactly for host names of at most 65376 bytes (`HelloBuffered`).

## Model

| member | source | states |
|---|---|---|
| Aead.SuccessorModulo | crates/encryption/src/aead.rs:89-98 | the carry loop adds one modulo 2^96 to the big-endian value |
| Aead.NonceAtValue | crates/encryption/src/aead.rs:89-98 | the nonce of the k-th operation on a fresh key has value k modulo 2^96 |
| Aead.NoncesDistinct | crates/encryption/src/aead.rs:39-98 | any run of at most 2^96 operations uses pairwise distinct nonces |
| Aead.AeadKey.constructor | crates/encryption/src/aead.rs:24-37 | a fresh key starts at nonce zero |
| Aead.AeadKey.IncrementNonce | crates/encryption/src/aead.rs:89-98 | returns the current nonce and leaves its successor in the array |
| Aead.AeadKey.Seal | crates/encryption/src/aead.rs:39-62 | the i-th operation seals under the i-th nonce and advances even when sealing fails |
| Aead.AeadKey.Open | crates/encryption/src/aead.rs:64-87 | the i-th operation opens under the i-th nonce, so both sides stay in lockstep |
| RecordLayer.EncodeHeader | crates/encryption/src/header.rs:10-16 | writes the five header bytes with the length cut to 16 bits |
| RecordLayer.HeaderRoundTrip | crates/encryption/src/header.rs:10-28 | decoding undoes encoding exactly for the lengths 17 to 16640 |
| RecordLayer.Chunks | crates/encryption/src/common.rs:46-66 | chunks are non-empty, at most 8192 bytes, and concatenate to the data |
| RecordLayer.WriteRecordsIsWire | crates/encryption/src/common.rs:46-66 | what a write emits is one sealed record per chunk under consecutive nonces |
| RecordLayer.CommonConn.constructor | crates/encryption/src/common.rs:24-33 | a connection starts with nothing buffered |
| RecordLayer.CommonConn.WriteRecord | crates/encryption/src/common.rs:46-66 | appends one header and ciphertext, or nothing when sealing fails |
| RecordLayer.CommonConn.WriteAll | crates/encryption/src/common.rs:46-66 | appends exactly the records of the data and leaves the reading side alone |
| RecordLayer.CommonConn.FetchRecord | crates/encryption/src/common.rs:83-96 | opens exactly the next record whatever the reused ciphertext buffer held before |
| RecordLayer.CommonConn.Read | crates/encryption/src/common.rs:69-107 | puts the next bytes at the front of the caller's buffer, keeps the rest for later, touches nothing else |
| RecordLayer.RunCoherent | crates/encryption/src/common.rs:46-107 | in every interleaving: bytes written are bytes read, then buffered, then in records in flight |
| RecordLayer.ReadsArePrefix | crates/encryption/src/common.rs:46-107 | in every interleaving of writes and reads the bytes read are a prefix of the bytes written |
| RecordLayer.NextRead | crates/encryption/src/common.rs:69-107 | with bytes outstanding a read succeeds and makes progress, otherwise it reports end of input |
| RecordLayer.EnoughReads | crates/encryption/src/common.rs:46-107 | as many non-empty reads as bytes outstanding return everything written |
| Frames.DecodeInvertsEncode | crates/anytls/src/session.rs:51-76 | decoding any concatenation of frames followed by a partial one gives those frames and the rest |
| Frames.EncodeInvertsDecode | crates/anytls/src/session.rs:401-442 | whatever bytes are decoded, encoding the frames and appending the rest gives the bytes back |
| Frames.PshJobs | crates/anytls/src/session.rs:211-221 | a write becomes at least one job, even for empty data, all of them PSH jobs of its own stream that fit a frame |
| Frames.SessionWriter.SendFrame | crates/anytls/src/session.rs:199-209 | queues exactly one job |
| Frames.SessionWriter.SendPsh | crates/anytls/src/session.rs:211-221 | queues the jobs of the data in order |
| Frames.SessionWriter.SendFin | crates/anytls/src/session.rs:223-225 | queues one FIN job |
| TlsPlaintext.TakeTurn | crates/anytls/src/lib.rs:312-363 | one turn moves a prefix of the unread bytes behind those already in the buffer |
| TlsPlaintext.TlsReadExact | crates/anytls/src/lib.rs:312-363 | for every schedule it loses nothing, leaves the unfilled part of the buffer alone and succeeds exactly when full; on a schedule that serves the bytes it returns exactly the next ones |
| TlsPlaintext.TryReadTakesPrefix | crates/anytls/src/session.rs:81-134 | an attempt takes a prefix of the stream, all of what was asked exactly on success |
| TlsPlaintext.BlockedLosesNothing | crates/anytls/src/session.rs:81-134 | a WouldBlock leaves the stream intact if and only if it precedes every delivery |
| TlsPlaintext.PartialHeaderLost | crates/anytls/src/session.rs:81-134 | a schedule in which three header bytes are dropped |
| TlsPlaintext.TryReadExact | crates/anytls/src/session.rs:81-134 | the loop does what the attempt function says and fills the buffer with the bytes taken |
| AnyTlsAccept.VerifyPasswordHash | crates/anytls/src/auth.rs:4-11 | OR of XORs over the bytes decides equality |
| AnyTlsAccept.SkipPadding | crates/anytls/src/lib.rs:270-281 | consumes a prefix of at most n bytes, all n exactly on success, and succeeds on every schedule that serves them |
| AnyTlsAccept.AcceptAnyTls | crates/anytls/src/lib.rs:218-295 | succeeds only on the configured hash and leaves the plaintext at 34 plus the padding length; on a served schedule if and only if; on a served header with another hash it is authentication that fails; states what the fallback is sent in each failure |
| AnyTlsAccept.ReadAuthHeader | crates/anytls/src/lib.rs:247-257 | reads the header into zeroed memory, so what does not arrive stays zero |
| AnyTlsAccept.CheckHeader | crates/anytls/src/lib.rs:259-281 | compares the hash and consumes exactly the announced padding, or says what the fallback gets |
| AnyTlsAccept.FallbackIsExact | crates/anytls/src/lib.rs:416-446 | the fallback is sent the client's whole plaintext if and only if nothing was left after a failed authentication, or the client sent 34 bytes and those not read are zeros |
| AnyTlsAccept.PipelinedByteLost | crates/anytls/src/lib.rs:259-266 | one byte behind a header with the wrong hash never reaches the fallback |
| AnyTlsAccept.DetectPostAuthProtocol | crates/anytls/src/lib.rs:204-215 | consumes one byte and takes the session for sing-anytls exactly on a settings command |
| MuxSession.StreamsGetExactlyTheirBytes | crates/anytls/src/session.rs:267-302 | in every interleaving a stream's bytes read, buffered and queued are the PSH payloads of its id from its SYN to its first close; what a dropped stream had read is a prefix of them |
| MuxSession.ClosedMeansAllRead | crates/anytls/src/stream.rs:33-105 | a stream reports the close only when it is over and everything delivered was read |
| MuxSession.QueuedDataStaysReadable | crates/anytls/src/session.rs:279-302 | from any point a stream can still read all it was delivered, also after a close |
| MuxSession.InvAlways | crates/anytls/src/session.rs:447-466 | the invariant behind these results holds after every sequence of steps |
| SingStreams.ReadingRuns | crates/anytls/src/stream.rs:33-133 | a run of a stream's receive, take and see-closed steps changes its own channel of the session machine and nothing else |
| SingStreams.SingStream.constructor | crates/anytls/src/stream.rs:21-30 | a new stream will yield the concatenation of its chunks |
| SingStreams.SingStream.ReadChunk | crates/anytls/src/stream.rs:33-54 | hands over the next bytes in order; nothing, and closed, exactly when exhausted; a run of such steps on its channel |
| SingStreams.SingStream.TryReadChunk | crates/anytls/src/stream.rs:59-81 | the same without waiting; an absent chunk changes nothing; a run of such steps |
| SingStreams.SingStream.ReadExact | crates/anytls/src/stream.rs:84-105 | returns exactly the next min(len, bytes before the close) bytes, across empty chunks; a run of such steps |
| SingStreams.SingStream.PeekByte | crates/anytls/src/stream.rs:114-133 | shows the next byte and consumes none; panics exactly when the next chunk is empty; a run of such steps |
| MuxLoop.SessionLoop.WriteFrame | crates/anytls/src/session.rs:51-76 | appends the encoding of one frame |
| MuxLoop.SessionLoop.Create | crates/anytls/src/session.rs:267-271 | registers a stream and disconnects an older one with the same id |
| MuxLoop.SessionLoop.Deliver | crates/anytls/src/session.rs:273-277 | queues the data for a known, undropped stream and changes nothing else |
| MuxLoop.SessionLoop.Close | crates/anytls/src/session.rs:279-282 | unregisters and disconnects the stream |
| MuxLoop.SessionLoop.WriteJob | crates/anytls/src/session.rs:284-302 | writes a job and closes the stream on an outgoing FIN |
| MuxLoop.SessionLoop.DrainWriteJobs | crates/anytls/src/session.rs:291-302 | writes every job found in the channel, in order |
| MuxLoop.SessionLoop.ReceiverStep | crates/anytls/src/stream.rs:33-105 | a receiver's step between two drains is a step of the machine |
| MuxLoop.SessionLoop.Route | crates/anytls/src/session.rs:447-483 | one incoming frame changes state and output as the machine's step does |
| MuxLoop.SessionLoop.ReadFrame | crates/anytls/src/session.rs:401-442 | reads one whole frame, or ends on bytes that hold none |
| MuxLoop.SessionLoop.ReaderLoop | crates/anytls/src/session.rs:382-485 | every run of the loop, with receivers acting in between, is a run of the machine, and with no interrupted read the frames dispatched are those encoded in the bytes consumed |
| MuxWriters.PshJobsCarry | crates/anytls/src/session.rs:211-221 | the jobs of a write carry exactly its bytes, for its own stream only |
| MuxWriters.WireCarriesEachRelay | crates/anytls/src/session.rs:199-302 | for every interleaving of relays and drains the wire decodes to the jobs written, each for its relay's stream, and each relay's bytes and FIN are on it, queued or pending in the order sent |
| MuxWriters.WireCarriesEachStream | crates/anytls/src/session.rs:447-457 | what the wire, the channel and the relay hold for a stream is exactly what the relay sent if and only if no other relay of that id has sent anything |
| MuxWriters.ReopenedStreamMixes | crates/anytls/src/session.rs:447-457 | with an id opened twice a byte of the second relay is on the stream of the first, which sent nothing |
| MuxWriters.NoPshIsCut | crates/anytls/src/session.rs:51-76 | no PSH job reaches the 65535-byte cut of the frame writer |
| ClientHello.ParseKeyShareExt | crates/reality/src/hello.rs:213-254 | the nested loops stay in bounds and return what the scan functions say, with the share list taken two bytes short |
| ClientHello.ParseShares | crates/reality/src/hello.rs:229-244 | the inner loop finds the first 32-byte X25519 entry before its end |
| ClientHello.ScanShares | crates/reality/src/hello.rs:226-244 | over any encoded share list the scan finds the first X25519 entry although its end is two bytes short |
| ClientHello.ScanExtensions | crates/reality/src/hello.rs:213-254 | over any encoded extensions the scan finds that key in the first key_share extension |
| ClientHello.WellFormedParses | crates/reality/src/hello.rs:31-127 | every well-formed hello of sections 4.1.2 and 4.2.8 of RFC 8446 parses to its random, session id and first X25519 key |
| ClientHello.ParseIgnoresSessionId | crates/reality/src/hello.rs:31-127 | exchanging the session id changes the parse in the session id only |
| RealityHello.BuildRealityClientHello | crates/reality/src/hello.rs:137-210 | the builder with its back-patched lengths yields the record of the layout functions |
| RealityHello.BuildBody | crates/reality/src/hello.rs:143-201 | pushing and patching yields the handshake message |
| RealityHello.BuildExtensions | crates/reality/src/hello.rs:155-192 | the extension block holds the key share, the fixed extensions and the host name |
| RealityHello.ParseUndoesBuild | crates/reality/src/hello.rs:137-210 | parsing undoes building if and only if the cut extension length still covers the key share |
| RealityHello.LongHostUnparsable | crates/reality/src/hello.rs:137-210 | host names of 65460 to 65526 bytes are printed to records that do not parse |
| RealityHello.BuildWithSessionId | crates/reality/src/hello.rs:137-210 | building with another session id is replacing the session id in the built record |
| RealityAuth.AadForgetsSessionId | crates/reality/src/auth.rs:128-155 | zeroing bytes 39 to 71 gives the same associated data whatever session id was there |
| RealityAuth.SessionIdRoundTrip | crates/reality/src/auth.rs:56-96 | a session id sealed by the client opens at the server to the same timestamp and short id |
| RealityAuth.Agreement | crates/reality/src/auth.rs:128-155 | any parsable hello with its session id sealed over the zeroed message is accepted, with the client's own key, exactly when the short id is listed and the clock difference is in range |
| RealityAuth.ClientServerAgreement | crates/reality/src/auth.rs:172-219 | the same for the hello the client itself builds, for every host name that can be printed |
| RealityAccept.ReplayIsExact | crates/reality/src/tls.rs:214-278 | buffered bytes then the socket are the client's bytes if and only if the header loop did not overrun the record and a begun body was completed |
| RealityAccept.PipelinedBytesLost | crates/reality/src/tls.rs:214-278 | two bytes that arrive together with a short record are lost |
| RealityAccept.BrokenBodyLost | crates/reality/src/tls.rs:261-277 | a byte of a record that breaks off in its body is lost |
| RealityAccept.WholeReplay | crates/reality/src/tls.rs:214-278 | once the record is whole, buffer and socket are the client's bytes if and only if the header loop did not overrun it |
| RealityAccept.WholeWhenServed | crates/reality/src/tls.rs:214-278 | a record is held whole only if it was sent, and always if it was and the socket serves a read per byte, for every fragmentation |
| RealityAccept.ReadHeader | crates/reality/src/tls.rs:214-241 | the header loop holds exactly the first bytes of the client |
| RealityAccept.ReadExact | crates/reality/src/tls.rs:261-277 | the body loop takes exactly the missing bytes, or reports a failure |
| RealityAccept.AcceptRecord | crates/reality/src/tls.rs:214-278 | the whole reading part leaves buffer, socket and outcome as the phase functions say |
| RealityAccept.BufferedStream.constructor | crates/reality/src/tls.rs:97-103 | a replaying stream starts at the front of its buffer |
| RealityAccept.BufferedStream.Read | crates/reality/src/tls.rs:118-128 | every read continues where the last stopped, first in the buffer, then on the socket |
| RealityAccept.BufferedStream.IntoInner | crates/reality/src/tls.rs:111-114 | what was read, what is returned and the socket make up the source |
| RealityAccept.ReadThrough | crates/reality/src/tls.rs:117-128 | reads of any sizes see a prefix of the source, and as many non-empty reads as bytes on a serving socket see all of it |
| RealityAccept.ReplayToTls | crates/reality/src/tls.rs:201-373 | rustls gets a stream only for a whole record; for every list of read sizes it sees a prefix of the client's bytes, and all of them given enough reads; otherwise the fallback gets buffer and socket |
| RealityEndToEnd.HelloBuffered | crates/reality/src/tls.rs:243-278 | when the server holds a whole record it is the client's hello if and only if the hello fits the 65531-byte limit, for every fragmentation |
| RealityEndToEnd.VerdictOverTheWire | crates/reality/src/tls.rs:286-319 | from printer to verdict over any fragmentation: the record held parses and is judged with the client's own key exactly as its timestamp and short id deserve; a socket that serves a read per byte of the hello gets there |
| Stacks.ResolveStacks | crates/evaluator-server/src/orchestrator.rs:405-437 | the protocols are distinct and exactly the constituents of the recognised names, which keep their order |
| Stacks.FailingIsExact | crates/evaluator-server/src/orchestrator.rs:643-651 | the failing list is exactly the constituents with a measured loss |
| Stacks.SummaryVerdicts | crates/evaluator-server/src/orchestrator.rs:633-672 | an entry passes exactly when none of its constituents fails |
| Stacks.StackModeVerdicts | crates/evaluator-server/src/orchestrator.rs:633-678 | with the server's own list every requested stack passes exactly when each constituent was measured without loss |
| Stacks.SelectionVerdicts | crates/evaluator-server/src/orchestrator.rs:501-507 | when all of a list is measured the verdict is right for all measurements if and only if the list has every constituent |
| Stacks.VerdictsExact | crates/evaluator-server/src/orchestrator.rs:634-651 | for any list and any protocols really measured, a stack's verdict is right for all measurements if and only if the two are aligned on it |
| Stacks.SkipVerdicts | crates/evaluator-server/src/orchestrator.rs:511-535 | on a list without repetitions this holds if and only if no target fails to start at or before the index of any constituent |
| Evaluator.PacketLoss | crates/evaluator-client/src/runner.rs:332-336 | the loss is not negative, and zero exactly when packets were sent and all answered |
| Evaluator.InvAlways | crates/evaluator-server/src/orchestrator.rs:442-679 | the product invariant of server, client and both channels holds in every reachable state |
| Evaluator.Terminates | crates/evaluator-client/src/runner.rs:385-563 | no schedule of the two parties has more than 9n + 14 steps, whatever is received and whether targets start or not |
| Evaluator.NothingUnexpected | crates/evaluator-client/src/runner.rs:364-563 | no run has a party receive a message it does not expect, if and only if it is not the case that the token is right, stacks were requested, every protocol whose targets start is known and the last one's do not |
| Evaluator.UnexpectedExactly | crates/evaluator-client/src/runner.rs:558-563 | in that case every finished run contains an unexpected message and the client fails; otherwise none does |
| Evaluator.LateSummary | crates/evaluator-server/src/orchestrator.rs:632-678 | a run in which the only target does not start and the client fails on the summary |
| Evaluator.ResultsAgree | crates/evaluator-server/src/orchestrator.rs:597-616 | at all times the server's results are the client's, for the tested protocols in order, but for one in flight |
| Evaluator.NeverStuck | crates/evaluator-server/src/orchestrator.rs:511-628 | in every reachable state someone can move or both have finished |
| Evaluator.Finishes | crates/evaluator-server/src/orchestrator.rs:442-679 | every run can be continued until both parties have finished, whatever the client is going to measure |
| Evaluator.Outcome | crates/evaluator-client/src/runner.rs:345-566 | a finished run succeeds if and only if the token is right, the last target starts and every protocol whose targets start is known; both sides then hold the results of the tested protocols in order |
| Evaluator.TrustedVerdicts | crates/evaluator-server/src/orchestrator.rs:632-678 | for every list and every set of failing targets the client is told the right verdict in every finished run if and only if list and tested protocols are aligned on the stack |
| Evaluator.StackVerdicts | crates/evaluator-server/src/orchestrator.rs:632-678 | in stack mode this holds if and only if no target fails to start at or before the index of any constituent, in particular when all start |
| Evaluator.SkippedTargetPasses | crates/evaluator-server/src/orchestrator.rs:515-535 | a run in which the first target does not start, the second protocol loses packets, the client succeeds and its stack passes |
| Evaluator.StackProtocolsKnown | crates/evaluator-server/src/orchestrator.rs:16-50 | the default protocols and those of any requested stacks are known |
| BandwidthTarget.WindowSuffices | crates/evaluator-server/src/target.rs:58-68 | the last ten bytes decide as the whole stream does whether the next piece completes the trigger |
| BandwidthTarget.TakeArrival | crates/evaluator-server/src/target.rs:57-69 | one turn finds the trigger exactly when the whole stream now contains it |
| BandwidthTarget.ScanForTrigger | crates/evaluator-server/src/target.rs:52-72 | for every chunking the loop is left at the first chunk after which the stream contains the trigger |
| Metrics.NextKeeps | crates/metrics/src/lib.rs:120-169 | every step of every concurrent call keeps the ledger and only adds entries to the map |
| Metrics.OneStatsPerEmail | crates/metrics/src/lib.rs:120-134 | in every reachable state an email has one UserStats, which all its calls use and which is never replaced |
| Metrics.TotalsBalance | crates/metrics/src/lib.rs:137-156 | in every reachable state each total is the sum of the user counters minus in-flight adds, modulo 2^64 |
| Metrics.GaugeIsExact | crates/metrics/src/lib.rs:160-169 | in every reachable state each gauge is the number of live guards plus calls between raising it and returning, if and only if that number fits the signed gauge |
| Metrics.DropGuardKeeps | crates/metrics/src/lib.rs:268-274 | dropping a guard keeps the ledger |
| Metrics.ExactAtRest | crates/metrics/src/lib.rs:120-169 | with no call in progress totals equal the user sums, and each user's counter the sum of what was asked under that email, modulo 2^64 |
| GrpcFrames.GrpcFrameReader.Feed | crates/grpc/src/lib.rs:57-102 | appends the bytes and decodes at most one frame, with both error cases |
| GrpcFrames.FrameRoundTrip | crates/grpc/src/lib.rs:39-78 | decoding undoes encoding if and only if the encoded length fits 32 bits |
| GrpcFrames.CutFrameLeavesBytes | crates/grpc/src/lib.rs:44-47 | a longer message decodes to something or fails, and always leaves bytes behind |
| GrpcFrames.SplitsAgree | crates/grpc/src/lib.rs:57-102 | for all bytes, encoded or not, and all splits into feeds: what was emitted and what is still to be decoded are what decoding the bytes at once gives, failures included |
| GrpcFrames.DecodedExactly | crates/grpc/src/lib.rs:39-78 | decoding the encoding of each beginning of a list gives that beginning, with nothing left, if and only if every message fits the length field |
| GrpcFrames.FaithfulExactly | crates/grpc/src/lib.rs:85-113 | for every split of a list's stream the frames emitted are its first ones and with the bytes pending are exactly what was fed, if and only if every message fits the length field |
| GrpcFrames.NoneExactly | crates/grpc/src/lib.rs:57-70 | for every buffer decoding asks for more if and only if it holds neither a whole frame nor a compressed header |
| GrpcFrames.EmptyFeedsDrain | crates/grpc/src/lib.rs:99-102 | whatever was fed and how, one empty feed per frame pending leaves the reader as decoding everything at once does |
| Socks5.AcceptComplete | crates/server/src/mixed_proxy.rs:150-277 | every dialog of sections 3 to 5 of RFC 1928 and section 2 of RFC 1929 with an acceptable method is accepted with its address and port, answered as prescribed and consumed exactly |
| Socks5.AcceptSound | crates/server/src/mixed_proxy.rs:150-277 | whatever yields a request began with such a dialog |
| Socks5.NoRequestWithoutCredentials | crates/server/src/mixed_proxy.rs:180-246 | with credentials configured no input yields a request unless it carries exactly those |
| Socks5.Socket.AuthenticateUserPass | crates/server/src/mixed_proxy.rs:217-246 | the exchange on the socket is that of the login function, replies included |
| Socks5.Socket.NegotiateAuth | crates/server/src/mixed_proxy.rs:180-215 | the exchange on the socket is that of the negotiation function, replies included |
| Socks5.Socket.ReadSocksAddress | crates/server/src/mixed_proxy.rs:248-277 | reads an address, or answers and fails, as the address function says |
| Socks5.Socket.ReadConnect | crates/server/src/mixed_proxy.rs:156-177 | reads a request, or answers and fails, as the request function says |
| Socks5.Socket.AcceptConnect | crates/server/src/mixed_proxy.rs:150-178 | the whole exchange is that of the function the theorems are about |
| HttpHead.FindHeaderEnd | crates/server/src/mixed_proxy.rs:361-363 | finds the first empty line, or there is none |
| HttpHead.ReadHttpHead | crates/server/src/mixed_proxy.rs:342-359 | head and remainder are all that was read and the head ends at the first empty line; each failure has its reason |
| HttpHead.FragmentationsAgree | crates/server/src/mixed_proxy.rs:342-359 | all fragmentations of a stream that succeed find the same head |
| HttpHead.ShortHeadsAreRead | crates/server/src/mixed_proxy.rs:342-359 | a head that ends within 65536 bytes is never refused, however it is fragmented |
| HttpHead.HeadsReadExactly | crates/server/src/mixed_proxy.rs:342-359 | every fragmentation into reads of 1 to 1024 bytes is read if and only if the head ends within 65536 bytes; a longer one is refused byte by byte |
| HttpHead.HeadsAreBounded | crates/server/src/mixed_proxy.rs:350-357 | a head that is read exceeds the limit by less than one read |
| HttpHead.FailedReads | crates/server/src/mixed_proxy.rs:342-359 | when reading fails there was no head to read |
| HttpForward.SplitTerminated | crates/server/src/mixed_proxy.rs:300-302 | splitting undoes terminating lines with line breaks |
| HttpForward.KeepLine | crates/server/src/mixed_proxy.rs:468-479 | a line is kept exactly when it is not empty and neither a Host line nor meant for the proxy |
| HttpForward.BuildForwardHead | crates/server/src/mixed_proxy.rs:459-485 | the loop emits the request line, one Host line, the kept lines in order and an empty line |
| HttpForward.ForwardedHead | crates/server/src/mixed_proxy.rs:459-485 | split into lines the rewritten head is exactly those lines, and its first empty line is its end whatever body follows |
| HttpForward.ForwardedNames | crates/server/src/mixed_proxy.rs:471-479 | exactly one header line is a Host line and none is a proxy-authorization or proxy-connection line |
| HttpRequest.AuthorityExact | crates/server/src/mixed_proxy.rs:411-457 | the parser accepts exactly host, host:port, [host] and [host]:port, and the Host header it makes is the authority itself |
| HttpRequest.UriReassembles | crates/server/src/mixed_proxy.rs:390-409 | an accepted URI is the scheme, the Host header and the path, and the path goes out with a leading slash |
| HttpRequest.AuthenticatedPresents | crates/server/src/mixed_proxy.rs:311-384 | authentication succeeds if and only if the first proxy-authorization line carries the credentials under the basic scheme |
| HttpRequest.AcceptHttpRequest | crates/server/src/mixed_proxy.rs:294-340 | every accepted request answers the head read: a tunnel with the bytes after the head, or the rewritten head followed by them; it is accepted whenever the head parses |
| ClusterWords.SpellingRecognised | src/main_config.rs:407-431 | every name is recognised from its spelling |
| Cluster.AddAllExact | src/main_config.rs:239-322 | collecting tokens succeeds exactly when none is unknown and none clash, and the set then says exactly which occurred |
| Cluster.AddAllSameSet | src/main_config.rs:239-322 | collecting depends only on which tokens occur |
| Cluster.ExpandItemsExact | src/main_config.rs:444-452 | a list expands exactly when every item does, to the tokens of its items |
| Cluster.ExpandSane | src/main_config.rs:405-453 | no expansion contains reality or anytls without vision |
| Cluster.ParsedIsValid | src/main_config.rs:324-364 | every parsed set satisfies all the cooperation rules |
| Cluster.ParseCanonical | src/main_config.rs:366-402 | parsing the canonical name of a parsed cluster gives that cluster again |
| Cluster.ParseIgnoresOrder | src/main_config.rs:405-453 | success and result depend only on which comma-separated items occur |
| Cluster.RendererCooperates | src/main_config.rs:496-530 | no parsed VLESS cluster reaches the error arm of the renderer |
| Cluster.ComponentSet.SetInbound | src/main_config.rs:268-280 | sets the inbound unless another one is set |
| Cluster.ComponentSet.SetTlsLayer | src/main_config.rs:282-294 | sets the TLS layer unless another one is set |
| Cluster.ComponentSet.SetFraming | src/main_config.rs:296-308 | sets the framing unless another one is set |
| Cluster.ComponentSet.SetHysteriaObfs | src/main_config.rs:310-322 | sets the obfuscation unless another one is set |
| Cluster.ComponentSet.AddToken | src/main_config.rs:239-266 | adds a token to the set or fails |
| Cluster.ComponentSet.ValidateSet | src/main_config.rs:324-364 | completes the set or refuses it |
| Cluster.ParseCluster | src/main_config.rs:229-237 | the program's parse is the function the theorems are about |

## Left out

- Cryptographic primitives, rustls, certificate handling and key generation: libraries, represented by their laws.
- Sockets, timeouts, sleeps, thread spawning, bidirectional relays, the metrics HTTP listener, Prometheus text and the WireGuard bridge: plumbing without protocol state.
- The settings handshake of sing-anytls and the padding scheme: single-message parsing that would only add easy members.
- Latency, bandwidth and percentile figures and the retrying reader of the evaluator client: wall clock and floating point; the model takes the figures as given and the packet-loss test as counts of answered and lost packets.
- JSON encoding of evaluator messages, ports and keys in the test configuration: messages are values, and a receive with the sends that follow it is one step.
- SOCKS4 and SOCKS4a, replies after the upstream connection and `Address::parse`: easy on their own; requests carry the host text.
- Splitting and trimming the requested stack names, and stack descriptions: string formatting.
- Error texts: an error is a constructor, or in the cluster parser just the absence of a result.
- Client configuration generation, import, the endpoint registry and the rendered TOML: large tables and formatting; of the renderer only the choice of table is modelled.
- The VLESS, VMess, Trojan and Shadowsocks codecs, WebSocket frames and Vision: separate protocols outside this model.
- MuxWriters.WireCarriesEachRelay: the session channel is unbounded and never disconnects.
- MuxLoop.SessionLoop.ReaderLoop: the byte-level part holds for runs in which no `WouldBlock` interrupts a partly read header or body, because the code drops bytes there.
- Evaluator.Outcome: assumes no send or read fails in transit and no client timeout; which targets start is arbitrary.
