# Verified core of Astra-Core

Astra-Core is a Rust proxy platform. This project models its wire formats, stream ciphers, connection
multiplexer, DNS code and small shared containers in Dafny, and proves what each is for over every
input, every run or every interleaving. `dafny verify dfyconfig.toml` checks all of it.

## How the model is laid out

Code that updates state is a class or a method over arrays and fields. Its contract equates the new
state with a function of the old one. The promises of the system are lemmas about those functions,
mostly over whole runs.

| file | what it models |
|---|---|
| Bytes, Net, Aead | bytes, addresses, and an authenticated cipher as any pair of functions that undo each other |
| Nonce | the carry loops behind every nonce |
| ShadowsocksStream, ShadowsocksSession | the chunked Shadowsocks stream: cipher, resumable reader, outbound loop, session greeting |
| Shadowsocks2022 | its 2022 chunk stream |
| AesCfb | the streaming CFB cipher |
| Fragment | TLS record and data fragmentation of the freedom outbound, in both implementations |
| MuxFrame, MuxLoop, MuxIo, MuxSessions, MuxEndToEnd | the multiplexer: frames, read loops, the reader of one session, the session table under concurrency, and all of them joined |
| DnsName, DnsResponse | name compression and the response parser |
| FakeDns | the fake address pool under concurrent resolves |
| ResolverPolicy, TcpResolver, StaticHosts | which server is asked and heard, with the cache; the static hosts |
| LruCache, ReplayFilter, HappyEyeballs | the shared containers and the address order |
| MultiBuffer, ChunkStream | buffer queues and the chunk writer on top of them |

Ciphers, hashes and UTF-8 decoding are parameters: any function will do, and an authenticated cipher
is required only to open what it sealed. Random numbers, clocks, the order in which tasks run and the
sizes of reads are parameters too, and the lemmas hold for all of them.

## Where the code does not keep what one would expect

Each of these is proved, with the exact condition under which the code does keep it.

- A Shadowsocks reader with no plaintext byte left to come loops without returning (`PollReturnsIff`).
- A zero-length TLS record loses its header when fragmented (`MeaningKeptIff`); fragmentation with
  neither a least length nor a split limit need not end (`CutTerminatesIff`), and one without a least
  length can make empty fragments (`EmptyFragmentIff`).
- A frame with data of 65536 bytes or more, or a name that does not survive lossy decoding does not come back
  (`FrameRoundTripIff`); a read of a session may be empty before the end (`EmptyReadBeforeEofIff`).
- The 65537th allocation can replace a live session (`CanReplaceIff`), and a closed manager can still
  gain one (`ClosedCanGainSessionIff`).
- Name decompression has no guard against loops (`HangsIffRepeats`, `ParseHangsIff`).
- Overlapping fake resolves leave the two maps not inverse (`MapsInverseIff`), and the default /15
  pool holds addresses that are not recognised as fake (`PoolRecognisedIff`).
- The TCP resolver does not obey the fallback settings (`SettingsObeyedIff`).
- An emptied `MultiBuffer` keeps its count (`Append`), and `read_into` can run over the end of its
  destination (`ReadPanicsIff`).

The comment on the address order cites section 5 of RFC 8305; the order is that of section 4, and the
random order inside a family that it mentions is not done.

## Model

| member | source | states |
|---|---|---|
| Nonce.IncNonce | astra-core-proxy-shadowsocks/src/protocol.rs:259-266 | the in-place carry loop leaves exactly the big-endian successor of the old bytes, for every width |
| Nonce.NextBEAddsOne | astra-core-proxy-shadowsocks-2022/src/protocol.rs:122-129 | that successor has the value plus one modulo 256^n |
| Nonce.IterBEValue | astra-core-proxy-shadowsocks/src/protocol.rs:259-266 | k steps add k modulo 256^n, whatever the starting nonce |
| Nonce.IterBEDistinct | astra-core-proxy-shadowsocks-2022/src/protocol.rs:122-129 | no nonce comes back before the counter has gone once around |
| Nonce.IterBEComesRound | astra-core-proxy-shadowsocks-2022/src/protocol.rs:122-129 | after 256^n steps the counter is where it was |
| Nonce.IncreasingNonceGenerator.Generate | astra-core-crypto/src/generator.rs:40-48 | returns and stores the little-endian successor |
| Nonce.NextLEAddsOne | astra-core-crypto/src/generator.rs:40-48 | one call adds one modulo 256^n in little-endian reading |
| Nonce.AeadNonceGenerator | astra-core-crypto/src/generator.rs:51-57 | starts at all ones |
| Nonce.AeadNonceCountsFromZero | astra-core-crypto/src/generator.rs:40-57 | the k-th nonce, counting from zero, has value k modulo 256^n |
| Nonce.AeadNoncesDistinct | astra-core-crypto/src/generator.rs:40-57 | any 256^n consecutive nonces are pairwise distinct |
| ShadowsocksStream.SessionCipher.EncryptChunk | astra-core-proxy-shadowsocks/src/protocol.rs:399-410 | emits size, nonce and ciphertext bound to the size, and moves the counter by one |
| ShadowsocksStream.SessionCipher.DecryptChunk | astra-core-proxy-shadowsocks/src/protocol.rs:412-420 | opens under the counter; the counter moves only on success |
| ShadowsocksStream.EncryptStream | astra-core-proxy-shadowsocks/src/protocol.rs:399-410 | sealing a list chunk by chunk writes the sealed stream of the list, the counter having moved once per chunk |
| ShadowsocksStream.SizeFieldIsExactIff | astra-core-proxy-shadowsocks/src/protocol.rs:399-410 | the size field gives the length of the chunk if and only if nonce, plaintext and tag together stay below 65536 bytes |
| ShadowsocksStream.DecryptingReader.PollSize | astra-core-proxy-shadowsocks/src/protocol.rs:476-495 | the Size arm is one step of the reader automaton |
| ShadowsocksStream.DecryptingReader.PollPayload | astra-core-proxy-shadowsocks/src/protocol.rs:496-531 | the Payload arm is one step of the reader automaton |
| ShadowsocksStream.DecryptingReader.PollRead | astra-core-proxy-shadowsocks/src/protocol.rs:459-534 | the stateful loop computes the reader automaton on the answers of the inner reader |
| ShadowsocksStream.AbsorbWhole | astra-core-proxy-shadowsocks/src/protocol.rs:496-531 | when a sealed chunk is complete, the nonce it carries is the one the receiver has counted to, and the plaintext is the next of the list |
| ShadowsocksStream.PollConserves | astra-core-proxy-shadowsocks/src/protocol.rs:459-534 | on a sealed stream no failure of a poll is its own, and bytes handed out, bytes held and plaintexts to come stay the same stream |
| ShadowsocksStream.ReaderYieldsPlaintexts | astra-core-proxy-shadowsocks/src/protocol.rs:459-534 | for every fragmentation, every pending answer and every destination size, the bytes read are a prefix of the plaintexts, and once all input has come in only the held output is missing |
| ShadowsocksStream.OutputDrains | astra-core-proxy-shadowsocks/src/protocol.rs:459-534 | after the last input, reads hand out exactly as much of the held output, in order, as the destinations have room for |
| ShadowsocksStream.ProgressIffBytes | astra-core-proxy-shadowsocks/src/protocol.rs:478-509 | a turn of the loop changes the reader if and only if the inner reader gave a byte |
| ShadowsocksStream.SpinsAtEndOfInput | astra-core-proxy-shadowsocks/src/protocol.rs:478-509 | hence at the end of input the poll keeps looping: after any number of empty answers it has not returned |
| ShadowsocksStream.PollReturnsIff | astra-core-proxy-shadowsocks/src/protocol.rs:459-534 | the exact condition: with an answer of at least a byte for every byte in transit, a poll returns if and only if some plaintext byte is held or still to come, and otherwise goes on for ever |
| ShadowsocksStream.ReadsCompleteAfterInput | astra-core-proxy-shadowsocks/src/protocol.rs:459-534 | once all input has come in, any further reads with room for the rest complete the plaintexts |
| ShadowsocksStream.ReaderDeliversEverything | astra-core-proxy-shadowsocks/src/protocol.rs:459-534 | if the inner reader gives at least a byte whenever it is ready, all plaintexts are delivered: after as many calls that find it ready and have room as there are wire and plaintext bytes, whatever the other calls were |
| ShadowsocksStream.ReceiveLoop | astra-core-proxy-shadowsocks/src/outbound.rs:103-126 | the outbound loop computes the list of plaintexts up to the reason it stops, with its own counter |
| ShadowsocksStream.ReceiveUndoesSealing | astra-core-proxy-shadowsocks/src/outbound.rs:103-126 | that counter-based loop recovers every sealed list and goes on with whatever follows, counters in step |
| ShadowsocksSession.AddressRoundTrip | astra-core-proxy-shadowsocks/src/protocol.rs:268-345 | every address that can be written reads back with its port, at any continuation, and the length reported is the length written |
| ShadowsocksSession.SessionCarriesTargetAndData | astra-core-proxy-shadowsocks/src/protocol.rs:610-660 | a sealed target followed by sealed plaintexts opens as that target, every run of reads yields a prefix of those plaintexts, and one that finds the transport ready often enough yields them all |
| Shadowsocks2022.WriteChunk | astra-core-proxy-shadowsocks-2022/src/protocol.rs:133-149 | seals length and payload under consecutive nonces and moves the counter by two |
| Shadowsocks2022.ReadChunk | astra-core-proxy-shadowsocks-2022/src/protocol.rs:151-180 | the reader with all its error exits, as a function of the wire, with the nonce each exit leaves |
| Shadowsocks2022.ChunkRoundTripIff | astra-core-proxy-shadowsocks-2022/src/protocol.rs:133-180 | a chunk reads back whole, with the nonces in step, if and only if its payload has 1 to 16383 bytes |
| Shadowsocks2022.StreamRoundTrip | astra-core-proxy-shadowsocks-2022/src/protocol.rs:133-180 | every list of such payloads reads back as itself and leaves the reader at whatever follows, 2n nonces on |
| Shadowsocks2022.CutStreamYieldsPrefix | astra-core-proxy-shadowsocks-2022/src/protocol.rs:151-180 | a stream cut at any byte yields exactly the payloads of its whole chunks, then ends quietly if less than a sealed length is left and in an error otherwise |
| Shadowsocks2022.ChunkNonces | astra-core-proxy-shadowsocks-2022/src/protocol.rs:133-149 | chunk j is sealed under the nonces 2j and 2j + 1 above the start |
| Shadowsocks2022.NoncesDistinctIff | astra-core-proxy-shadowsocks-2022/src/protocol.rs:122-149 | no nonce is used twice in a stream if and only if twice its number of chunks is at most 256^n |
| AesCfb.AesCfbStream.XorKeyStream | astra-core-crypto/src/aes.rs:62-91 | the blockwise loops over the shift register compute the bytewise feedback cipher, in place, and leave its register and offset |
| AesCfb.CallsAreOne | astra-core-crypto/src/aes.rs:62-91 | any division of a message into calls gives the bytes and the register of one call |
| AesCfb.ProcessIsCfb128 | astra-core-crypto/src/aes.rs:62-91 | from a block boundary, encryption is CFB-128 as written in section 6.3 of NIST SP 800-38A, for every block function |
| AesCfb.DecryptUndoesEncrypt | astra-core-crypto/src/aes.rs:62-91 | decryption gives the plaintext back from any register, and ends in the register of the encryptor |
| AesCfb.StreamsAgree | astra-core-crypto/src/aes.rs:62-91 | with independent divisions of plaintext and ciphertext into calls, the ciphertext is one-shot CFB-128 and both ends finish with equal register and offset |
| Fragment.WriteFragmented | astra-core-proxy-freedom/src/lib.rs:105-219 | the free function makes exactly the writes of the specification for every packet number and all random choices |
| Fragment.FragmentWriter.WriteAll | astra-core-proxy-freedom/src/lib.rs:268-390 | the writer object makes the same writes for the same packet number and choices as the free function |
| Fragment.RandsAgreeIff | astra-core-proxy-freedom/src/lib.rs:221-266 | the two random draws agree, and draw from the range, if and only if it is not the range of all 64-bit numbers, where one divides by zero |
| Fragment.CutConserves | astra-core-proxy-freedom/src/lib.rs:129-217 | the pieces of a finished cut concatenate to the payload, at most `max_split` of them when it is positive, none empty when `length_min` is positive |
| Fragment.WriteTlsBytes | astra-core-proxy-freedom/src/lib.rs:129-190 | what reaches the connection does not depend on `interval_max`: the records, then the trailing bytes |
| Fragment.TlsFragmentationPreservesMeaning | astra-core-proxy-freedom/src/lib.rs:115-190 | the output parses into records with the old three-byte prefix and correct lengths (section 5.1 of RFC 8446) whose payloads concatenate to the old payload, followed by the trailing bytes |
| Fragment.EmptyRecordLosesHeader | astra-core-proxy-freedom/src/lib.rs:115-190 | a record of length zero comes out without its header, so no parse of the output has its meaning |
| Fragment.MeaningKeptIff | astra-core-proxy-freedom/src/lib.rs:115-190 | for a finished first write the meaning is kept if and only if the record is not empty |
| Fragment.EmptyFragmentIff | astra-core-proxy-freedom/src/lib.rs:115-190 | some choices give a record an empty fragment, which section 5.1 of RFC 8446 forbids for handshake records, if and only if the settings let a zero be drawn with a fragment to follow and the loop end |
| Fragment.CutTerminatesIff | astra-core-proxy-freedom/src/lib.rs:129-217 | the loop ends for every sequence of random lengths if and only if there is nothing to cut, `length_min` is positive or `max_split` is positive |
| Fragment.DataModeIsTransparent | astra-core-proxy-freedom/src/lib.rs:191-217 | outside TLS mode any run of writes sends the same byte stream, whatever the packet range and choices |
| MuxFrame.ReadFrame | astra-core-mux/src/frame.rs:382-418 | reading from a stream parses the frame at its front and leaves the stream right behind it, or reports the error |
| MuxFrame.AddressPortRoundTrip | astra-core-mux/src/frame.rs:284-360 | a destination decodes to itself with its name cut at 255 bytes and read lossily, at any continuation |
| MuxFrame.MetaRoundTripIff | astra-core-mux/src/frame.rs:138-276 | encoded metadata decodes to itself if and only if its name survives the cut and the lossy decoding, it carries a TCP or UDP target exactly when it is New, no inbound metadata, and a global id only where the decoder looks for one |
| MuxFrame.DataRoundTripIff | astra-core-mux/src/frame.rs:363-418 | the data part comes back if and only if the data bit says whether there is any and it is under 65536 bytes |
| MuxFrame.FrameRoundTripIff | astra-core-mux/src/frame.rs:363-418 | a frame reads back as itself, leaving exactly what follows, if and only if metadata and data are good in those senses |
| MuxFrame.FramesRoundTrip | astra-core-mux/src/frame.rs:363-418 | any interleaving of good frames of any sessions on one connection is read back as the same list |
| MuxLoop.Endpoint.HandleFrame | astra-core-mux/src/server.rs:74-108 | handling a frame is the event of the endpoint automaton, on either side |
| MuxLoop.Endpoint.ReadLoop | astra-core-mux/src/client.rs:105-137 | the loop handles every frame up to the first read error, in wire order |
| MuxLoop.Endpoint.AttachChannels | astra-core-mux/src/session.rs:65-72 | attaches at most once, and says whether it did |
| MuxLoop.SessionsAreIsolated | astra-core-mux/src/server.rs:74-108 | what a session observes after any run is what it observes after the events that concern it alone |
| MuxLoop.AttachedReceivesKeepData | astra-core-mux/src/client.rs:105-137 | while attached and alive, a session is delivered exactly the data of its own Keep frames, in order |
| MuxLoop.UnattachedReceivesNothing | astra-core-mux/src/server.rs:74-108 | while no channel is attached, Keep data is dropped, however much arrives |
| MuxIo.SessionIo.PollReadInto | astra-core-mux/src/io.rs:136-182 | the stateful poll computes the specification, partial reads and the held lock included |
| MuxIo.RunConserves | astra-core-mux/src/io.rs:136-182 | over every run, bytes read, unread tail and queue are together everything received, and `eof` is set only when the channel is closed and all of it was read |
| MuxIo.ReadIsPrefix | astra-core-mux/src/io.rs:136-182 | what was read is a prefix of what was received, and all of it at `eof` |
| MuxIo.ReadsReachEof | astra-core-mux/src/io.rs:136-182 | once the sender is gone, reads with room reach `eof`, after at most one for every chunk and byte left and one more |
| MuxIo.EmptyReadBeforeEofIff | astra-core-mux/src/io.rs:136-182 | a read of no bytes, which callers take for the end, comes before `eof` if and only if the destination was full or the chunk at hand was empty, with or without a sender |
| MuxEndToEnd.ChannelCarriesMine | astra-core-mux/src/server.rs:74-108 | in one run of loop, other tasks and reads, a channel carries exactly the Keep payloads of its session from attachment to the event that ends it, and `eof` comes only after that event |
| MuxEndToEnd.ConsumerConserves | astra-core-mux/src/io.rs:136-182 | at every point of every such run, bytes read, unread tail and queue are together those payloads, and at `eof` all were read |
| MuxEndToEnd.ConsumerReadsOwnKeepData | astra-core-mux/src/client.rs:105-137 | from the bytes of a connection that mixes any sessions: the consumer of one reads a prefix of the Keep payloads the peer wrote for it after it attached, and at `eof` all of them up to its End |
| MuxSessions.SessionManager.Allocate | astra-core-mux/src/session.rs:114-134 | refuses when closed or at a limit; otherwise hands out the next id and enters the session under it |
| MuxSessions.SessionManager.CloseIfIdle | astra-core-mux/src/session.rs:152-165 | closes only an open, empty manager whose samples are unchanged |
| MuxSessions.SessionManager.CloseAll | astra-core-mux/src/session.rs:167-175 | marks every session and the manager closed, once |
| MuxSessions.InvAlways | astra-core-mux/src/session.rs:114-175 | the table invariant survives every interleaving of the steps of every task, the unlocked read of `closed` being a step of its own |
| MuxSessions.TableGuarantees | astra-core-mux/src/session.rs:114-134 | in every reachable state each entry is under its own id, both limits hold, and ids fewer than 65536 allocations apart differ |
| MuxSessions.EarlyAllocationIsFresh | astra-core-mux/src/session.rs:114-134 | none of the first 65536 allocations replaces a live session |
| MuxSessions.LateAllocationReplaces | astra-core-mux/src/session.rs:114-134 | the bound is exact: without a guard in the settings, a run is exhibited whose 65537th allocation replaces one |
| MuxSessions.CanReplaceIff | astra-core-mux/src/session.rs:114-134 | some run has an allocation replace a live session if and only if the settings neither keep to one session at a time nor to fewer than 65536 connections |
| MuxSessions.IdleCloseOnlyWhenQuiet | astra-core-mux/src/session.rs:152-165 | when the idle monitor closes, the table is empty and the allocations since its sample are a multiple of 65536 |
| MuxSessions.IssuesIff | astra-core-mux/src/session.rs:114-134 | only the locked step of an allocation issues a session, if and only if it was begun and there is room |
| MuxSessions.ClosedCanGainSessionIff | astra-core-mux/src/session.rs:114-165 | after closing, some continuation issues a session if and only if an allocation is past its read of `closed` and a connection is left |
| MuxSessions.ClosedManagerCanGainSession | astra-core-mux/src/session.rs:114-165 | such a state is reachable: a run is exhibited in which a closed manager gains an open session |
| DnsName.DecodeDomainName | astra-core-dns/src/lib.rs:89-127 | the loop returns the result of the walk on every message on which the walk ends |
| DnsName.HaltsIff | astra-core-dns/src/lib.rs:89-127 | decoding returns after some number of turns if and only if it does within one turn per byte and one more |
| DnsName.HangsIffRepeats | astra-core-dns/src/lib.rs:89-127 | decoding hangs if and only if it comes to some position twice |
| DnsName.CycleNeverHalts | astra-core-dns/src/lib.rs:103-114 | a position visited twice is visited for ever |
| DnsName.SelfPointerHangs | astra-core-dns/src/lib.rs:103-114 | a pointer to itself hangs the decoder |
| DnsName.PointerIntoOwnRunHangs | astra-core-dns/src/lib.rs:103-114 | a pointer to before itself is not safe: one into its own label run hangs the decoder |
| DnsName.CompliantNamesHalt | astra-core-dns/src/lib.rs:89-127 | decoding returns on every message whose pointers lead before the start of the label run they end (section 4.1.4 of RFC 1035) |
| DnsName.DecodesIffExpands | astra-core-dns/src/lib.rs:89-127 | decoding yields a name and a position if and only if the bytes expand, as a relation, to those labels and end there |
| DnsName.EncodeDomainName | astra-core-dns/src/lib.rs:78-87 | the label loop computes the encoding |
| DnsName.NameRoundTripIff | astra-core-dns/src/lib.rs:78-127 | an ASCII name comes back at any offset in any message, with decoding stopping right behind it, if and only if all its labels have 1 to 63 bytes |
| DnsResponse.ParseDnsResponse | astra-core-dns/src/lib.rs:215-279 | the parser with its moving position computes the specification, and never indexes outside the data |
| DnsResponse.NameIsSkipped | astra-core-dns/src/lib.rs:215-279 | a name, compressed or not, is stepped over exactly |
| DnsResponse.RecordIsRead | astra-core-dns/src/lib.rs:242-272 | a serialised record is read as its address, if it has one, its time to live and its end |
| DnsResponse.ResponseRoundTrip | astra-core-dns/src/lib.rs:215-279 | on any message serialised from a question list and an answer list (section 4.1 of RFC 1035), whatever follows, exactly the A and AAAA addresses come back in order with the least of their times to live capped at 300, or the empty response |
| DnsResponse.ParseHangsIff | astra-core-dns/src/lib.rs:215-279 | parsing hangs if and only if one of the names it decodes does |
| DnsResponse.CompliantMessageReturns | astra-core-dns/src/lib.rs:215-279 | a message is parsed to the end if the names the parser decodes in it follow the rule for pointers, whatever its other bytes are |
| FakeDns.FakeDnsResolver.Allocate | astra-core-dns/src/lib.rs:1039-1050 | hands out base plus the counter while it is below the pool size; the counter moves in either case |
| FakeDns.FakeDnsResolver.Resolve | astra-core-dns/src/lib.rs:1081-1100 | undisturbed, takes the state to that of the specification, with its answer |
| FakeDns.ResolvedKeeps | astra-core-dns/src/lib.rs:1081-1100 | which keeps the two maps inverse from any tidy state, and the state tidy until the counter wraps to zero |
| FakeDns.ResolvedAnswers | astra-core-dns/src/lib.rs:1081-1100 | answers as the forward map then says, changes no earlier answer, and fails only for a new domain and an exhausted pool |
| FakeDns.InsertKeepsInverseIff | astra-core-dns/src/lib.rs:1081-1100 | inserting an unused address keeps the maps inverse if and only if the domain had none |
| FakeDns.InvAlways | astra-core-dns/src/lib.rs:1081-1100 | the invariant of maps, counter and tasks survives every interleaving of lookup, allocate and insert with fewer than 2^32 allocations |
| FakeDns.AnswersLeadBack | astra-core-dns/src/lib.rs:1064-1100 | every address ever returned leads back to the lower-cased domain it was returned for, and distinct domains never share one |
| FakeDns.MapsInverseIff | astra-core-dns/src/lib.rs:1081-1100 | after any run the two maps are inverse if and only if no insert of it found its domain already there |
| FakeDns.OverlapLeavesOrphan | astra-core-dns/src/lib.rs:1081-1100 | two overlapping resolves of one name leave an address the forward map does not know: the maps are then not inverse |
| FakeDns.AllRecognisedIff | astra-core-dns/src/lib.rs:1067-1076 | for a block-aligned pool every address is recognised as fake if and only if the prefix is 16 or longer |
| FakeDns.PoolRecognisedIff | astra-core-dns/src/lib.rs:1067-1076 | for a pool at any base, if and only if the block does not run over the last two octets |
| FakeDns.EveryAnswerRecognised | astra-core-dns/src/lib.rs:1067-1100 | such a resolver never returns an address it does not recognise, under any interleaving |
| ResolverPolicy.SortClients | astra-core-dns/src/lib.rs:575-596 | computes the order and whether a final-tagged server matches |
| ResolverPolicy.OrderIsStablePartition | astra-core-dns/src/lib.rs:575-596 | the order holds each admitted server once, matching ones first, each kind as configured |
| ResolverPolicy.QuerySingle | astra-core-dns/src/lib.rs:735-767 | gives the answer of the first record type that has an expected address |
| ResolverPolicy.ExpectedIff | astra-core-dns/src/lib.rs:492-497 | the filter keeps exactly the expected addresses, or all when none are named |
| ResolverPolicy.ExpectedAppend | astra-core-dns/src/lib.rs:492-497 | and keeps their order and repeats |
| ResolverPolicy.SerialQuery | astra-core-dns/src/lib.rs:695-712 | returns the first answer in the order, and the empty response when there is none |
| ResolverPolicy.ParallelQuery | astra-core-dns/src/lib.rs:714-733 | returns the very same for the same answers of the servers |
| ResolverPolicy.FirstIsFirst | astra-core-dns/src/lib.rs:695-733 | the answer returned is that of a server before which none had any |
| ResolverPolicy.UdpDnsResolver.DoNameserverLookup | astra-core-dns/src/lib.rs:651-680 | cache, order, restriction and query together compute the outcome and the new cache of the specification, with a clock reading for each use of the cache |
| ResolverPolicy.FailsIffNoServerAnswers | astra-core-dns/src/lib.rs:651-680 | a lookup fails if and only if nothing fresh is held and no server that may be asked has an answer |
| ResolverPolicy.AnswersHaveASource | astra-core-dns/src/lib.rs:333-393 | however lookups overlap, every answer was given by a server that may be asked about that domain, to this lookup or to one of the same question that stored it less than 300 seconds before |
| ResolverPolicy.OnlyMatchingServersAreHeard | astra-core-dns/src/lib.rs:651-680 | with a final tag, fallback disabled, or disabled on match and any match, no other server is ever heard, through the cache neither |
| TcpResolver.TcpSerialQuery | astra-core-dns/src/lib.rs:848-877 | finds the same answer, but fails with the last failure of any server |
| TcpResolver.TcpParallelQuery | astra-core-dns/src/lib.rs:879-918 | finds the same answer, and fails with the empty response |
| TcpResolver.TcpDnsResolver.DoNameserverLookup | astra-core-dns/src/lib.rs:825-846 | cache, order and query together compute the outcome and the new cache of a resolver without restrictions, but for the error of a serial search |
| TcpResolver.LookupSearchesWholeOrder | astra-core-dns/src/lib.rs:825-846 | which, when nothing fresh is held, is the first answer in the whole order |
| TcpResolver.SettingsObeyedIff | astra-core-dns/src/lib.rs:825-846 | the TCP resolver obeys the fallback settings for all answers if and only if no forbidden server would be in its order |
| TcpResolver.ForbiddenServerIsHeard | astra-core-dns/src/lib.rs:825-846 | otherwise answers are exhibited under which it returns a forbidden one |
| StaticHosts.LookupFollowsThePath | astra-core-dns/src/lib.rs:469-487 | the recursive lookup takes a path of replacements through the table, of at most six steps |
| StaticHosts.LookupIffPath | astra-core-dns/src/lib.rs:469-487 | it gives a result if and only if such a path leads there: to addresses after at most five replacements, to an unknown domain, or to the sixth replacement |
| LruCache.LruCache.Lookup | astra-core-common/src/cache.rs:23-34 | returns the held value and makes the key the most recent |
| LruCache.LruCache.Insert | astra-core-common/src/cache.rs:69-88 | replaces or adds the value, evicting the least recent key of a full cache |
| LruCache.LruCache.KeyFromValue | astra-core-common/src/cache.rs:42-58 | returns some key with the value and makes it the most recent |
| LruCache.AlwaysMostRecent | astra-core-common/src/cache.rs:23-88 | after every run the keys held are the max(capacity, 1) most recently used distinct ones, in order of use, each with its last put value |
| LruCache.RecencyIsByLastUse | astra-core-common/src/cache.rs:23-88 | that order is the order of last uses, each used key once |
| LruCache.LargerCacheHoldsMore | astra-core-common/src/cache.rs:23-88 | the same gets, peeks and puts on a larger cache always leave a superset with equal values |
| LruCache.FreshCaches | astra-core-common/src/cache.rs:13-19 | both invariants hold of new caches, so that the theorems cover every run from the start |
| ReplayFilter.ReplayFilter.CheckValue | astra-core-common/src/antireplay.rs:27-41 | rotates when the interval is over and accepts what neither pool has |
| ReplayFilter.PoolsAreTurns | astra-core-common/src/antireplay.rs:27-41 | one pool is what was accepted since the last rotation, the other what was accepted in the turn before |
| ReplayFilter.RejectedIffRecentlyAccepted | astra-core-common/src/antireplay.rs:27-41 | a check is rejected if and only if the same value was accepted less than two rotations ago |
| ReplayFilter.ReplayWithinIntervalIsRejected | astra-core-common/src/antireplay.rs:27-41 | with a clock that does not go back, an accepted value is rejected at every check within the interval |
| MultiBuffers.Buffer.Extend | astra-core-buf/src/buffer.rs:79-84 | appends to the window without moving its start |
| MultiBuffers.Buffer.Advance | astra-core-buf/src/buffer.rs:71-77 | drops from the front, and an emptied window goes back to the start of the storage |
| MultiBuffers.Buffer.Write | astra-core-buf/src/buffer.rs:130-139 | appends as much as fits behind the window, and fails exactly when the end has reached the capacity |
| MultiBuffers.Buffer.Read | astra-core-buf/src/buffer.rs:147-158 | takes the front of the window; what was got and what remains is what was there |
| MultiBuffers.MultiBuffer.PopFront | astra-core-buf/src/multi_buffer.rs:49-53 | takes the first buffer off the flat bytes and the count |
| MultiBuffers.MultiBuffer.Append | astra-core-buf/src/multi_buffer.rs:63-68 | moves all bytes over; the count of the emptied queue stays, so that it is right if and only if there were none |
| MultiBuffers.MultiBuffer.CutFront | astra-core-buf/src/multi_buffer.rs:70-94 | divides the flat bytes at the least of n and their number, counts right on both sides |
| MultiBuffers.MultiBuffer.SplitOff | astra-core-buf/src/multi_buffer.rs:96-116 | keeps the longest run of whole buffers within `at` bytes and loses nothing |
| MultiBuffers.MultiBuffer.CopyBytes | astra-core-buf/src/multi_buffer.rs:152-163 | writes the first bytes that fit and nothing behind them |
| MultiBuffers.MultiBuffer.ReadInto | astra-core-buf/src/multi_buffer.rs:126-143 | returns if and only if the destination ends at a buffer boundary, inside the first bytes or past all; then it conserves the flat bytes |
| MultiBuffers.ReadPanicsIff | astra-core-buf/src/multi_buffer.rs:126-143 | it panics on exactly the destinations that end past the first bytes, short of the whole and inside a buffer |
| ChunkStream.WriteMultiBuffer | astra-core-crypto/src/chunk.rs:169-190 | terminates and emits the framed form of the whole input |
| ChunkStream.FramesCarryTheStream | astra-core-crypto/src/chunk.rs:25-190 | an independent reader of the format gets back chunks of 1 to 8192 bytes, all full but the last, that concatenate to the input |
| ChunkStream.FramesInjective | astra-core-crypto/src/chunk.rs:169-190 | two inputs with the same framed form are the same |
| HappyEyeballs.Interleave | astra-core-common/src/happy_eyeballs.rs:61-74 | fills the list with the two families dealt out in turn, within its bounds |
| HappyEyeballs.SortAddresses | astra-core-common/src/happy_eyeballs.rs:47-59 | sorts in place into that order, from the stable division into families |
| HappyEyeballs.SortKeepsAddresses | astra-core-common/src/happy_eyeballs.rs:47-74 | the result is a permutation and keeps the order inside each family |
| HappyEyeballs.SortAlternates | astra-core-common/src/happy_eyeballs.rs:47-74 | the preferred family is on the even places while both last, then the longer one is left (section 4 of RFC 8305) |

## Left out

- Nonce.IncreasingNonceGenerator.Generate: the trait it implements and the static generators beside it are not modelled.
- ShadowsocksStream.ReceiveLoop: the tasks, the link and the error texts around it are left out; the reason it stops is kept.
- ShadowsocksStream.DecryptingReader.PollRead: wake-ups and the futures machinery are left out; an unready inner reader is an answer of its script and so is one that fails.
- ShadowsocksSession.SessionCarriesTargetAndData: the session is opened from the wire as a value; salts and key derivation are not modelled.
- Fragment.WriteFragmented: sleeps are left out, lengths are unbounded, and the draw is that of every range but the full 64-bit one, of which `RandsAgreeIff` speaks.
- Fragment.FragmentWriter.WriteAll: shares the model of the loops, which are the same code twice in the source.
- MuxFrame.MetaRoundTripIff: decoding with `read_source_and_local` set and the inbound metadata it reads are not modelled.
- MuxEndToEnd.ConsumerReadsOwnKeepData: what `take_channels` hands to its caller is neither sent on nor attached again.
- MuxLoop.Endpoint.HandleFrame: a frame is handled in one step; finer interleavings of locks within one frame and sessions held past their removal are left out.
- MuxSessions.SessionManager.Allocate: sessions that the server adds with `add` under ids of the peer are outside the limits and are modelled in MuxLoop only.
- DnsName.DecodeDomainName: names are byte strings accepted by a UTF-8 predicate; the method is for messages on which the loop ends, and `HaltsIff` says which.
- DnsResponse.ResponseRoundTrip: error texts are left out, and a response code is kept as its number.
- FakeDns.InvAlways: is for fewer than 2^32 allocations, as are the lemmas over interleavings that rest on it.
- ResolverPolicy.UdpDnsResolver.DoNameserverLookup: `matches_domain` is a parameter; sockets, timeouts and the stale-serving mode of the cache, which both resolvers switch off, are left out.
- LruCache.LruCache.KeyFromValue: which of several keys with the value is found depends on the hash map and is a parameter.
- MultiBuffers.MultiBuffer.CutFront: a queue owns its buffers and holds them as values, so that sharing between queues, which ownership rules out, cannot be expressed; `front_mut` and `iter_mut` hand out buffers and are left out.
- ChunkStream.WriteMultiBuffer: the plain two-byte size parser only; the AEAD size parser and the chunk reader on top of `BufferedReader::read_at_most`, which drops bytes, are left out.
- HappyEyeballs.SortAddresses: the connection race that follows it, with its delays, is left out.
- `SessionIo::poll_write` and `MuxWriter::next_meta`: the order of writes belongs to the runtime.
- UDP packets of both Shadowsocks versions, SOCKS, VMess, VLESS, Trojan, Hysteria and the other proxies.
- Routing, balancing, statistics, configuration, the JSON comment reader and the command line.
- Transports (TLS, QUIC, WebSocket, gRPC), sockets and timers.
- The arithmetic of the ciphers and hashes themselves.
