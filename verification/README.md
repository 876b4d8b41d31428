# xtp-rs: a verified model of its state machines, parsers and indexes

xtp-rs is a transparent proxy. This project models, in Dafny 4.11, the parts of it that carry
strong invariants, and proves what those parts promise. `dafny verify dfyconfig.toml` checks
everything.

* **UDP session table** (`UdpTable`, `UdpProtocol`, `UdpSafety`, `UdpCollector`, `UdpCode`).
  Packet tasks, one creator per key, the garbage collector, finishing receive tasks and
  shutdown share one map. `UdpProtocol` interleaves the critical sections of its mutex with
  the lock-free actions in any order, `UdpSafety` proves what holds in every reachable state,
  `UdpCollector` what a collector pass does, and `UdpCode` has the code of each section, as one
  step of that protocol, and what its caller may rely on.
* **QUIC Initial sniffing** (`QuicVarint`, `QuicReassembly`, `QuicFrames`, `QuicInitial`,
  `QuicStream`). Variable-length integers (section 16 of RFC 9000), CRYPTO, ACK and
  CONNECTION_CLOSE frames (sections 19.6, 19.3 and 19.19), the sparse reassembly buffer, and
  the whole path from datagrams to a host name. Decryption is a function about which nothing
  is assumed.
* **TLS and HTTP sniffing** (`TlsHello`, `TlsEncoding`, `TlsRecords`, `HttpSniff`,
  `SniffLoop`). ClientHello (section 4.1.2 of RFC 8446), record fragmentation (section 5.1 of
  RFC 8446), server_name (section 3 of RFC 6066), the Host header, and the doubling retry loop
  around both.
* **IPv6 range checker** (`Ip6Range`). The awk program that accepts address literals (section
  2.2 of RFC 4291, forms 1 and 2) and compares them through a string key.
* **Pending-sniff replay** (`PendingReplay`, `PendingInterleaved`, `KeyLocks`). Datagrams cached until a
  verdict and then flushed: exact conservation with the handler and the reap as single steps,
  and exactly when it survives if they interleave send by send. That handlers of one key
  exclude each other is proved of the lock table (`KeyLocks`).
* **Half-close timer** (`HalfClose`), **upstream selection** (`PickStats`, `UpstreamPick`,
  `Failover`) and **routing** (`Domains`, `Routing`, `GroupLookup`, `RouteCaches`,
  `GroupConfig`).

Each method follows the control flow of the code it models and is proved against a function
or predicate that says what it means; the theorems are about those meanings. Byte parsers
compute on suffixes of the input where the code moves a cursor; the methods keep the cursor
and are proved equal.

Four properties that one might expect do not hold of the code. Each has a concrete
counterexample and an exact condition: the replay order under the finer interleaving
(`PendingInterleaved.OrderCanBreak`, `DatagramCanBeLost`, `FlushesCanMix`,
`RunsAreFaithfulIffHarmless`), the geosite index on an empty name
(`Domains.IndexCanDisagree`, `IndexAgreesWithRules`), validation of an explicit empty group
list (`GroupConfig.EmptyListPassesValidation`, `DefaultIsServed`), and `route_cache_max` as a
bound on the size of the route caches (`RouteCaches.LimitCanBeExceeded`,
`LimitHoldsIffFewFresh`).

## Model

| member | source | states |
|---|---|---|
| UdpCode.UdpRuntime.LookOrReserve | src/udp/mod.rs:71-109 | one turn of the lookup loop: whoever reserves is the only creator of the key, a session handed out belongs to the key and has not finished, whoever waits waits for a creator at work, and no other entry changes; the step keeps the protocol invariant |
| UdpCode.UdpRuntime.Abandon | src/udp/mod.rs:113-117 | after a failed join the unconditional removal hits nothing but the caller's own entry |
| UdpCode.UdpRuntime.RegisterCreated | src/udp/mod.rs:125-174 | the creator's return: a registered session is the only usable one of its key, one that is not registered is cancelled and the key is free again, and only the caller's own entry is replaced |
| UdpCode.UdpRuntime.GetReady | src/udp/mod.rs:245-255 | answers a session if and only if the entry is Ready with it, and then it belongs to the key and has not finished |
| UdpCode.UdpRuntime.Snapshot | src/udp/mod.rs:182-192 | the copy holds exactly the Ready entries |
| UdpCode.UdpRuntime.SweepExpired | src/udp/mod.rs:209-235 | removes exactly the entries still holding the same session and still idle, and reports exactly those sessions |
| UdpCode.UdpRuntime.LeaveTable | src/udp/mod.rs:495-506 | after a receive task has left, no entry of any key holds its session, and every other entry is untouched |
| UdpCode.UdpRuntime.Clear | src/udp/mod.rs:259-271 | reports every Ready session and every Creating notice, empties the table, and leaves usable sessions only in the hands of creators |
| UdpProtocol.StepKeepsInv | src/udp/mod.rs:61-301 | every action of every party keeps the invariant of the session protocol |
| UdpProtocol.RunKeepsInv | src/udp/mod.rs:61-301 | so does every run |
| UdpSafety.ReachableInv | src/udp/mod.rs:44-301 | the invariant holds in every reachable state |
| UdpSafety.OneUsableSessionPerKey | src/udp/mod.rs:71-175 | in every reachable state a key has at most one session that is not cancelled |
| UdpSafety.EverySessionAccountedFor | src/udp/mod.rs:71-175 | every session ever made is cancelled, Ready in the table, or held by the one creator of its key |
| UdpSafety.ReadyEntriesAreServed | src/udp/mod.rs:495-506 | no Ready entry outlives its finished receive task, and entries and answers belong to their key |
| UdpSafety.ClearedStays | src/udp/mod.rs:257-271 | shutdown is not undone by any later run |
| UdpSafety.ShutdownIsFinal | src/udp/mod.rs:257-271 | once cleared the table stays empty forever, and every session is cancelled when the creators in flight are back |
| UdpSafety.CreatorRemovesOnlyItsOwnEntry | src/udp/mod.rs:113-129 | the unconditional removal by a creator can only hit its own entry |
| UdpSafety.NoLostWakeUp | src/udp/mod.rs:88-108 | a call asleep on a notice still sees that Creating entry with its creator at work, or firing the notice is the creator's next step |
| UdpSafety.CreatorAloneWakes | src/udp/mod.rs:111-174 | from every reachable state the creator alone wakes the sleeper in at most two steps |
| UdpSafety.SweepCancelsOnlyIdle | src/udp/mod.rs:209-242 | under any interleaving the sweep cancels a session exactly when it is in the table, was found expired and is still idle for the whole timeout |
| UdpSafety.SleeperIsServed | src/udp/mod.rs:88-175 | when the creator comes back with a usable session, a sleeping call wakes, looks again and gets that session |
| UdpCollector.PassCancelsExactlyIdle | src/udp/mod.rs:178-242 | from every reachable state an undisturbed pass of the collector cancels, of the usable sessions, exactly those Ready in the table and silent for the whole timeout |
| UdpCollector.FoundWereIdle | src/udp/mod.rs:194-204 | under any interleaving the sessions a collector holds for expired are exactly those that were silent for the whole timeout when it looked at them |
| UdpCollector.TouchedIsSpared | src/udp/mod.rs:196-204 | a session just used is spared by every pass before its timeout |
| UdpCollector.NewSessionLivesItsTimeout | src/udp/mod.rs:178-242 | a new session is cancelled by a pass exactly from its timeout on, counted from when it was made |
| QuicVarint.ReadVarint | src/sniff/quic.rs:129-141 | reads the integer at the cursor, moves the cursor only on success, never beyond the buffer |
| QuicVarint.VarintOfEncoding | src/sniff/quic.rs:120-141 | every value in every legal width of section 16 of RFC 9000 reads back |
| QuicVarint.VarintAdvances | src/sniff/quic.rs:129-141 | every successful read makes progress |
| QuicVarint.VarintIs62Bits | src/sniff/quic.rs:129-141 | no value exceeds 62 bits |
| QuicReassembly.PrefixLength | src/sniff/quic.rs:175-177 | the counter is the length of the longest received prefix |
| QuicReassembly.QuicCryptoReassembly.WriteAt | src/sniff/quic.rs:160-179 | a write within the cap changes exactly its range, with zeros in a new gap; one beyond the cap is refused and changes nothing |
| QuicReassembly.OtherConnectionLeavesNoTrace | src/sniff/quic.rs:422-428 | when a packet of another connection arrives, its stream is assembled as in a new buffer, whatever was there before |
| QuicReassembly.SameConnectionGoesOn | src/sniff/quic.rs:422-428 | a packet of the same connection goes on with what was assembled |
| QuicReassembly.QuicCryptoReassembly.Received | src/sniff/quic.rs:188-190 | what is handed out is the longest received prefix |
| QuicReassembly.PutAllAssembles | src/sniff/quic.rs:160-190 | however a stream is cut, overlapped and repeated, the buffer is one function of what has been covered |
| QuicReassembly.OrderDoesNotMatter | src/sniff/quic.rs:160-179 | two lists with the same writes, in any order and number, leave the same buffer |
| QuicReassembly.ContiguousIsMaximalPrefix | src/sniff/quic.rs:188-190 | the contiguous part is a prefix of the stream, fully covered, and the next byte is not covered |
| QuicFrames.SkipAckFrame | src/sniff/quic.rs:290-312 | skips an ACK frame with or without ECN counts; the range loop completes at most half as many rounds as it consumes bytes, whatever count is declared |
| QuicFrames.SkipCloseFrame | src/sniff/quic.rs:314-330 | skips a CONNECTION_CLOSE frame within the buffer or fails |
| QuicFrames.ReadCryptoFrame | src/sniff/quic.rs:347-360 | the offset and data of a CRYPTO frame, and the cursor behind it |
| QuicFrames.ParseInitialFrames | src/sniff/quic.rs:332-371 | on arbitrary bytes the loop ends within the buffer, with the buffer and verdict of the frame-by-frame meaning |
| QuicFrames.ParseOfEncoding | src/sniff/quic.rs:332-371 | for every list of PADDING, PING, ACK, CRYPTO and CONNECTION_CLOSE frames in any legal widths, the parser performs exactly the CRYPTO writes in order |
| QuicFrames.OtherFramesAreRefused | src/sniff/quic.rs:364-366 | a frame of any other type makes the packet foreign |
| QuicInitial.ReadHeaderFront | src/sniff/quic.rs:373-420 | the long header up to the destination connection id, with its errors |
| QuicInitial.ReadHeaderBack | src/sniff/quic.rs:430-467 | source id, token and length; a length reaching beyond the datagram is refused |
| QuicInitial.ParseOneInitialPacket | src/sniff/quic.rs:373-482 | one packet: the buffer and the verdict, and an accepted packet strictly advances the cursor inside the datagram |
| QuicInitial.BodyAnswer | src/sniff/quic.rs:226-228 | a host of the body parser is the answer, and each of its errors has its own |
| QuicInitial.SniffDatagram | src/sniff/quic.rs:484-529 | the packet loop of a datagram equals its recursive meaning |
| QuicStream.PacketIsRead | src/sniff/quic.rs:373-482 | a well-formed packet that decrypts to its frames is consumed exactly and performs their writes |
| QuicStream.WalkAnswers | src/sniff/quic.rs:503-528 | a datagram of such packets, whatever non-Initial packet follows, asks for more until the ClientHello is covered and then answers for the whole body |
| QuicStream.FeedAnswers | src/sniff/quic.rs:484-529 | the same for one fed datagram |
| QuicStream.StateOfSession | src/sniff/quic.rs:484-529 | before coverage, the buffer after any number of datagrams depends only on what they cover |
| QuicStream.SessionAnswers | src/sniff/quic.rs:202-228 | for every cutting of a ClientHello into frames, packets and datagrams of one connection, each feed before coverage says "need more" and the covering one gives exactly the host or the error that the body parser gives for the whole body |
| QuicStream.HostOfSession | src/sniff/quic.rs:202-228 | so a well-formed ClientHello with one server_name extension, sent in any pieces, yields that host in lower case |
| QuicStream.ShortPayloadNeedsMore | src/sniff/quic.rs:461-467 | a packet whose payload is not all there asks for more |
| QuicStream.OtherPacketsAreHarmless | src/sniff/quic.rs:373-406 | a short header, padding or a long header of another version may follow the Initial packets |
| QuicStream.QuicRefuses | src/sniff/quic.rs:202-222 | a datagram without a long header is not QUIC; a message above 32 KiB is too large |
| TlsHello.IsValidHostname | src/sniff/mod.rs:366-393 | the label loop accepts exactly the host names of the rule |
| TlsHello.HostnameMeans | src/sniff/mod.rs:366-393 | the rule spelled out: lengths, letters, labels |
| TlsHello.LabelMeans | src/sniff/mod.rs:376-390 | the rule for one label spelled out |
| TlsHello.OuterNameIs | src/sniff/tls_common.rs:31-33 | the filtered ECH name |
| TlsHello.ReadNames | src/sniff/tls_common.rs:97-135 | the server_name list, last host name winning, malformed lengths and invalid names refused |
| TlsHello.ReadExtensions | src/sniff/tls_common.rs:83-145 | the extension loop, within its declared end |
| TlsHello.ParseClientHelloBody | src/sniff/tls_common.rs:35-164 | the cursor-driven parser of the whole body equals its structural meaning on arbitrary bytes |
| TlsHello.BodyVerdictIsFinal | src/sniff/tls_common.rs:35-164 | the body parser never asks for more, and a host it returns is valid and is not the filtered ECH name |
| TlsEncoding.ParseOfEncoding | src/sniff/tls_common.rs:35-164 | every well-formed ClientHello body decodes to what its extensions say |
| TlsEncoding.HostIsFound | src/sniff/tls_common.rs:83-163 | one server_name extension at any position yields its host in lower case, unless it is invalid or the filtered ECH name |
| TlsEncoding.NoHostWithoutServerName | src/sniff/tls_common.rs:143-163 | without a server_name extension the answer is "no SNI" |
| TlsEncoding.NoHostWithoutExtensions | src/sniff/tls_common.rs:73-75 | nor is there one without any block of extensions |
| TlsEncoding.OverrunsAreRefused | src/sniff/tls_common.rs:77-91 | an extension or a block that reaches beyond its surroundings is an error |
| TlsRecords.SniffPrefix | src/sniff/tls.rs:79-172 | the record loop equals its meaning on arbitrary bytes |
| TlsRecords.SniffNeverChangesMind | src/sniff/tls.rs:79-172 | a verdict other than "need more" or "empty" survives every extension of the buffer |
| TlsRecords.FragmentationDoesNotMatter | src/sniff/tls.rs:92-171 | for every cutting of a ClientHello into records, whatever follows it, the sniffer answers what the body parser answers |
| TlsRecords.HostInRecords | src/sniff/tls.rs:79-172 | so a ClientHello with one server_name extension, cut into records in any way, yields that host in lower case |
| TlsRecords.ProperPrefixNeedsMore | src/sniff/tls.rs:92-171 | every proper non-empty prefix of it asks for more |
| TlsRecords.OversizeIsRefused | src/sniff/tls.rs:142-155 | a message above the limit is refused as soon as its four header bytes are there, however they are spread over records |
| TlsRecords.ForeignBytesAreRefused | src/sniff/tls.rs:93-122 | what does not begin like a handshake record is not TLS |
| TlsRecords.OtherMessagesAreRefused | src/sniff/tls.rs:142-145 | nor is a handshake that begins with another message |
| HttpSniff.ScanHeaders | src/sniff/http.rs:211-222 | the header loop: first Host line decides, an empty line ends the search |
| HttpSniff.SniffPrefix | src/sniff/http.rs:174-223 | the whole sniffer equals its meaning on arbitrary bytes |
| HttpSniff.SniffNeverChangesMind | src/sniff/http.rs:174-223 | a verdict other than "need more" or "empty" survives every extension up to the size limit |
| HttpSniff.HeaderLinesDecide | src/sniff/http.rs:174-223 | a complete request, its lines any UTF-8 text without a line end, is judged by its decoded header lines alone, whatever body follows |
| HttpSniff.HostLineDecides | src/sniff/http.rs:204-222 | the first Host line decides wherever it stands, by its decoded value |
| HttpSniff.HostValueOfHost | src/sniff/http.rs:127-154 | spaces around and a port behind do not hide a valid host, which comes out in lower case |
| HttpSniff.RequestLineMeans | src/sniff/http.rs:99-125 | a request line is a method in capitals, a target and HTTP/1.0 or HTTP/1.1, with single spaces between |
| HttpSniff.RequestIsSniffed | src/sniff/http.rs:174-223 | a request with a Host header, spelled out in bytes, yields its host in lower case, with or without a port |
| HttpSniff.ForeignBytesAreRefused | src/sniff/http.rs:156-189 | what does not begin with a capital letter, or has a first line that is no request line, is not HTTP |
| HttpSniff.EndlessHeaderIsRefused | src/sniff/http.rs:191-199 | a header that does not end is too large from the limit on and asks for more before |
| HttpSniff.HeadersWithoutHost | src/sniff/http.rs:211-222 | no Host line means no host, a line without a colon is an error |
| HttpSniff.HostValueRefuses | src/sniff/http.rs:127-154 | an empty value is an error and an address literal no host name |
| SniffLoop.ClassifyIsSniff | src/sniff/tls.rs:52-65 | an engine matches exactly the host of its sniffer and needs more exactly for an insufficient prefix |
| SniffLoop.ClassifyNeverChangesMind | src/sniff/mod.rs:171-256 | neither engine takes a final answer back when more bytes are there |
| SniffLoop.SniffWithEngine | src/sniff/mod.rs:137-273 | a host returned by the doubling loop is what the sniffer says of the longest allowed prefix, after at most max_retries + 1 looks, none beyond max_len; with all data there and enough retries what the sniffer says is not missed |
| Ip6Range.CountGroups | contrib/usr/libexec/xtp-rs/update-chnroute.sh:149-168 | the character loop counts the groups of a piece or rejects it |
| Ip6Range.IsLiteral | contrib/usr/libexec/xtp-rs/update-chnroute.sh:183-198 | the acceptance test, branch by branch |
| Ip6Range.AcceptsExactlyTheGrammar | contrib/usr/libexec/xtp-rs/update-chnroute.sh:149-198 | accepted texts are exactly the printed forms of section 2.2 of RFC 4291, forms 1 and 2 |
| Ip6Range.WellFormedIsAccepted | contrib/usr/libexec/xtp-rs/update-chnroute.sh:149-198 | every literal of the grammar is accepted and read back as itself |
| Ip6Range.MakeKey | contrib/usr/libexec/xtp-rs/update-chnroute.sh:203-218 | the key loops build the padded upper-case expansion |
| Ip6Range.KeyOf | contrib/usr/libexec/xtp-rs/update-chnroute.sh:203-218 | every accepted literal has a key of 32 characters |
| Ip6Range.KeyOrder | contrib/usr/libexec/xtp-rs/update-chnroute.sh:199-218 | dictionary order of keys is numeric order of the 128-bit addresses |
| Ip6Range.DigitsAreHexadecimal | contrib/usr/libexec/xtp-rs/update-chnroute.sh:145-160 | the digits are the hexadecimal ones in either case |
| Ip6Range.CompressedAddress | contrib/usr/libexec/xtp-rs/update-chnroute.sh:203-218 | the "::" stands for the zero groups between its two sides |
| Ip6Range.FullAddress | contrib/usr/libexec/xtp-rs/update-chnroute.sh:203-218 | eight groups are eight digits to the base 65536, most significant first |
| Ip6Range.JudgeLine | contrib/usr/libexec/xtp-rs/update-chnroute.sh:219-232 | the rule for one line: skipped, bad or emitted |
| Ip6Range.CheckRanges | contrib/usr/libexec/xtp-rs/update-chnroute.sh:219-236 | the emitted lines in order, the number of bad ones, and exit code 1 exactly when nothing was emitted |
| Ip6Range.EmittedIffOrdered | contrib/usr/libexec/xtp-rs/update-chnroute.sh:219-232 | a line of two columns is emitted if and only if both are literals and start is not above end |
| Ip6Range.PrintedRange | contrib/usr/libexec/xtp-rs/update-chnroute.sh:219-232 | the printed line has start and end in this order; a bad line is counted and not printed |
| Ip6Range.CommentsAreSkipped | contrib/usr/libexec/xtp-rs/update-chnroute.sh:220-222 | blank lines and comments are neither printed nor counted |
| Ip6Range.EmittedAppend | contrib/usr/libexec/xtp-rs/update-chnroute.sh:219-236 | each line of a file speaks for itself, in order |
| PendingReplay.Pushed | src/udp/pending.rs:57-67 | a datagram with room is appended and the entry stays within 8 datagrams and 64 KiB |
| PendingReplay.UdpLoop.Flush | src/udp/pending.rs:201-214 | a flush forwards the cached datagrams in order and leaves a session |
| PendingReplay.UdpLoop.EnforceCapacity | src/udp/pending.rs:508-533 | cuts the map down to 4096 entries; the victims are exactly the entries that go, each due no later than any that stays |
| PendingReplay.CappedDropsOldest | src/udp/pending.rs:508-533 | the same for every state, however far over the limit |
| PendingReplay.UdpLoop.HandlePending | src/udp/pending.rs:256-361 | a packet of a pending key: goes on waiting exactly in time, with room and with the sniffer undecided, else everything owed is forwarded; answers whether there was an entry |
| PendingReplay.UdpLoop.HandleNew | src/udp/pending.rs:363-466 | the loop over the sniffers: a new key starts waiting exactly if the first one that does not pass wants more in full mode |
| PendingReplay.UdpLoop.HandlePayload | src/udp/pending.rs:216-361 | one arriving packet has exactly the effect of its step on entries, sessions, fates and evictions |
| PendingReplay.UdpLoop.ReapExpired | src/udp/pending.rs:477-506 | the reap loop flushes exactly the entries past their deadline, in order, and changes nothing else |
| PendingReplay.UdpLoop.Handle | src/udp/pending.rs:216-533 | every event leads from a sound state to a sound state and drops something only from a full map |
| PendingReplay.KeyFate | src/udp/pending.rs:216-533 | in every step a key has all its datagrams forwarded in order, keeps them cached, or, exactly if it is a victim, has them dropped |
| PendingReplay.ServedIsForwarded | src/udp/pending.rs:227-239 | a packet of a served key is forwarded at once |
| PendingReplay.PendingIsCachedIff | src/udp/pending.rs:256-361 | a packet of a pending key is cached if and only if it is in time, one of at most 8 datagrams, within 64 KiB, and the verdict is "need more" or a first "no clue"; else everything is forwarded |
| PendingReplay.NewIsCachedIff | src/udp/pending.rs:363-466 | a packet of a new key is cached if and only if it is not direct, in full mode, and the first sniffer with an opinion wants more; its deadline is one timeout away |
| PendingReplay.ReapForwardsIff | src/udp/pending.rs:477-506 | a reap forwards an entry if and only if it is past its deadline |
| PendingReplay.RunKeepsLimits | src/udp/pending.rs:57-67 | at every moment at most 4096 entries, each of at most 8 datagrams and 64 KiB |
| PendingReplay.StepEvictsOnlyFromFull | src/udp/pending.rs:508-533 | a step drops something if and only if a new entry meets a full map, and then it drops one entry with the earliest deadline |
| PendingReplay.RunConserves | src/udp/pending.rs:216-533 | over every run: arrivals equal, in order, settled and then cached datagrams; all were forwarded if and only if the key was never evicted; no key both pending and served; all limits |
| PendingReplay.EvictionsInRun | src/udp/pending.rs:508-533 | at every moment of every run only overflow evicts, and it evicts what was due first |
| PendingReplay.FewKeysAreNeverEvicted | src/udp/pending.rs:508-533 | with no more keys than the map holds nothing is ever evicted |
| PendingReplay.RunLoop | src/udp/pending.rs:216-533 | the code run on any events is a run of the meaning, with the victims it chose; so all of the above holds of it |
| PendingInterleaved.EveryRunAccounts | src/udp/pending.rs:201-506 | with every map access and every send a step of its own, each datagram is in exactly one of forwarded, held by the reap, held by the handler, cached and discarded |
| PendingInterleaved.OrderCanBreak | src/udp/mod.rs:809-811 | a reap outside the key lock can let a later datagram overtake an earlier one |
| PendingInterleaved.DatagramCanBeLost | src/udp/pending.rs:227-228 | a datagram cached during a reap can be thrown away by the next packet |
| PendingInterleaved.FlushesCanMix | src/udp/pending.rs:201-214 | the flush of a handler and that of the reap can mix datagram by datagram |
| PendingInterleaved.FaithfulWhenQuiet | src/udp/pending.rs:201-506 | once nothing is on its way, a run is faithful if and only if exactly the arrivals were forwarded, in order |
| PendingInterleaved.HarmBreaks | src/udp/mod.rs:972-981 | a handler that sends while the reap holds datagrams, or finds an entry beside a session, breaks faithfulness at once |
| PendingInterleaved.BrokenForever | src/udp/pending.rs:201-506 | what is broken stays broken in every continuation |
| PendingInterleaved.RunsAreFaithfulIffHarmless | src/udp/pending.rs:201-506 | for every run with distinct datagrams: it is faithful if and only if each of its steps is harmless where it is taken |
| KeyLocks.StepKeepsInv | src/udp/mod.rs:774-787 | every clone, lock, unlock, drop, cancellation and retain keeps the invariant of the lock table |
| KeyLocks.HandlersExclude | src/udp/mod.rs:964-981 | in every reachable state at most one handler of a key is inside its section |
| KeyLocks.SameLockIffSameKey | src/udp/mod.rs:774-787 | in every reachable state two tasks refer to one lock if and only if they have one key, so no retain splits the waiters of a key and no key waits for another |
| KeyLocks.QueueMoves | src/udp/mod.rs:975-981 | a queued task can take the lock if and only if no task of its key is inside |
| KeyLocks.RetainRemovesIdle | src/udp/mod.rs:784-787 | the retain removes an entry if and only if no task of its key is left, and touches no other |
| KeyLocks.UdpKeyLocks.GetLock | src/udp/mod.rs:774-779 | hands out the lock that exactly the tasks of the key have |
| KeyLocks.UdpKeyLocks.ReapIdle | src/udp/mod.rs:784-787 | what stays are exactly the locks of the keys that have tasks |
| HalfClose.NoImmediateTimeout | src/util.rs:76-82 | zero seconds mean no limit: a timeout needs a positive grace period, an end of stream seen in an earlier poll and no movement in this one |
| HalfClose.Relay.Note | src/relay.rs:180-207 | which reads and writes count as movement and which read is an end of stream |
| HalfClose.Relay.PollOnce | src/relay.rs:137-164 | each poll returns exactly what the history of polls demands |
| HalfClose.SilentSinceIsLatest | src/relay.rs:150-159 | silence counts from the later of the first end of stream and the last movement after it |
| HalfClose.TimeoutMeansSilence | src/relay.rs:137-164 | a timeout means an end of stream was seen, the copy did not finish in that poll, and the grace period has passed since both |
| HalfClose.NoTimeoutWhileMoving | src/relay.rs:150-159 | the poll that first sees the end, or moves bytes, never times out |
| HalfClose.SilenceTimesOut | src/relay.rs:154-162 | past the deadline, without movement and with the timer fired, the timeout comes |
| HalfClose.BytesKeepIt | src/relay.rs:180-207 | a poll in which a read or write moved bytes never times out |
| HalfClose.NoEndNoTimeout | src/relay.rs:180-192 | as long as no read with room for more comes back empty nothing times out |
| HalfClose.SilenceAfterEndTimesOut | src/relay.rs:150-162 | once one did, silence for the grace period ends the connection |
| HalfClose.CompletionWins | src/relay.rs:138-143 | the copy ends the connection normally exactly if it completes, also when the timer is due |
| HalfClose.RunRelay | src/relay.rs:104-166 | a whole connection, with the timer on or off, ends at the first poll that is not pending |
| PickStats.PickStats.RecordAt | src/upstream.rs:472-511 | one record: totals per upstream count exactly the live picks, bucket starts strictly grow, nothing saturates |
| PickStats.PickStats.Evict | src/upstream.rs:479-489 | the front loop drops exactly the picks whose bucket has expired |
| PickStats.CountPicks | src/upstream.rs:437-511 | for every sequence of records, clock running back included: totals equal the sums over the buckets, and the number of buckets is bounded by window and width |
| PickStats.NewestAreCounted | src/upstream.rs:472-511 | whatever the clock does, what is counted are the newest picks, the last one among them |
| PickStats.WindowIsExact | src/upstream.rs:472-511 | with a clock that does not run back, exactly the picks of unexpired buckets are counted |
| PickStats.WindowIsKept | src/upstream.rs:472-511 | so every pick of the window is counted and none a window and a bucket old |
| UpstreamPick.EffectiveScore | src/upstream.rs:233-247 | effective scores are the whole part of score times gain, clamped to 1..10^7 |
| UpstreamPick.ChoiceIsProportional | src/upstream.rs:790-811 | of the equally likely draws exactly weights[i] select candidate i |
| UpstreamPick.ChoiceGoesBySquares | src/upstream.rs:750-811 | a candidate owns as many draws as the square of its score |
| UpstreamPick.TotalFits | src/upstream.rs:750-758 | the total weight is positive and at most 10^14 per candidate |
| UpstreamPick.WeightedIndex | src/upstream.rs:777-824 | the draw loop finds the owner of the drawn number; the fall-back-to-first branch is never taken, and the uniform branch never with a total in 1..2^64-1 |
| UpstreamPick.BestIndex | src/upstream.rs:704-704 | the last of the greatest, as max_by_key gives it |
| UpstreamPick.OvertakenMeansBeaten | src/upstream.rs:703-747 | with one score snapshot, a switch away from the remembered upstream happens exactly when another is better by more than the tolerance |
| UpstreamPick.UpstreamSet.PickWeighted | src/upstream.rs:643-824 | exploration, sticky choice and weighted draw: who is chosen in each case, remembered and counted once |
| UpstreamPick.UpstreamSet.PickFromGroup | src/upstream.rs:619-639 | a member of the group that is not excluded, or nothing exactly when all are |
| UpstreamPick.GroupMembers | src/upstream.rs:586-594 | a group holds exactly the upstreams that name it |
| Failover.TryConnect | src/tcp.rs:32-92 | at most as many attempts as members per phase, none twice in a phase, fallback and failure only after every allowed member was tried, the answer is the one attempt that succeeded, each attempt counted once |
| Domains.CanonicalIsFinal | src/util.rs:466-471 | canonical form has no dot at its ends and is its own canonical form |
| Domains.CanonicalMeans | src/util.rs:466-471 | canonical form is what stands between dots at the ends, with capital letters made small |
| Domains.CaseDoesNotMatter | src/util.rs:466-471 | names that differ only in the case of letters have one canonical form |
| Domains.MatchesSuffixIsTail | src/util.rs:481-507 | a suffix match means: equal, or the rest behind one of the dots |
| Domains.Compile | src/state.rs:167-188 | a compiled list holds the canonical patterns of both kinds and no others |
| Domains.MatchesCanonical | src/state.rs:194-209 | label stepping finds a stored suffix if and only if some tail of the name is stored |
| Domains.LabelsAreSuffixes | src/state.rs:194-209 | label stepping equals asking every stored suffix with the suffix rule |
| Domains.CompiledListIsPatterns | src/state.rs:167-209 | for every domain the compiled list answers what its patterns say one by one |
| Domains.PatternMeans | src/state.rs:154-188 | a pattern with a dot in front is for a domain and all below it, any other for one name |
| Domains.CompileTag | src/state.rs:363-400 | the compiled tag holds the non-empty names of its rules by type |
| Domains.RuleMeans | src/state.rs:333-358 | types 3, 2 and 0 mean the name, the domain and all below it, and a part of the name; no other type matches |
| Domains.CompiledContains | src/state.rs:403-430 | exact, suffix and substring search of the index, and no for an unknown tag |
| Domains.IndexAgreesWithRules | src/state.rs:346-430 | the index agrees with rule-by-rule matching if and only if not both the name and some domain rule are empty |
| Domains.CompileIndex | src/state.rs:363-400 | the compiled index has the tags of the index, each with the non-empty names of its rules |
| Domains.AskIndex | src/state.rs:346-430 | compiling any index and asking it for any tag, known or not, and any name answers what the rules say one by one, except for an empty name and a domain rule without a name |
| Domains.IndexCanDisagree | src/state.rs:346-376 | the exception is real |
| Routing.SortKeeps | src/state.rs:88-93 | finalizing keeps the entries and puts the longest prefixes first |
| Routing.BuildTable | src/state.rs:80-93 | inserts and finalize give the table of the entries |
| Routing.FindIsLongest | src/state.rs:124-141 | the search answers for the longest covering client prefix with an inner hit, and nothing exactly if none has one |
| Routing.LookupIsLongest | src/state.rs:95-108 | lookup is longest-prefix matching |
| Routing.DomainLookupIsBest | src/state.rs:45-56 | an exact pattern, else a longest matching suffix, else nothing |
| GroupLookup.LookupFollowsPriority | src/state.rs:474-504 | the group is the one of the destination routes, else of the domain routes, else of the client routes, else `default`, each by longest prefix with an inner hit, stated on the configuration |
| GroupLookup.NoRoutesMeansDefault | src/state.rs:474-504 | without routes the group is "default" |
| GroupLookup.LookupIsCanonical | src/state.rs:474-504 | the group depends on the domain only through its canonical form |
| GroupLookup.LookupIsReferenced | src/state.rs:474-504 | every group that comes out is configured or is `default` |
| RouteCaches.DirectRouter.Insert | src/state.rs:605-612 | the key has the new answer, a full cache loses exactly its other expired entries, any other cache loses nothing |
| RouteCaches.DirectRouter.ShouldDirect | src/state.rs:511-602 | the answer with the cache is the answer without it, and the right one on the configured patterns, rules and address lists |
| RouteCaches.DecisionIsRight | src/state.rs:511-602 | mode, domain patterns, geosite rules and address rules decide in their precedence, stated on what is configured |
| RouteCaches.DecideByDomain | src/state.rs:535-562 | the order of the domain rules |
| RouteCaches.RunCalls | src/state.rs:511-612 | over every run of questions, clock values and mode switches each answer is the right one for the mode of that moment, on the configured patterns, rules and address lists |
| RouteCaches.UpstreamRouter.Get | src/state.rs:614-632 | a fresh entry or nothing, an expired one dropped |
| RouteCaches.UpstreamRouter.Put | src/state.rs:634-652 | the same for the upstream cache, and nothing with caching off; every stored upstream still serves its key |
| RouteCaches.LimitHoldsIffFewFresh | src/state.rs:605-612 | after a store the cache is within `route_cache_max` if and only if it was below it or has fewer than that many other fresh entries, and an overfull cache holds only fresh entries |
| RouteCaches.LimitCanBeExceeded | src/state.rs:605-612 | two names stored at one moment outgrow a limit of one |
| RouteCaches.UpstreamRouter.Connect | src/tcp.rs:360-430 | what is connected and cached belongs to the key's group or to `default`; a fresh cached upstream that connects is used and no pick is made; a failure means every other member, and after a fallback every member of `default`, was tried |
| RouteCaches.KeyHasSameGroup | src/state.rs:264-278 | a cache key leads to the same group as the connection it came from |
| GroupConfig.Validate | src/cli.rs:851-936 | succeeds if and only if every network parses, every referenced group is counted, and `default` is counted or routes exist |
| GroupConfig.CountGroups | src/cli.rs:852-861 | the counted groups are exactly those of the upstreams, a missing or empty list counting as `default` |
| GroupConfig.BuildUpstreamSet | src/cli.rs:771-798 | succeeds if and only if there are upstreams with distinct non-empty ids, and then builds them in order |
| GroupConfig.LookedUpGroupsAreServed | src/cli.rs:879-936 | after validation every group a lookup can return, other than `default`, has an upstream in the built set |
| GroupConfig.DefaultIsServed | src/cli.rs:862-877 | without routes `default` has an upstream if and only if some upstream leaves its groups out or names `default` |
| GroupConfig.EmptyListPassesValidation | src/cli.rs:854-857 | an explicit empty list is validated as `default` but built as no group |

## Left out

- Sockets, TPROXY, splice, signals, logging, configuration files and statistics output: input and output.
- AES, HKDF and AES-GCM: one unknown function from the packet to its plaintext or an error (`Unseal` in `QuicInitial`).
- MMDB lookup, IP lists, the local-address test, network parsing and the protobuf decoding of geosite data: given functions or already parsed values.
- Task panics and aborts of a receive task before its table removal; a failing join is modelled before a session exists.
- SOCKS5 handshake and UDP header codec, the fake-UDP socket manager, `TaskGuard`, health checks, the remaining scripts: thin or network-bound.
- Floating-point scoring, averages and decay: selection needs only the clamp, which is modelled over reals.
- The time between reading a score and using it: `PickWeighted` takes each reading of the scores as an input of its own.
- Machine integers: cursors and counters are unbounded where overflow is out of reach (buffer offsets, pick counters below 2^64); saturation of the bucket end and wrap-around of the total weight are explicit; `usize` is taken as 64 bits.
- UpstreamPick.UpstreamSet.PickWeighted: the draw is stated for at most 184467 candidates, the number up to which the total weight cannot wrap.
- PickStats.PickStats.RecordAt: takes a positive window, since the counters are made only for one (src/upstream.rs:601-604), and an index rather than an id.
- PendingReplay.RunLoop: one receive loop of an open runtime, with each handler and each reap one step and session creation succeeding; the permit limit of the packet workers is not modelled.
- PendingInterleaved.EveryRunAccounts: follows one key and leaves out eviction and entry limits, which do not depend on the interleaving; a removal and the insertion that follows it in one handler are one step, since the reap only removes.
- Routing.BuildTable: the in-place sort works on values; the tables are not changed after they are built.
- RouteCaches.DirectRouter.ShouldDirect: one call at a time; the concurrent map is not interleaved within a call.
- GroupConfig.Validate: only the checks on groups and routes; trimming of ids is taken as done.
- Sorting and printing of the pick statistics, and the sniffer choice between several engines: easy additions.
