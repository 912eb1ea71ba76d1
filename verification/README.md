# scproxy, modelled and proved

scproxy runs a command under a seccomp filter and lets a broker answer the network calls of the whole process tree.
A `connect` on a TCP socket is turned into a connection to one loopback listener, the *ingress*; a relay then carries
the bytes to a proxy. Domains are resolved to synthetic addresses so that the proxy, not the machine, looks them up.
This project models the parts of that design where something can go subtly wrong and proves what they promise.

Check everything with `dafny verify dfyconfig.toml`.

## How the model is laid out

| files | what they model |
|---|---|
| `Protocol`, `Locking`, `Registrations`, `Permits`, `PeerTable`, `Safety`, `Stale` | the connect protocol as a state machine: every critical section is one step, steps of all requests, relays, the collector, the ingress and the kernel interleave freely |
| `Broker`, `Ingress`, `Refinement` | the shared tables as classes whose methods are the critical sections, and the proof that they follow the state machine |
| `Relay`, `Tunnel`, `Session` | bounded forwarding in both directions, the stream with prefetched bytes, and both together after a handshake |
| `Http`, `Socks5`, `Base64` | the two proxy handshakes and the credential encoder |
| `Rule` | the mutable prefix trie, rule lists and route selection |
| `Seccomp` | the generated BPF program, the machine that runs it and the policy |
| `FakeDns`, `DnsWire`, `Resolver`, `Text` | synthetic addresses, the DNS parser and printer, the resolver |
| `Common`, `Bits` | bytes, network order, shifts and masks, with what they are in powers of two |
| `Memory`, `Message` | reading a path from, and scattering a payload into, another process |
| `Process` | the descendant traversal and the wait loop |
| `TcpBind`, `Diagnostics` | reserving a source port, and walking a socket dump |

What the environment does is a parameter: the bytes a peer sends and how they arrive, how far a nonblocking call gets,
which system calls fail, what time it is. Loops that run for ever in the program are methods over an arbitrary finite
schedule, so their contracts hold after every number of turns. In the state machine the kernel may connect and
disconnect sockets at any moment; it is assumed only that the clock does not go back, that two connected sockets never
have the same pair of addresses, that open descriptors have distinct numbers, and that a socket dump which is not
flagged as interrupted lists every socket that was connected throughout.

Three promises turned out not to hold of the code. Each is stated with the exact condition under which it does hold:

* A stream is always handed to a registration on the socket at its other end, but if a socket was registered twice (a
  connect given up by the application, then another) the *older* registration takes it, with the older target.
  `Stale.StaleConnectIsServed` is a run from any initial state in which this happens, with both native connects and the
  disconnect between them; `Safety.ServedIffOldest` says exactly when a registration is the one that is served.
* A DNS reply repeats the question byte for byte exactly if no label contains a dot and the class is IN
  (`DnsWire.QuestionIsEchoed`): labels are joined with dots and split again, and the class is always printed as IN.
  `DnsWire.OtherClassIsNotEchoed` and `DnsWire.DotLabelIsNotEchoed` are accepted packets for which it is not; for the
  label "." the reply is misread (`DnsWire.DotReplyIsMisread`), as its name is whenever a piece of the domain is empty,
  and only then (`DnsWire.NameIsReadExactly`).
* A success follows a complete HTTP reply, except that one which ends before its blank line is accepted too, with an
  empty tunnel; `Http.TruncatedReplyIsAccepted` says exactly which replies these are, `Http.CutInMidLine` is one.

## Model

| member | source | states |
|---|---|---|
| `Safety.RunIsSafe` | src/broker/tcp.rs:38-163 | in every state of every run, under any interleaving, the lock, descriptor, ingress, permit and peer-table invariants hold together |
| `Safety.OneConnectPerSocket` | src/broker/tcp.rs:49-60 | in every run all live strong references for one cookie are to the same mutex, and two connects on one socket are never both between lock and unlock |
| `Locking.KeepsLocks` | src/broker/engine.rs:149-153 | every event, concurrent sweeping of dead weak references included, keeps: a referenced mutex is the published one of its cookie, and it has one owner |
| `Locking.ReferencedMutexIsFound` | src/broker/tcp.rs:49-59 | the lookup of a cookie with a live reference returns that very mutex and never publishes another |
| `Safety.CommittedPeerIsKept` | src/broker/tcp.rs:122-161 | an entry committed at one step, whose socket stays connected until another, is at that point still exactly the committed entry: not collected, removed or replaced by anything in between |
| `Safety.GonePeerIsCollected` | src/broker/engine.rs:137-157 | the converse: an entry committed before a dump starts, at an earlier time, that no request opens again and whose socket the dump does not list, is gone from the table when the dump is taken in |
| `Safety.TargetIsReported` | src/broker/tcp.rs:165-176 | a peer query that reads the table and the kernel at two different moments of that time reports the target of the last connect exactly if the socket's remote address is the ingress and it is connected, or, for SO_PEERNAME, connected or still connecting; and nothing otherwise |
| `Safety.KernelErrorsPass` | src/broker/tcp.rs:171-175 | with an entry, errno 107 counts as no target and every other error is the caller's |
| `Safety.EntryIsOfLastConnect` | src/broker/tcp.rs:70-111 | conversely, whatever the table holds for a socket at any point of a run is the target of the last connect that opened an entry for it, and no request has cleared, dropped or reopened it since |
| `Safety.ClearedStaysAbsent` | src/broker/tcp.rs:70-88 | after a connect has cleared its socket's entry, and until one opens it again, no entry is there, and a query answers nothing whatever the kernel says, so a native connection is never reported with an old target |
| `PeerTable.MarkSettles` | src/broker/tcp.rs:122-125 | at the commit no other request can still touch the entry, and no running snapshot can collect it |
| `PeerTable.StaysSettled` | src/broker/engine.rs:137-157 | no event, snapshot start and finish included, changes a settled entry while its socket stays connected |
| `PeerTable.KeepsPeers` | src/broker/tcp.rs:98-111 | every event keeps: an armed guard's entry is present, pending and its own; every pending entry belongs to the owner of its socket's mutex; stamps are not in the future |
| `Safety.PendingEntriesAreGuarded` | src/broker/tcp.rs:23-35 | in every state each pending entry has a live request whose guard will commit or remove it |
| `Safety.StreamReachesItsSocket` | src/broker/tcp_ingress.rs:93-115 | a stream is handed only to a live registration whose socket has, at that moment, the stream's source as its local and the ingress as its remote address, and is connected; it is the only such socket, and the registration had received none before |
| `Safety.StreamFindsATaker` | src/broker/tcp_ingress.rs:93-115 | in every state of every run a stream is handed over if and only if some unserved entry of its source port is on an open descriptor of a socket connected from that source to the ingress |
| `Safety.OneStreamPerRegistration` | src/broker/tcp_ingress.rs:98-110 | over a whole run no two deliveries are handed to the same registration |
| `Safety.ServedIffOldest` | src/broker/tcp_ingress.rs:99-109 | a matching entry is the one served if and only if no earlier unserved entry for that port is on the same socket |
| `Stale.StaleConnectIsServed` | src/broker/tcp_ingress.rs:93-115 | from every initial state there is a run with a native connect, its commit, a disconnect and the late arrival of its stream, and then a second native connect of the same socket, after which the stream of the second goes to the registration of the first |
| `Safety.DropRemovesOwnEntry` | src/broker/tcp_ingress.rs:133-143 | in every run a dropped registration takes away exactly its own entry, keeps the order of the others, and leaves no empty list |
| `Safety.WaitingStaysBounded` | src/broker/tcp_ingress.rs:39-53 | at no point of a run are there more than 128 waiting entries over all ports, nor an empty candidate list |
| `Safety.QuietMeansClean` | src/broker/tcp.rs:126-160 | once every request and relay has ended, all 128 permits are back, nothing waits and no entry is pending, whichever way they ended |
| `Registrations.KeepsWaiting` | src/broker/tcp_ingress.rs:41-60 | every event keeps: entries for a port are on distinct open descriptors, each held by a live registration, and an unused sender leads to a holder that has received nothing |
| `Registrations.KeepsCovered` | src/broker/tcp_ingress.rs:118-143 | every event keeps: each live registration, whether still with the request or moved to its relay, has its entry |
| `Registrations.RegistrationStays` | src/broker/tcp.rs:112-130 | a live registration survives every event except its own drop, across the hand-over from request to relay |
| `Registrations.OneRegistration` | src/broker/tcp_ingress.rs:118-123 | a holder has one registration: its descriptor and port are determined |
| `Permits.KeepsPermits` | src/broker/tcp.rs:89-93 | available permits plus holders is 128 after every event; passing a permit from a request to its relay neither frees nor duplicates it |
| `Permits.EveryEntryHasAPermit` | src/broker/tcp.rs:89-120 | whoever a waiting entry belongs to holds a permit, on the success, error, cancellation and timeout paths |
| `Permits.WaitingIsBounded` | src/broker/engine.rs:60 | the number of waiting entries is at most the number of permits in use |
| `Refinement.PerformStep` | src/broker/tcp.rs:49-125 | each step of a request is one critical section on the shared tables: they end up as the machine's, and what the section answers (the mutex found, the permit granted) is what the machine goes on with |
| `Refinement.Perform` | src/broker/engine.rs:137-157 | the same for every event, with the collector's and the sweeper's passes over the tables and the delivery of a stream to the registration the machine names |
| `Refinement.SweepIsAnEvent` | src/broker/engine.rs:153 | removing all dead weak references at once is one of the sweeps the machine allows; exactly the references to live mutexes remain |
| `Refinement.Replay` | src/broker/engine.rs:95-169 | for every run whose sweeps take all dead entries, as the program's do, tables that start empty and go through its critical sections end up as the machine's, so what is proved of runs holds of the tables |
| `Broker.Broker.LookupLock` | src/broker/tcp.rs:49-59 | the live mutex of the cookie, or a new one that is published |
| `Broker.Broker.SweepLocks` | src/broker/engine.rs:153 | visiting the map in any order leaves exactly the entries whose mutex is alive |
| `Broker.Broker.CommitPeer` | src/broker/tcp.rs:122-125 | the entry stops being pending and gets a new stamp; a missing entry stays missing |
| `Broker.Broker.Collect` | src/broker/engine.rs:145 | visiting the map in any order leaves exactly the pending, the recent and the listed entries, unchanged; what that removes and keeps over a run is `Safety.GonePeerIsCollected` and `Safety.CommittedPeerIsKept` |
| `Broker.Broker.TcpTarget` | src/broker/tcp.rs:165-176 | the target, nothing, or the kernel's error, with "not connected" counting as nothing |
| `Ingress.Ingress.Register` | src/broker/tcp_ingress.rs:41-60 | appends to the list of the reserved port; a failed reservation registers nothing |
| `Ingress.Ingress.Deliver` | src/broker/tcp_ingress.rs:93-115 | the first candidate with an unused sender and exactly these endpoints gives up its sender and nothing else changes; one does if and only if an unserved candidate of the port is on a socket whose local address is the source, whose remote address is the ingress, and which is connected |
| `Ingress.FirstMatch` | src/broker/tcp_ingress.rs:99-109 | the index found matches and no earlier one does |
| `Ingress.Ingress.Drop` | src/broker/tcp_ingress.rs:133-143 | what remains is the list without the descriptor, and no entry at all if that is empty |
| `Ingress.WithoutRemovesOne` | src/broker/tcp_ingress.rs:138 | on distinct descriptors, filtering by number removes one entry and keeps the order |
| `Ingress.DropUndoesRegister` | src/broker/tcp_ingress.rs:133-143 | dropping a registration restores the table as it was before registering |
| `Relay.Relay.constructor` | src/broker/relay.rs:15-26 | the relay starts with empty buffers and accounts for everything the host will send |
| `Relay.Relay.ReadHost` | src/broker/relay.rs:29-43 | keeps conservation and the 65536 bound; makes progress when the host is ready and there is room; reads nothing once closing; fails only if the read does, never because it would block |
| `Relay.Relay.ReadApplication` | src/broker/relay.rs:45-60 | keeps conservation and the bound; drains queued bytes even while closing; the application's end of stream starts the drain; a full buffer is left alone; it fails exactly if a wanted read does, with its errno |
| `Relay.Relay.FlushToApplication` | src/broker/relay.rs:89-102 | a partial write removes exactly the written bytes from the front; it fails if and only if bytes are pending and the write fails or takes none of them, so one that would block is survived |
| `Relay.Relay.FlushToHost` | src/broker/relay.rs:89-102 | the same towards the host, whose output stays the preamble followed by bytes taken from the application |
| `Relay.Relay.TryClose` | src/broker/relay.rs:62-74 | a normal end only if everything read was written and acknowledged and nothing is unread; certain when the relay is settled and healthy; a reset while closing is the error reported |
| `Relay.Relay.Turn` | src/broker/relay.rs:27-86 | every turn keeps: written ++ pending ++ unread is the host's stream, written ++ pending is what was taken from the application, both buffers at most 65536; it fails only if a call or query of that turn fails or a write takes nothing; a healthy turn closes or strictly reduces the work left |
| `Relay.Relay.Run` | src/broker/relay.rs:15-87 | conservation and the 65536 bound after any schedule of partial reads and writes; `Ok` means drained in both directions; a failure means that in some turn a call or query failed or a write took nothing, so calls that would block never end it; with enough healthy turns it ends |
| `Session.OverHttp` | src/proxy/http.rs:77-120 | from handshake to relay, for any chunking and schedule: the application receives a prefix of exactly the bytes after the blank line, the host a prefix of the application's bytes, and on a normal end all of them |
| `Session.OverSocks5` | src/proxy/socks5.rs:51-69 | the same for SOCKS5: the tunnel starts right after the last reply and the host has been sent the handshake, then the application's bytes |
| `Tunnel.ProxyStream.TryRead` | src/proxy/mod.rs:163-173 | bytes come in order, prefetched first; while prefetched bytes remain a nonempty read never reports end of stream or would-block |
| `Tunnel.ProxyStream.constructor` | src/proxy/mod.rs:156-161 | a reader is to get the prefetched bytes and then the connection's |
| `Http.BufReader.ReadLine` | src/proxy/http.rs:79-83 | for every chunking, takes exactly the bytes through the first newline or to the end of the stream |
| `Http.DoConnect` | src/proxy/http.rs:77-120 | for every chunking and prefetch the stream handed over yields exactly the bytes after the headers; the error cases are those of the reference |
| `Http.CompleteReplyHandsOver` | src/proxy/http.rs:77-120 | status 200, any header lines and a blank line, then anything: the tunnel is exactly that rest |
| `Http.SucceedsExactly` | src/proxy/http.rs:77-120 | a reply is accepted with a given rest if and only if its first line has status 200, every line through the first blank one (or all, if none is) is text, and the rest is what follows those lines |
| `Http.StatusLineDecides` | src/proxy/http.rs:77-144 | "HTTP/", any version, a space, a number in decimal and any reason, ended by CR LF: 200 goes on to the headers, every other 16-bit number is refused with that number |
| `Http.DecimalIsRead` | src/proxy/http.rs:139-141 | the decimal digits of a number, with or without a plus sign, are read as that number up to 65535 and not at all above |
| `Http.WholeReply` | src/proxy/http.rs:77-120 | a reply as it is on the wire, a 200 status line, header lines and an empty line, hands over exactly what follows |
| `Http.LinesAreTheStream` | src/proxy/http.rs:102-107 | the lines are the stream cut after every newline: nothing is lost, newlines are at their ends only, and only the last may lack one |
| `Http.TunnelFollowsBlankLine` | src/proxy/http.rs:102-119 | a success splits the stream into status line, headers and tunnel, where no header but the last is blank and the last is blank unless the stream ended |
| `Http.TruncatedReplyIsAccepted` | src/proxy/http.rs:102-114 | a reply without a blank line succeeds if and only if its status is 200 and its lines are text, the last cut anywhere, and then the tunnel is empty |
| `Http.CutInMidLine` | src/proxy/http.rs:102-114 | a reply that stops inside its first header is accepted |
| `Base64.Encode` | src/proxy/http.rs:151-179 | the chunk loop computes the encoding that the round trip, length and padding results are about |
| `Base64.RoundTrip` | src/proxy/http.rs:151-179 | a strict decoder written from section 4 of RFC 4648 gives every input back |
| `Base64.TestVectors` | src/proxy/http.rs:148-179 | the encodings of "f" and "foo" given in section 10 of RFC 4648 |
| `Base64.LastSymbols` | src/proxy/http.rs:148-179 | symbols 62 and 63 are "+" and "/" |
| `Base64.EncodedLength` | src/proxy/http.rs:151-179 | four symbols for each started group of three bytes |
| `Base64.PaddingIsLast` | src/proxy/http.rs:164-174 | padding only in the last two places, and none for whole groups |
| `Socks5.NegotiateMethod` | src/proxy/socks5.rs:78-130 | sends the greeting and consumes two bytes; accepts exactly the methods that were offered |
| `Socks5.Authenticate` | src/proxy/socks5.rs:136-173 | sends the RFC 1929 request only for that method and within its length limits, and consumes its two-byte reply |
| `Socks5.SkipAddress` | src/proxy/socks5.rs:250-275 | consumes exactly the bound address of its type and the port, or fails on an unknown type |
| `Socks5.SendConnectRequest` | src/proxy/socks5.rs:182-247 | sends the request, or fails before writing for an over-long host, and consumes exactly the reply |
| `Socks5.Connect` | src/proxy/socks5.rs:51-69 | the bytes written and the bytes left unread are those of the reference handshake, for every chunking and failure |
| `Socks5.ConformingServerIsAccepted` | src/proxy/socks5.rs:78-130 | every server script laid out as in sections 3 and 6 of RFC 1928 and section 2 of RFC 1929, for all three address types, is accepted and consumed to its last byte |
| `Socks5.AcceptedServerConforms` | src/proxy/socks5.rs:182-247 | conversely whatever a successful handshake consumed was such a script |
| `Socks5.RequestIsReadBack` | src/proxy/socks5.rs:184-213 | a reader for section 4 of RFC 1928 recovers the target from the request |
| `Socks5.ServerUnderstands` | src/proxy/socks5.rs:51-69 | in every successful handshake, readers for the greeting, the RFC 1929 request and the connect request find in what was sent the offered methods, the user and password if they were asked for, and the target |
| `Socks5.RefusalsAreNamed` | src/proxy/socks5.rs:78-247 | over all replies: a wrong version, no acceptable, an unknown or an unoffered method, refused or over-long credentials, an over-long host and a rejected request are each reported as that, with the server's code |
| `Rule.PrefixTrie.Insert` | src/rule.rs:23-33 | the trie's contents gain the prefix with host bits ignored; an action already there wins |
| `Rule.PrefixTrie.Get` | src/rule.rs:35-49 | the walk returns the action of the longest stored prefix |
| `Rule.TrieRefinesFlatScan` | src/rule.rs:23-49 | for every rule list and address, inserting all and walking equals the flat scan |
| `Rule.FlatScan` | src/rule.rs:113-161 | the winner covers the address, none covering is more specific and none equally specific is earlier; none is returned only if nothing covers it |
| `Rule.CoversExactly` | src/rule.rs:23-49 | a rule covers an address if and only if it names it, or the address lies in the block of 2^(32 - length) addresses that starts at the network rounded down to a multiple of that size |
| `Bits.ShrDivides` | src/rule.rs:27 | a right shift by n is division by 2^n |
| `Rule.OneWinner` | src/rule.rs:35-49 | at most one rule wins for an address |
| `Rule.DomainRulesAreTransparent` | src/rule.rs:113-161 | domain rules placed anywhere among the IP rules change neither the trie nor the result |
| `Rule.RuleMatcher.FromSpecs` | src/rule.rs:113-161 | succeeds exactly if every prefix length is valid, and then holds exactly the given rules |
| `Rule.RuleMatcher.MatchIp` | src/rule.rs:168-170 | the result of the flat scan over the specified rules |
| `Rule.RuleMatcher.MatchDomain` | src/rule.rs:163-166 | the route of the first rule in the list whose pattern matches |
| `Rule.ProxyFor` | src/config.rs:16-27 | rules first, then direct for loopback addresses and 0.0.0.0, then the default route |
| `Rule.RouteIs` | src/config.rs:16-27 | an IPv4 target goes by the winning rule; if no rule covers it, directly for 127.0.0.0 to 127.255.255.255 and 0.0.0.0 and by the default route otherwise; an IPv6 target always goes by the default route |
| `Rule.DomainRouteIs` | src/config.rs:16-27 | a domain goes by the first domain rule in the list whose pattern matches, else by the default route |
| `Seccomp.Filter` | src/broker/seccomp.rs:122-190 | the generator's pushes and loops produce the program the theorem is about |
| `Seccomp.Evaluate` | src/broker/seccomp.rs:334-370 | the interpreter loop is the recursive semantics, whose jump on set bits is the one of `Seccomp.AnyBitIs` |
| `Seccomp.AnyBitIs` | src/broker/seccomp.rs:358-364 | the jump on set bits is taken if and only if some bit i below 32, by division by 2^i, is set in both words |
| `Seccomp.Relocate` | src/broker/seccomp.rs:122-190 | jumps are relative and forward, so a block runs the same wherever it is placed |
| `Seccomp.CasesRun` | src/broker/seccomp.rs:135-142 | for arbitrary lists: a listed call gets the verdict, any other falls through with the call number still loaded |
| `Seccomp.TransferRuns` | src/broker/seccomp.rs:155-171 | the send and receive block notifies for an address in either half or a listed flag, allows otherwise, and falls through for other calls with the number still loaded |
| `Seccomp.ProgramImplementsPolicy` | src/broker/seccomp.rs:122-190 | for every architecture word, call number and arguments the program stops inside itself with the policy's verdict |
| `Seccomp.ProgramDecides` | src/broker/seccomp.rs:122-190 | the verdicts in numbers, for every target: a foreign architecture is killed; bit 30 of the number or a denied number gives ENOSYS; getsockopt is notified only for level 1 and option 28; sendto if bit 0 or 29 of the flags is set or there is an address; recvfrom if bit 0 is or there is an address; then the listed calls |
| `Seccomp.OnX86_64` | src/broker/seccomp.rs:122-190 | the same with the call numbers of x86-64 |
| `Seccomp.OnAarch64` | src/broker/seccomp.rs:122-190 | the same with the call numbers of 64-bit ARM, which has no open |
| `Seccomp.ProgramFits` | src/broker/seccomp.rs:122-190 | the length as a function of the lists, within 16 bits for both targets |
| `FakeDns.FakeDns.Resolve` | src/fake_dns.rs:52-70 | the state and address after a call, a known domain included |
| `FakeDns.AfterAnyCalls` | src/fake_dns.rs:52-70 | after any calls the two maps are exact inverses, the domains are exactly the last 131069 fresh allocations (or all), and every address is in the pool and not the DNS address |
| `FakeDns.ResolveSlidesWindow` | src/fake_dns.rs:58-67 | a fresh domain slides the window by one, evicting exactly the oldest; a known one changes nothing |
| `FakeDns.AddressIsStable` | src/fake_dns.rs:49-56 | a domain keeps its address through the next 131068 fresh allocations |
| `DnsWire.ParseQuery` | src/fake_dns.rs:99-157 | every index is in range, the loop ends on every byte string, and the result is the reference parse |
| `DnsWire.AcceptedExactly` | src/fake_dns.rs:99-157 | well-formed labels after a header are accepted exactly under the header, length and size conditions, and give back those labels |
| `DnsWire.AcceptedLabelsAreText` | src/fake_dns.rs:118-143 | accepted labels have 1 to 63 bytes and are text, so the previous row covers every accepted packet |
| `Text.TextIsEncoded` | src/fake_dns.rs:141 | bytes accepted as text are the UTF-8 encoding of some sequence of Unicode scalar values |
| `Text.EncodedIsText` | src/fake_dns.rs:141 | conversely the encoding of every such sequence is accepted |
| `DnsWire.ParsedBytes` | src/fake_dns.rs:118-143 | what was parsed is the wire form of the labels returned |
| `DnsWire.AcceptedDomainsFit` | src/fake_dns.rs:133-154 | every accepted domain prints to at most 255 bytes with every length below 64, dots inside labels included, and replies have at most 287 bytes |
| `DnsWire.QuestionIsEchoed` | src/fake_dns.rs:179-196 | the reply's question section equals the query's if and only if no label contains a dot and the class is IN |
| `DnsWire.OtherClassIsNotEchoed` | src/fake_dns.rs:193 | every well-formed query of another class is accepted and its question is not repeated |
| `DnsWire.DotLabelIsNotEchoed` | src/fake_dns.rs:202-210 | the label "." is accepted and prints as three zero bytes |
| `DnsWire.DotReplyIsMisread` | src/fake_dns.rs:202-210 | a reader of that reply finds the root name, type 0 and the asked type in the place of the class |
| `DnsWire.NameIsReadExactly` | src/fake_dns.rs:202-210 | a reader of any reply finds the labels that were printed if and only if the accepted domain has no empty piece (a dot at an end or next to another) |
| `DnsWire.AnswerIsRead` | src/fake_dns.rs:163-173 | for those domains, dots inside labels included, it takes exactly the answered address out of the reply |
| `DnsWire.RecordBytes` | src/fake_dns.rs:163-173 | the sixteen bytes of an answer: a pointer to offset 12, type 1, class 1, 300 seconds, length 4 and the four octets of the address |
| `DnsWire.AnswerPointsAtQuestion` | src/fake_dns.rs:163-173 | a reader for section 4.1.4 of RFC 1035 gets the asked name through the answer's pointer |
| `DnsWire.EncodeName` | src/fake_dns.rs:202-210 | appends the wire form of the split domain and the root label |
| `DnsWire.BuildAResponse` | src/fake_dns.rs:163-173 | header, question and answer record as laid out |
| `DnsWire.BuildEmptyResponse` | src/fake_dns.rs:179-196 | header without answers, and the question |
| `Resolver.Service.Answer` | src/broker/dns.rs:46-55 | the reply and the new mapping; only type A allocates; at most 287 bytes |
| `Resolver.ReplyMatchesQuery` | src/broker/dns.rs:46-55 | every reply repeats the two identifier bytes of its query, has the response flags and one question, and one answer record at its end exactly if the query is of type 1 |
| `Resolver.Service.Target` | src/broker/dns.rs:28-44 | a live synthetic address gives its domain, another of the pool fails, anything else passes |
| `Resolver.Service.ServeOne` | src/broker/dns.rs:150-167 | one framed exchange over TCP for every chunking: the reply, the bytes left and the allocation made are those of the query in the frame, and the length conversion never fails |
| `Resolver.AnswerLeadsBack` | src/broker/dns.rs:28-55 | the address allocated for a domain leads back to it while fewer than 131069 allocations have followed |
| `Resolver.QueryLeadsBack` | src/broker/dns.rs:28-55 | from packet to packet: the address that a reader of section 4.1.3 of RFC 1035 takes out of the reply leads back to the asked domain, under the same condition, for every domain without an empty piece |
| `Resolver.UnknownFakeAddressesFail` | src/broker/dns.rs:28-37 | a pool address fails exactly if it is not live; the DNS address always fails |
| `Resolver.NumericPasses` | src/fake_dns.rs:79-82 | an address passes as it is if and only if it is outside 198.18.0.1 to 198.19.255.254 |
| `Resolver.HostsAreShort` | src/proxy/socks5.rs:203-212 | every host recovered from an address meets the SOCKS5 length limit |
| `Memory.Path` | src/broker/memory.rs:16-36 | chunked reading equals reading byte by byte, faults and over-long names included; the result is what the logged reads give, they follow one another, and none touches a page beyond that of the terminator |
| `Memory.PathIs` | src/broker/memory.rs:16-36 | the byte-wise reading in terms of memory: with n nonzero mapped bytes in front it is those bytes if a zero follows, errno 14 if the next byte is unmapped, errno 36 if n is 4096 |
| `Memory.PathChunk` | src/broker/memory.rs:19-34 | each turn makes progress and decides the rest as the byte-wise reader would |
| `Message.Capacity` | src/broker/message.rs:70-76 | succeeds exactly if the mathematical sum fits |
| `Message.ReadPayload` | src/broker/message.rs:78-90 | gathers all vectors, or fails for the sum, the size or a fault |
| `Message.NullFaults` | src/broker/access.rs:144-158 | at the null address, or past the end of the address space, a nonempty copy in either direction fails with errno 14, an empty one succeeds |
| `Message.Process.WritePayload` | src/broker/message.rs:92-103 | fills the vectors in order; nothing outside them changes, even on a fault |
| `Message.ScatterThenGather` | src/broker/message.rs:78-103 | for disjoint vectors the payload comes back as a prefix of what is gathered, followed by the old bytes |
| `Process.Descendants` | src/process.rs:162-187 | ends on every finite snapshot, finds exactly the processes reachable from the root, each once and without the root, and fails exactly if one of them is unreadable |
| `Process.SignalDescendants` | src/process.rs:162-193 | succeeds if and only if every process can be read and every one below the root can be signalled; signals each at most once, all of them on success, none if the traversal fails, and with one parent each every process before its parent |
| `Process.TreeIsTheSnapshot` | src/process.rs:166-185 | a child is exactly what some readable task of an existing process lists; a process counts as unreadable exactly if it, or one of its tasks, exists and cannot be read |
| `Process.WaitForCommandTree` | src/process.rs:86-158 | the signal of each turn is the last one received, or SIGKILL from two seconds after the first; it ends in the first turn without children, with the command's last status, or in the first turn in which a call fails |
| `Process.ForwardedIs` | src/process.rs:113-156 | with the first termination signal at turn f and the latest at turn l, what is forwarded is that latest signal, or 9 from 2 000 000 000 ns after the first |
| `Process.NothingForwarded` | src/process.rs:113-133 | without a termination signal nothing is forwarded |
| `Process.LastReportCounts` | src/process.rs:91-108 | the status is that of the last report on the command: its exit code, or 128 plus the signal that killed it |
| `Process.NoReportNoStatus` | src/process.rs:91-108 | without a report on the command there is no status |
| `Process.KillIsFinal` | src/process.rs:151-156 | later signals never postpone the deadline: from the first kill on every turn kills |
| `TcpBind.Socket.Prepare` | src/broker/tcp_bind.rs:6-34 | over all failure choices: success gives a nonzero port with address and option as before; a refused reservation whose rollback calls succeed leaves no trace even if it dropped the address; the option is restored even if rebinding fails; a granted port is never lost; a reservation without a port fails with errno 99 |
| `Diagnostics.WalkBuffer` | src/broker/diagnostics.rs:89-122 | the offset loop stays inside the buffer, always moves forward and handles message by message |
| `Diagnostics.Snapshot` | src/broker/diagnostics.rs:70-123 | over any receptions the loop retries interrupted calls, fails on errors and on empty or oversized datagrams, and otherwise collects what the messages say |
| `Diagnostics.WalkUnpacks` | src/broker/diagnostics.rs:90-121 | the walk undoes the kernel's packing, padding included |
| `Diagnostics.DatagramsDoNotMatter` | src/broker/diagnostics.rs:70-123 | how messages are split over datagrams does not change the result |
| `Diagnostics.DumpIsExact` | src/broker/diagnostics.rs:89-122 | whatever the messages are, a dump is taken for a set if and only if it reaches an unflagged message of kind 3 before any flagged or failing one, and the set is that of all sockets listed before |
| `Diagnostics.PassesExactly` | src/broker/diagnostics.rs:98-115 | a message lets the walk go on if and only if flag bit 4 is clear, its kind is not 3, and, for kind 2, it starts with four zero bytes |
| `Diagnostics.ListedExactly` | src/broker/diagnostics.rs:116-120 | a cookie is collected if and only if a message of kind 20 with at least 72 bytes of payload carries it |
| `Diagnostics.CookieIsAt` | src/broker/diagnostics.rs:117-119 | the cookie is the little-endian number in bytes 44 to 51 |
| `Diagnostics.InterruptedDumpFails` | src/broker/diagnostics.rs:98-103 | it fails as interrupted if and only if a flagged message comes before any "done" or error |

## Left out

- Draining relays at shutdown (`drain_relays`): no state beyond the task set.
- The per-resolver UDP servers of `broker/dns.rs` (`server_for`, `original_server`): two maps filled in step.
- `datagram.rs`, `connect.rs`, `files.rs`, `access.rs`, `sockets.rs`, `receiver.rs`: kernel readiness, path checks and foreign calls, which appear here only as environment choices.
- Parsing of rule texts and proxy URLs, regular expressions (an abstract predicate per pattern), command line and logging.
- The text of the HTTP CONNECT request; only the reply side of the handshake is modelled.
- Read and write errors during a proxy handshake, and connection and handshake timeouts; end of stream is modelled everywhere.
- Socket addresses read from another process (`memory::ipv4`, `memory::family`, `memory::peer_name`) and the notification protocol itself.
- A connect that is cancelled while its native call succeeds: it was never committed, so the peer-table results do not speak of it.
- The order of two drops inside one relay: the registration goes before the permit, as the relay's future is laid out.
- Liveness of the connect protocol: fairness of the async scheduler is not modelled, only what every reachable state satisfies.
- Integers of a dump are read as little-endian, the native order of both supported architectures.
