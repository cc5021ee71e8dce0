# tailproxy, modelled and proved

tailproxy decides for each connection whether it is captured, which name it carries
and which exit it takes. This project models the parts of it that make those decisions,
and the parts that must not lose state while doing so, and proves what they promise.

| module | models |
|---|---|
| `Addr`, `Names`, `NameMeaning`, `Wrappers`, `Wire` | addresses and prefixes, host names and what their operations mean, option and result types, byte fields |
| `Rules` | the first-match rule engine, rule compilation, and the two static summaries selective capture relies on |
| `Nft`, `Capture`, `CaptureMeaning`, `TunScope`, `Ranges` | the generated nftables ruleset as a chain program with an interpreter, and TUN mode's bypass decision |
| `ClientHello`, `QuicVarint`, `QuicFrames`, `QuicStream`, `Quic`, `QuicMeaning`, `QuicHeader` | reading a name out of a TLS ClientHello, also one spread over QUIC Initial packets |
| `Tracker`, `UdpFlows`, `UdpRuns`, `UdpLoss`, `UdpFailures`, `UdpService` | connection records and the goroutines of transparent UDP as a state machine, one step per lock, channel or counter operation; where datagrams can be lost, which flows fail, and that the others are served |
| `FakeIP`, `EndToEnd` | the FakeIP pool; a name's way from the DNS answer to the dial |
| `Socks5`, `Socks5Meaning`, `Confluence`, `Socks5Session`, `Socks5Udp` | SOCKS5 client and server over two byte queues, and the UDP header |
| `Routes` | host route injection with failing calls, crashes and a state file |
| `Learned` | names learned from DNS answers and the routes that follow them |
| `Rewrite`, `RewriteScan`, `Panel` | writing one section of the config file back, and the panel's optimistic concurrency |
| `Egress` | configuration cross-references, reconciliation of exits, choice of a group member |
| `BrowserPolicy` | browser policy files and their undo journal |

Code that updates objects is modelled as classes whose methods state the whole new state
through a specification function; the lemmas are about those functions. Concurrent parts are
state machines whose theorems hold in every reachable state or under every schedule. Clocks,
randomness, hashes, parsers and the answers of system calls are parameters.

Where the code falls short of what one would expect of it, the model follows the code, a lemma
or a run of the modelled code gives an input, and a contract states exactly when the expectation
holds: names on which normalisation is not idempotent, DomainMayRoute behind direct rules with
ports, a suffix that catches everything, IPv4-mapped addresses in the ruleset, a repeated QUIC
fragment, loaded pool offsets, long names in SOCKS5 UDP headers, failed route deletes, a state
file lost between two failed renames, saves after the text was restored, measured times of zero,
policy files without a policies object.

`dafny verify dfyconfig.toml` checks the whole project.

## Model

| member | source | states |
|---|---|---|
| `Names.NormalizeIdempotentIff` | internal/rule/rule.go:101-103 | normalising a name twice changes it again exactly when the name, trimmed of space, ends in a dot that stands behind another dot or behind space |
| `Names.NormalizeNotIdempotent` | internal/rule/rule.go:101-103 | "a.." is a name that a second normalisation changes again |
| `NameMeaning.NormalizeMeaning` | internal/rule/rule.go:101-103 | a name between spaces normalises to itself without one trailing dot, in lower case |
| `NameMeaning.NormalizeAlike` | internal/rule/rule.go:101-103 | two names without space around them normalise alike exactly when they differ, but for one trailing dot, in the case of ASCII letters only |
| `NameMeaning.SuffixIsBelow` | internal/rule/rule.go:141-147 | the suffix test holds exactly when the name's labels end in all the labels of the suffix |
| `NameMeaning.ContainsIsWithin` | internal/rule/rule.go:148-152 | the keyword test holds exactly when some slice of the name is the keyword |
| `NameMeaning.LeadingDot` | internal/rule/rule.go:54-95 | a suffix written with a leading dot compiles to the one without |
| `Addr.ContainsMeaning` | internal/rule/rule.go:153-157 | a prefix contains an address of its family exactly when the leading bits agree |
| `Rules.RoutedPrefixes` | internal/rule/rule.go:211-219 | returns exactly the prefixes of the rules whose target is not direct, in rule order |
| `Rules.Compile` | internal/rule/rule.go:54-95 | compiles every rule, or reports the first rule with a prefix that does not parse |
| `Rules.CompiledMeaning` | internal/rule/rule.go:54-95 | a compiled rule takes a query exactly when the rule as written describes it: destination conditions are alternatives (the name itself, its last labels, a slice of it, a prefix of the address), ports restrict |
| `Rules.FirstTaken` | internal/rule/rule.go:106-131 | the scan answers the first compiled rule that takes the query, or the implicit direct when none does; by the outer name exactly when that rule is not final, its destination does not match and its outer name does |
| `Rules.FirstMatch` | internal/rule/rule.go:106-174 | the same in terms of the rules as written: the answer is the first one that applies and what its final or egress field says, or the implicit direct; by the outer name exactly when it would not apply without one |
| `Rules.RoutedByAddressIff` | internal/rule/rule.go:106-131 | a query whose name may not route leaves direct exactly when some routing rule has a prefix with its address, admits the port, and no earlier rule takes the query |
| `Rules.SelectiveLosesNothing` | internal/rule/rule.go:106-131 | without an outer name, whatever Match sends anywhere but direct has a name DomainMayRoute accepts or an address inside the routed prefixes |
| `Rules.RoutedIffUnshadowed` | internal/rule/rule.go:106-131 | a bare name leaves direct on a port exactly when some routing rule catches it and no earlier direct rule does |
| `Rules.DomainMayRouteExactIff` | internal/rule/rule.go:183-207 | DomainMayRoute never misses a name, and equals "some port leaves direct" unless a rule accepts the name while every rule that routes it does so only on ports of earlier direct rules for it |
| `Rules.MayRouteIffAccepting` | internal/rule/rule.go:183-207 | the scan says yes exactly when a rule routes the name away from direct and no earlier rule is final or sends the name direct on every port |
| `Rules.DomainMayRouteExact` | internal/rule/rule.go:183-207 | it is exact when no direct rule has ports and only the final rule is unconditional |
| `Rules.PortedDirectMakesItInexact` | internal/rule/rule.go:183-207 | a direct rule with a port can shadow the only routed port of an accepted name |
| `Rules.BareDirectMakesItInexact` | internal/rule/rule.go:183-207 | so can a direct rule without conditions |
| `Rules.UnconditionalIff` | internal/rule/rule.go:54-95 | a rule that passes the configuration checks and is not final compiles to one without conditions exactly when it has no host, keyword, prefix or port and every suffix and outer name is ".." once trimmed |
| `Rules.TwoDotsCatchEverything` | internal/config/config.go:407-416 | the suffix ".." passes the check for empty values and leaves a rule that takes every query |
| `Capture.Split` | internal/capture/nft.go:69-87 | splits the prefixes by family, masked, each once; their order, which a set in the ruleset does not keep, is left open |
| `Capture.SplitHolds` | internal/capture/nft.go:69-87 | an address lies in its family's set exactly when it lies in one of the listed prefixes |
| `Capture.Ruleset` | internal/capture/nft.go:108-241 | refuses a missing port or an unknown scope, and else renders the chains and sets of the options |
| `CaptureMeaning.AllScopeRun` | internal/capture/nft.go:243-248 | the chain fragment of scope all takes every address outside the default excludes |
| `Ranges.DefaultExcludeMeaning` | internal/capture/nft.go:24-44 | the default excludes hold exactly the this-network, private, loopback, link-local, shared, multicast and reserved ranges, bound by bound |
| `Ranges.LoopbackMeaning` | internal/capture/nft.go:24-44 | the loopback test holds exactly for 127.0.0.0/8 and ::1 |
| `CaptureMeaning.DecideRun` | internal/capture/nft.go:163-169 | decide_pre and mark_out take exactly the addresses in scope: not excluded, and routed or (in scope all) outside the default excludes |
| `CaptureMeaning.PreroutingRun` | internal/capture/nft.go:154-174 | what the mangle prerouting chain does to any packet |
| `CaptureMeaning.OutputRun` | internal/capture/nft.go:176-190 | what the mangle output chain does to any packet |
| `CaptureMeaning.BlockRun` | internal/capture/nft.go:202-218 | the block chains reject exactly DoH, DoT and DoQ packets that lack the bypass mark |
| `CaptureMeaning.BypassIsUntouched` | internal/capture/nft.go:108-241 | a locally generated packet with the bypass mark leaves the output hook unmarked, not redirected and not rejected |
| `CaptureMeaning.BlockedForwardIsRejected` | internal/capture/nft.go:142-150 | a forwarded packet to a blocked DoH, DoT or DoQ destination leaves prerouting unchanged and is rejected in forward |
| `CaptureMeaning.OrdinaryFate` | internal/capture/nft.go:152-218 | forwarded and local traffic meet the same fate: refused if blocked, proxied exactly if captured, else direct |
| `CaptureMeaning.AllScopeAgreesWithTUN` | cmd/tailproxy/tunscope.go:32-48 | in scope all, forwarded and local packets are proxied exactly when TUN mode finds no reason to bypass the address |
| `CaptureMeaning.MappedAgreesIff` | cmd/tailproxy/tunscope.go:37-48 | in scope all the ruleset proxies an IPv4-mapped destination unless an IPv6 exclude covers it; where none does, it agrees with TUN mode exactly when the IPv4 address is not excluded, and routed if it is a default exclude; where one does, exactly when the IPv4 address is bypassed |
| `CaptureMeaning.MappedDisagrees` | cmd/tailproxy/tunscope.go:37-48 | with nothing excluded or routed by the user, a packet to ::ffff:10.0.0.1 is proxied by the ruleset and bypassed as a default exclude in TUN mode |
| `CaptureMeaning.LocalDNSIsRedirected` | internal/capture/nft.go:220-229 | a local DNS query to an outside server ends at the front end, and is then refused exactly when the front end's port is a blocked one |
| `CaptureMeaning.UncapturedMeansDirect` | cmd/tailproxy/capture.go:300-316 | in selective scope, an ordinary packet (of a protocol capture takes, not to port 53) that capture lets through, not excluded and without a FakeIP name, is sent elsewhere than direct by the rules only if its destination is IPv4-mapped, and then exactly when a routing rule has a prefix with the IPv4 address, admits the port, and no earlier rule takes it |
| `CaptureMeaning.MappedIsLost` | internal/rule/rule.go:106-131 | with one rule that routes 10.0.0.0/8 and that prefix captured, a packet to ::ffff:10.0.0.1 is let through although the rule takes it |
| `ClientHello.ParseServerName` | internal/sniff/sniff.go:155-172 | the first host_name entry of a server name list, stopping at the first entry cut short |
| `ClientHello.ShortEntry` | internal/sniff/sniff.go:155-172 | entries of other kinds are passed over, and an entry cut short ends the search |
| `ClientHello.ParseClientHello` | internal/sniff/sniff.go:106-153 | parses any bytes without leaving them, as the field-by-field specification says |
| `ClientHello.HelloRoundTrip` | internal/sniff/sniff.go:106-172 | parsing an encoded ClientHello gives the first host name of the last server_name extension that holds one, and ECH exactly if that extension occurs |
| `ClientHello.TruncatedHello` | internal/sniff/sniff.go:106-153 | on a prefix that reaches the extensions, it gives what the extensions complete in that prefix say |
| `ClientHello.ShortHello` | internal/sniff/sniff.go:106-153 | on any shorter prefix it reports nothing |
| `QuicVarint.DecodeVarint` | internal/sniff/quic.go:310-323 | reads one variable-length integer byte by byte |
| `QuicVarint.VarintRoundTrip` | internal/sniff/quic.go:310-323 | every encoding of every value, in every width that fits, decodes to that value and width whatever follows |
| `QuicVarint.VarintIsEncoding` | internal/sniff/quic.go:310-323 | what decodes is an encoding of the value it decodes to |
| `QuicVarint.VarintRange` | internal/sniff/quic.go:310-323 | the values decoding can give, and those that have an encoding, are exactly those below 2 to the 62 |
| `QuicFrames.CollectAll` | internal/sniff/quic.go:222-279 | any encoded sequence of PADDING, PING, ACK and CRYPTO frames is collected whole |
| `QuicFrames.CollectMore` | internal/sniff/quic.go:222-279 | behind frames already read, collecting goes on with what follows |
| `QuicFrames.OtherFrameStops` | internal/sniff/quic.go:222-279 | any other frame type ends the reading; what came before is kept |
| `QuicFrames.BadCrypto` | internal/sniff/quic.go:252-265 | a CRYPTO frame that reaches beyond the packet or beyond 65536 makes the packet malformed |
| `QuicFrames.StoresFirst` | internal/sniff/quic.go:262-276 | what is stored is exactly the first CRYPTO data per offset |
| `QuicFrames.StoredLengthStore` | internal/sniff/quic.go:266-276 | storing adds the length of the new fragment, and nothing for an offset already held |
| `QuicStream.Rebuild` | internal/sniff/quic.go:283-300 | whatever order the fragments are walked in, the passes end, and the stream reaches exactly to the first byte no fragment covers |
| `QuicStream.OrderDoesNotMatter` | internal/sniff/quic.go:283-300 | any two walk orders rebuild equally much, and the same bytes when the fragments agree |
| `QuicStream.ClientHello` | internal/sniff/quic.go:283-306 | answers the message of that stream, if it is complete |
| `QuicStream.StreamIsPrefix` | internal/sniff/quic.go:283-300 | with fragments that agree with the sent stream, the rebuilt one is the sent prefix up to the first gap |
| `QuicStream.HelloIff` | internal/sniff/quic.go:283-306 | the ClientHello is found exactly when all its bytes are covered, and is then the sent one |
| `QuicStream.HelloIsStable` | internal/sniff/quic.go:283-306 | further consistent fragments never change the answer |
| `QuicStream.StoreCoversIff` | internal/sniff/quic.go:266-276 | a frame's bytes are covered after storing it exactly when no shorter fragment at its offset came first, or others cover the rest |
| `QuicStream.LongerRepeatIsDropped` | internal/sniff/quic.go:266-276 | a longer fragment at an offset already held is dropped, and its further bytes stay missing |
| `Quic.QUIC.Frames` | internal/sniff/quic.go:222-279 | walks the frames of a payload, keeping fragments and their total as the specification collects them |
| `Quic.QUIC.AddPacket` | internal/sniff/quic.go:89-161 | takes one packet of a datagram: its length is positive and inside the datagram, keys are kept per connection ID |
| `Quic.QUIC.Add` | internal/sniff/quic.go:59-84 | ends on any datagram, is done by the 16th call, and answers from the fragments held |
| `QuicMeaning.HeaderRoundTrip` | internal/sniff/quic.go:89-130 | every Initial packet of version 1 (type 0) or 2 (type 1), as the RFCs lay it out, is read back with its exact end, whatever follows in the datagram |
| `QuicHeader.InitialIff` | internal/sniff/quic.go:89-130 | the front of a datagram is taken for an Initial packet exactly when it is one |
| `QuicHeader.ForeignRefused` | internal/sniff/quic.go:89-104 | short headers and every other version are refused |
| `QuicHeader.ForeignIsDone` | internal/sniff/quic.go:59-75 | a flow whose first datagram starts like that is answered with nothing and done |
| `QuicHeader.UnreadableAnswered` | internal/sniff/quic.go:76-84 | a complete message that is no readable ClientHello is answered without a name |
| `QuicHeader.OtherSkipped` | internal/sniff/quic.go:105-130 | a 0-RTT or Handshake packet is skipped to its exact end |
| `QuicHeader.OtherChangesNothing` | internal/sniff/quic.go:59-72 | in front of other packets it changes nothing but that the datagram counts as QUIC |
| `QuicMeaning.DatagramAbsorbed` | internal/sniff/quic.go:59-72 | a datagram of Initial packets of one flow stores all their frames |
| `QuicMeaning.NameIsRead` | internal/sniff/quic.go:59-306 | a ClientHello cut into CRYPTO frames, packets and datagrams in any order and with repetitions is answered exactly when the stored fragments cover it; until then the reader waits up to its limits |
| `Tracker.Tracker.Add` | internal/proxy/tracker.go:78-85 | a new record gets the next id, is counted and active |
| `Tracker.Tracker.Finish` | internal/proxy/tracker.go:88-102 | an active record leaves the active list, joins the end of recent, which keeps the last 200, and counts as failed if it has an error |
| `Tracker.TotalsAddUp` | internal/proxy/tracker.go:78-102 | in every consistent state the total is active plus finished |
| `UdpRuns.InvKept` | internal/proxy/udp.go:136-379 | every step of every goroutine keeps all the invariants |
| `UdpRuns.BoundedAndUnique` | internal/proxy/udp.go:136-167 | in every reachable state there are at most 8192 flows, and one live flow per client and destination |
| `UdpRuns.RecordsAddUp` | internal/proxy/udp.go:160-345 | in every reachable state each record is added once, every ended flow's record is finished once and not active, the total adds up and recent lists the last 200 finishes |
| `UdpRuns.WrittenInOrder` | internal/proxy/udp.go:183-216 | what is written upstream from a flow's queue are datagrams dispatched to it, in order and none twice; with no packets from the reply socket that is all that is written |
| `UdpLoss.ArriveMeaning` | internal/proxy/udp.go:136-152 | a dispatched datagram is on its way to the live flow of its key or to a new one, and is dropped exactly when it has no flow and 8192 are live |
| `UdpLoss.EnqueueMeaning` | internal/proxy/udp.go:153-157 | it goes behind all its flow holds, and is dropped exactly when 32 are queued |
| `UdpLoss.WhereItIs` | internal/proxy/udp.go:136-234 | in every run, each dispatched datagram is at exactly one place (on its way, queued, held, written) with a flow of its key, unless a step lost it at the flow limit, a full queue, a failed write or a failed flow; what is lost is nowhere |
| `UdpService.FlowServes` | internal/proxy/udp.go:160-216 | whatever a new flow has queued, and however many of these its sniffing holds back (up to 16), when dialing and the reply socket succeed all of them are written in order and counted, and the pumps run |
| `UdpService.QueueForwarded` | internal/proxy/udp.go:200-216 | while its calls succeed the pump writes the whole queue in order and counts the bytes |
| `UdpService.PumpsRun` | internal/proxy/udp.go:183-265 | in every reachable state a flow past setup and not closed has both sockets open and all three pumps running |
| `UdpService.ListenersGoOn` | internal/proxy/udp.go:136-158 | in every reachable state each listener can send the datagram in its hand, and else take the next one or return, and then close what it found: it never blocks |
| `UdpService.Refusal` | internal/proxy/udp.go:288-345 | a setup step refuses the flow exactly when the policy does, the name is blocked, or the dial or the reply socket fails |
| `UdpService.RefusedForever` | internal/proxy/udp.go:160-181 | a refused flow is never dialed, and nothing of it is written |
| `UdpFailures.ErrMeaning` | internal/proxy/udp.go:183-252 | a flow keeps an error exactly when a pump's call fails on an open socket; closing the sockets makes none |
| `UdpFailures.FailuresExact` | internal/proxy/udp.go:160-345 | in every reachable state the tracker's failures are the finished flows whose setup failed or that kept an error, one each |
| `UdpRuns.CountersExact` | internal/proxy/udp.go:183-265 | the counters never exceed, and at the end equal, the bytes written upstream and returned; both sockets are then closed |
| `UdpRuns.ClosedAll` | internal/proxy/udp.go:347-357 | when closeAll is through, every flow it found live has been closed |
| `UdpRuns.NoFlowStuck` | internal/proxy/udp.go:160-274 | each live flow always has a step of its own that brings it nearer its end |
| `UdpRuns.WorkFalls` | internal/proxy/udp.go:160-274 | every step of the flow's own goroutine except waiting (dropping a failed flow's packets, closing again) uses up work, whatever the calls answer, and no other step of the flow adds any |
| `UdpRuns.TurnsBounded` | internal/proxy/udp.go:160-274 | in every run and under every schedule a flow's goroutine takes at most 70 such steps |
| `UdpRuns.ClosingEnds` | internal/proxy/udp.go:256-266 | once both sockets are closed every step of the flow, the pumps' too, brings it nearer its end |
| `UdpFlows.PipeKept` | internal/proxy/udp.go:183-234 | a step of a flow moves its datagrams on in order, and loses none but the one it names: one whose write fails, or one dropped with a failed flow |
| `UdpFlows.CountsKept` | internal/proxy/udp.go:183-252 | every step keeps written bytes equal to counted plus about to be counted |
| `FakeIP.AddressRoundTrip` | internal/fakeip/pool.go:58-77 | each offset has an address strictly inside the pool that leads back to it |
| `FakeIP.OffsetRoundTrip` | internal/fakeip/pool.go:58-77 | each address with an offset is the address at that offset |
| `FakeIP.NewPool` | internal/fakeip/pool.go:93-111 | makes empty pools of the masked prefixes; refused exactly for a missing or wrong-family prefix, an IPv4-mapped IPv6 one, or fewer than two host bits |
| `FakeIP.UsableMeaning` | internal/fakeip/pool.go:42-77 | the addresses a pool uses: all of its prefix but the first and last below 17 host bits, else the 65536 behind the first |
| `FakeIP.MaskedUnmapped` | internal/fakeip/pool.go:93-111 | masking a prefix that is not IPv4-mapped does not make it so |
| `FakeIP.HandedOutUnmapped` | internal/fakeip/pool.go:58-66 | no address a pool hands out is IPv4-mapped, whatever the width of its prefix |
| `FakeIP.GetKeeps` | internal/fakeip/pool.go:79-90 | an allocation keeps names and offsets inverse, and the name has its offset |
| `FakeIP.Family.Get` | internal/fakeip/pool.go:79-90 | answers the name's address, allocating round-robin and dropping the previous holder |
| `FakeIP.Pool.V4` | internal/fakeip/pool.go:118-122 | allocates by normalised name in the IPv4 table only |
| `FakeIP.Pool.V6` | internal/fakeip/pool.go:125-132 | the same for IPv6; none without an IPv6 pool |
| `FakeIP.Pool.Lookup` | internal/fakeip/pool.go:150-164 | the name an address leads to, in the table of its family |
| `FakeIP.AddressIsStable` | internal/fakeip/pool.go:79-90 | a newly allocated name keeps its address, and Lookup leads back, through the next size-1 new names whatever else is asked; the new name after those takes the address |
| `FakeIP.LoadIsInverseIff` | internal/fakeip/pool.go:197-227 | loading into an empty pool gives inverse tables exactly when the offsets are distinct |
| `FakeIP.LoadOfTwins` | internal/fakeip/pool.go:197-227 | a snapshot that gives two names one offset loads into tables that are not inverse |
| `FakeIP.LoadOfSave` | internal/fakeip/pool.go:177-227 | what Save wrote is restored |
| `FakeIP.Family.Save` | internal/fakeip/pool.go:177-193 | the snapshot holds prefix, next offset and every name |
| `FakeIP.Family.Load` | internal/fakeip/pool.go:205-225 | restores the fitting entries of a snapshot of the same prefix in any order, and the exact state when it came from Save |
| `Socks5.ServerRequest` | internal/socks5/socks5.go:75-136 | the server's reads and writes are those of its state machine |
| `Socks5Meaning.GreetingAnswered` | internal/socks5/socks5.go:75-99 | for every list of methods: the wanted method is chosen exactly when it is anywhere in the list, else 05 ff and refused; another first byte is no SOCKS5 |
| `Socks5Meaning.CredentialsAnswered` | internal/socks5/socks5.go:138-164 | 01 00 exactly for the configured user and password, 01 01 for any other pair |
| `Socks5Meaning.RequestAnswered` | internal/socks5/socks5.go:101-136 | for every address field: a command the server does not take is refused with code 7, CONNECT to an empty name with code 1, and else command, host and port are the request |
| `Socks5Meaning.RequestRefused` | internal/socks5/socks5.go:101-136 | another version is refused silently, another address type with code 8 |
| `Socks5Meaning.MethodReplyTaken` | internal/socks5/socks5.go:236-262 | the client goes on exactly when version 5 and the method it offered come back |
| `Socks5Meaning.StatusTaken` | internal/socks5/socks5.go:262-274 | it sends the credentials by the field lengths, refuses ones over 255 bytes, and goes on exactly when the status is zero |
| `Socks5Meaning.ReplyTaken` | internal/socks5/socks5.go:278-320 | it asks for its host as IPv4, IPv6 or name, reads the reply with any bound address, and is connected exactly when the code is zero |
| `Socks5Meaning.ReplyRefused` | internal/socks5/socks5.go:278-320 | a name over 255 bytes and a reply with another address type fail |
| `Socks5Meaning.ReplyWritten` | internal/socks5/socks5.go:197-215 | the bytes of a reply with an IPv4 address |
| `Socks5.ServerAuth` | internal/socks5/socks5.go:138-164 | the same for the username/password exchange |
| `Socks5.ReadAddr` | internal/socks5/socks5.go:168-194 | reads exactly one address field |
| `Socks5.WriteReply` | internal/socks5/socks5.go:197-215 | writes one reply; an invalid bound address is written as 0.0.0.0 |
| `Socks5.ClientAuth` | internal/socks5/socks5.go:236-274 | the client's greeting and authentication are those of its state machine |
| `Socks5.ClientConnect` | internal/socks5/socks5.go:278-320 | the same for the whole client |
| `Confluence.EveryScheduleArrives` | internal/socks5/socks5.go:75-320 | if two parties' steps commute, every schedule extends to the one end one of them reaches, in the same number of steps |
| `Socks5Session.SessionDiamond` | internal/socks5/socks5.go:75-320 | a step of one side over the two byte queues never disturbs a step of the other |
| `Socks5Session.EverySession` | internal/socks5/socks5.go:75-320 | client and server never deadlock: under every interleaving they reach the same end with both queues empty |
| `Socks5Session.OutcomeMeaning` | internal/socks5/socks5.go:67-320 | with equal credentials that fit, the server obtains the client's host and port and the client succeeds exactly if the reply code is 0; different ones end both sides in an authentication failure |
| `Socks5Udp.ParseUDP` | internal/socks5/udp.go:25-48 | parses any bytes as the header specification says |
| `Socks5Udp.DatagramMeaning` | internal/socks5/udp.go:25-48 | for every address field: host, port and data are read, a fragment or an empty name refused |
| `Socks5Udp.OtherTypesRefused` | internal/socks5/udp.go:29-38 | any other address type is refused, behind the fragment test |
| `Socks5Udp.HeaderBytes` | internal/socks5/udp.go:52-67 | three zeros, the address field of the literal (IPv4 or IPv6) or name, and the port |
| `Socks5Udp.AppendUDPHeader` | internal/socks5/udp.go:52-67 | appends the header of the host and port |
| `Socks5Udp.HeaderRoundTripIff` | internal/socks5/udp.go:25-67 | parsing undoes appending exactly for IP literals and names of 1 to 255 bytes |
| `Socks5Udp.LongNameIsMisread` | internal/socks5/udp.go:25-67 | a name of 257 letters comes back as its first letter, with the next two as the port |
| `Socks5Udp.PrefixRejected` | internal/socks5/udp.go:25-48 | no strict prefix of a header is accepted |
| `Socks5Udp.DataIsSuffix` | internal/socks5/udp.go:25-48 | accepted data is the unchanged end of the datagram |
| `Routes.World.SaveRouteState` | internal/kernel/bacarra/state.go:31-64 | the file becomes the new set exactly when the write and one of the renames work, is lost exactly when both renames fail around a working removal, and else stays |
| `Routes.World.RemoveRouteState` | internal/kernel/bacarra/state.go:94-100 | the file is gone unless the call failed |
| `Routes.WantedCovers` | internal/kernel/bacarra/route.go:92-99 | the wanted routes lie on prefix boundaries and take exactly the addresses of the request |
| `Routes.AddingStep` | internal/kernel/bacarra/route.go:105-118 | adding one wanted route, or failing to, keeps what the first phase promises: one route missing for each failed call |
| `Routes.RemovingStep` | internal/kernel/bacarra/route.go:120-129 | removing one unwanted route keeps what the second phase promises: one route left in the table for each failed call |
| `Routes.PhasesMeet` | internal/kernel/bacarra/route.go:105-129 | after both phases the manager knows only wanted routes in the table; the missing ones are as many as the failed adds, the forgotten ones as the failed deletes, and nothing else of the table changed |
| `Routes.SaveExposes` | internal/kernel/bacarra/route.go:131-147 | a crash while saving leaves at most what the old or the new file misses, or the whole table when the old file was removed |
| `Routes.ApplyBounded` | internal/kernel/bacarra/route.go:90-150 | over whole runs, whatever fails: the table holds what it held at first, what is applied and failed deletes, and a teardown after a crash misses only what was there at first, failed deletes and what was wanted since the last save that worked |
| `Routes.CrashInRun` | internal/kernel/bacarra/route.go:90-150 | a crash at any point of any Apply of a run exposes only these and the routes this call newly wants, unless the file was removed for a second rename |
| `Routes.CrashFromAgreement` | internal/kernel/bacarra/route.go:90-150 | from a state where table, manager and file agree, such a crash exposes only newly wanted routes and failed deletes |
| `Routes.RouteManager.Apply` | internal/kernel/bacarra/route.go:90-150 | the exact number of errors, calls and missing and forgotten routes and the exact file, by the calls that fail; the invariant and the crash bounds of ApplyBounded and CrashInRun, for any call of a run; without failures table, manager and file are the wanted set; at rest a teardown misses exactly the failed deletes; the same set again makes no driver call |
| `Routes.FailedDeleteStays` | internal/kernel/bacarra/route.go:120-129 | a route whose delete failed is in the table, is named by no file, and no teardown removes it |
| `Routes.SecondApplyLosesFile` | internal/kernel/bacarra/state.go:52-61 | applying the same routes again with both renames failing removes the right file |
| `Routes.RouteManager.Close` | internal/kernel/bacarra/route.go:153-172 | forgets every route, leaves in the table as many of them as deletes failed and removes nothing else; the file goes unless that call fails; the invariant over whole runs holds on |
| `Routes.TeardownStale` | internal/kernel/bacarra/route.go:181-230 | deletes nothing the file does not name; with a driver the table keeps exactly what the file does not name and the routes whose delete failed, one for each failed call, though the file goes all the same; a corrupt file is removed and reported |
| `Learned.FreshestOrNothing` | internal/iplearn/table.go:82-91 | a name comes back exactly when the most recent answer for the address gave it, has not expired, and was not turned away by a table full of live entries |
| `Learned.KnownIsTaken` | internal/iplearn/table.go:59-69 | a known address, and any address while the table is not full, is always stored |
| `Learned.LearnableMeaning` | internal/iplearn/table.go:55-59 | never learned are exactly the unspecified addresses, 127.0.0.0/8 and ::1 |
| `Learned.FullIsTaken` | internal/iplearn/table.go:59-65 | a full table turns a new address away exactly when all its entries are live |
| `Learned.EvictedIsLive` | internal/iplearn/table.go:73-79 | eviction leaves exactly the live addresses |
| `Learned.NameTable.Add` | internal/iplearn/table.go:44-71 | the table follows the history of answers, whenever evictions happened; it never exceeds 65536 entries; with an unchanged generation no binding is new |
| `Learned.NameTable.Lookup` | internal/iplearn/table.go:82-91 | answers what the history alone says, whatever was evicted when |
| `Learned.NameTable.Addrs` | internal/iplearn/table.go:95-109 | the live addresses whose name is kept, no more and no fewer, in rising order, with the generation |
| `Learned.Capture.Apply` | cmd/tailproxy/capture.go:300-339 | routes exactly the live learned addresses whose name the rules keep |
| `Learned.Capture.Learn` | internal/iplearn/table.go:44-73 | answers learned between two looks keep the capture's invariant, and leave what is routed as it is |
| `Learned.Capture.LearnChanged` | cmd/tailproxy/capture.go:344-352 | when it reports no change after the throttle has passed, every address that would be captured by its learned name is routed already |
| `Rewrite.ReplaceSection` | internal/config/rewrite.go:35-92 | finds the key, trims blank and comment lines from the section's end and writes the new file; the errors of an unparsable file, a root that is no mapping, a key not at column 1 |
| `Rewrite.SolidIsTrimmed` | internal/config/rewrite.go:75-81 | the line test of the trimming loop in terms of the trimmed line |
| `Rewrite.WriteOutcomes` | internal/config/rewrite.go:35-72 | an unparsable file, a root that is no mapping and a key not at column 1 are refused; without the key the block goes behind the file, which gets its last newline |
| `Rewrite.RestIsKept` | internal/config/rewrite.go:67-91 | everything before the key's line and everything behind the section's last line that is neither blank nor comment is kept byte for byte |
| `Rewrite.GetPut` | internal/config/rewrite.go:35-92 | replacing a section by its own text changes nothing |
| `Rewrite.PutGet` | internal/config/rewrite.go:35-92 | the new file holds the block as the key's section |
| `Rewrite.PutPut` | internal/config/rewrite.go:35-92 | replacing twice equals replacing once with the last block |
| `Rewrite.OthersKept` | internal/config/rewrite.go:35-92 | the sections of all other keys read the same after the replacement |
| `RewriteScan.ScanMoved` | internal/config/rewrite.go:41-72 | a parser that tells top-level keys from their lines reports for the new file the layout the laws ask for |
| `RewriteScan.WriteTwice` | internal/config/rewrite.go:35-92 | with such a parser asked anew each time, replacing twice equals replacing once, and the section reads as the block written |
| `RewriteScan.ScanAppended` | internal/config/rewrite.go:45-62 | when the write appends the section, such a parser reports the keys there were and the new one behind them |
| `RewriteScan.WriteTwiceAppended` | internal/config/rewrite.go:45-62 | when the first write appended the section, writing twice equals writing once with the last block, and the section reads as the block written |
| `Panel.PanelServer.SaveSection` | internal/panel/rules_edit.go:97-161 | succeeds exactly when the revision asked for is the running one and the one in the file, the edit validates and compiles, the rewritten text parses back to it, and all calls work; then file, running config, engine and revision come from the one text written and the old text is the backup; a rejected save changes neither file nor running state |
| `Panel.PanelServer.Reload` | internal/panel/panel.go:399-427 | swaps in the file's config, engine and revision together, or changes nothing |
| `Panel.LogGrows` | internal/panel/rules_edit.go:97-161 | a save that found its base in the file keeps the log of saves consistent |
| `Panel.SameRevisionSameBase` | internal/panel/rules_edit.go:111-119 | two accepted saves were made from one revision exactly when they were made on the same text |
| `Panel.TwoSavesFromOneRevisionIff` | internal/panel/rules_edit.go:111-161 | of two accepted saves, nobody else writing just before the later, both are from one revision exactly when the save before the later left the text the earlier was based on; for two in a row, exactly when the first left the file unchanged |
| `Panel.RestoredTextAcceptsBoth` | internal/panel/rules_edit.go:97-161 | three saves of one run are all accepted although the first changes the file and the third is from the same revision as the first: the second restored the text |
| `EndToEnd.Connect` | internal/proxy/router.go:93-150 | chooses target and host and makes the one call they stand for |
| `EndToEnd.UnknownDomainPolicy` | internal/proxy/router.go:100-109 | the policy for unknown names changes the target only of captured, nameless, not bypassed connections |
| `EndToEnd.UnknownDomainDecides` | internal/proxy/router.go:100-109 | for these, reject refuses whatever rule matched unless by the outer name, an egress takes the connections no rule matched, and all others go where the rule says; a bypassed one goes direct |
| `EndToEnd.ExplicitMeaning` | internal/proxy/router.go:70-78 | what an explicit proxy client asks for goes where the rules say, whatever that policy |
| `EndToEnd.WhatIsDialed` | internal/proxy/router.go:124-150 | for every target and both networks the one call made: refused for reject; direct and tailnet with the real address, or the name without one; an exit with the name, or the address without one; tailnet UDP by the general UDP dial |
| `EndToEnd.Record` | internal/proxy/router.go:122-152 | a connection's record is added, and finished as failed exactly when it is refused or not reached |
| `EndToEnd.LoggedMeaning` | internal/proxy/tracker.go:78-102 | in the tracker's terms: a connection that is reached is counted and active, any other but one to the inbound itself is counted, failed and finished |
| `EndToEnd.Handle` | internal/proxy/transparent.go:76-153 | what a captured connection comes to: refused, blocked, or matched with the name or address it carries; with one record, finished at once unless it is connected |
| `EndToEnd.RealAddressMeaning` | internal/proxy/transparent.go:91-125 | one to a real address: a bypass is taken before any sniffing and goes direct; else it is matched with the sniffed name, or without one the learned; the name of an ECH hello is the outer one only; a DoH name is blocked |
| `EndToEnd.PoolAddressMeaning` | internal/proxy/transparent.go:91-103 | one to a pool address: refused without a name, else matched on the name with no address, nothing sniffed or learned; a DoH name is blocked |
| `EndToEnd.OwnPortIgnored` | internal/proxy/transparent.go:76-90 | a TCP connection to the loopback port of the inbound itself is closed, a UDP flow is not |
| `EndToEnd.SetupFlow` | internal/proxy/udp.go:288-345 | the same for a UDP flow, which does not sniff behind a bypass or a pool address; a failing reply socket finishes the record |
| `EndToEnd.Server.FakeAnswer` | internal/dnsserver/server.go:320-335 | one address of the asked family from the pool; none for HTTPS and SVCB |
| `EndToEnd.Server.Handle` | internal/dnsserver/server.go:196-247 | dropped when malformed, a format error without a question, a name error exactly for the canary and blocked names, answered from the pool exactly when the name of any other A, AAAA, HTTPS or SVCB question may route, and then never forwarded; each query counts once |
| `EndToEnd.AnswerLeadsBack` | internal/dnsserver/server.go:217-223 | a pool address answered for a name leads back to it while fewer than size new addresses were handed out since it was allocated; a repeated answer does not prolong that |
| `EndToEnd.FakeIPEndToEnd` | internal/proxy/transparent.go:91-146 | a captured TCP connection or UDP flow to such an address is matched on that name with no address, and dialed as an explicit proxy client asking for the name would be |
| `EndToEnd.RoutedNameReachesItsTarget` | internal/proxy/router.go:93-150 | a name the rules send anywhere but direct gets a FakeIP, and a TCP connection or UDP flow to it is refused or handed to exactly that target with the name |
| `EndToEnd.PoolIsNeverDialed` | internal/proxy/transparent.go:91-103 | nothing captured, over TCP or UDP, dials a pool address; to an unmapped pool address nothing is dialed |
| `Egress.Validate` | internal/config/config.go:313-395 | reports no error exactly when entries are well formed, names distinct, and every member and rule target is defined |
| `Egress.ValidatedMeaning` | internal/config/config.go:313-395 | the same written out: distinct names, every member a slot or a relay of the file, every rule with exactly one of egress and final, naming direct, tailnet, reject or an entry |
| `Egress.EntryMeaning` | internal/config/config.go:320-375 | a slot has an exit node, a relay an address and neither exit node nor resolver, a group members and a health check of at least five seconds |
| `Egress.ValidNameMeaning` | internal/config/config.go:519-531 | a name is 1 to 40 of a-z, 0-9 and -, not starting with - |
| `Egress.CheckEntries` | internal/config/config.go:320-375 | the entry part of it, with the names it gathers |
| `Egress.Manager.ApplyOne` | internal/egress/manager.go:164-196 | a known name's object is switched in place, a new name gets a new object, nothing else changes |
| `Egress.Manager.Apply` | internal/egress/manager.go:138-255 | on success the manager holds exactly the named slots, relays and groups, kept names keep their objects, and what is handed back was dropped; a bad health check changes nothing; a failed directory drops nothing |
| `Egress.KindsPartition` | internal/egress/manager.go:164-178 | slot, relay and group names are disjoint and together the file's names |
| `Egress.ResolveAllDefined` | internal/egress/manager.go:212-222 | a list of defined members resolves in order, one object each |
| `Egress.TargetsAreServed` | internal/egress/manager.go:389-408 | after Apply of a validated file every target a rule names is reserved or served by exactly one slot, relay or group, whose members are all there |
| `Egress.Manager.Dial` | internal/egress/manager.go:389-417 | a dial is refused as unknown exactly when no slot, relay or group has the name, and as not ready exactly when no member of the group is ready and healthy; else it goes through the object of that name, or the member the group chooses |
| `Egress.Pick` | internal/egress/manager.go:442-469 | fallback takes the first eligible member; latency takes the fastest measured one exactly when no measured time of zero was passed over |
| `Egress.ZeroIsForgotten` | internal/egress/manager.go:457-460 | of two members measured at zero and five a latency group picks the slower |
| `BrowserPolicy.DirsGo` | internal/browserpolicy/browserpolicy.go:149-170 | removing the directories made, deepest first, leaves exactly the tree before |
| `BrowserPolicy.UndoStep` | internal/browserpolicy/browserpolicy.go:174-280 | undoing a change gives the tree before it, up to an empty policies object |
| `BrowserPolicy.WrittenMeaning` | internal/browserpolicy/browserpolicy.go:174-236 | writing a policy adds its path and the missing directories and changes nothing else; a file of its own holds the policy, in a shared one only the DNS-over-HTTPS key under policies changes |
| `BrowserPolicy.KeyUndoMeaning` | internal/browserpolicy/browserpolicy.go:238-280 | undoing a key in a file edited since takes only the key back, and removes a file that was not there before when nothing else is left |
| `BrowserPolicy.RollbackRestores` | internal/browserpolicy/browserpolicy.go:132-140 | rolling back a whole journal gives the old tree but for empty policies objects added, so exactly the old tree if and only if every shared file had a policies object |
| `BrowserPolicy.EmptyFileChanges` | internal/browserpolicy/browserpolicy.go:238-280 | a shared file holding an empty object does not come back as it was |
| `BrowserPolicy.Disk.ApplyTarget` | internal/browserpolicy/browserpolicy.go:174-236 | writes one policy and reports its undo entry, or leaves the tree as it was |
| `BrowserPolicy.Disk.RevertFile` | internal/browserpolicy/browserpolicy.go:238-280 | undoes one entry exactly when a made file is no directory with content and a shared file is gone or JSON, and else changes nothing |
| `BrowserPolicy.Disk.Apply` | internal/browserpolicy/browserpolicy.go:82-112 | stops at the first target that fails and undoes those before it; success is reported even when the journal could not be saved, and with it saved a Revert of the tree left succeeds |
| `BrowserPolicy.Disk.Revert` | internal/browserpolicy/browserpolicy.go:115-130 | rolls the journal back, and forgets it exactly when every entry could be undone; without a journal it changes nothing |

## Left out

- Socks5 write failures: a write always succeeds in the model; only reads may meet the end of the input.
- EndToEnd.Handle: the record's descriptive fields (source, reason, target text) and the DoH counter are left out.
- UdpRuns.RecordsAddUp: the tracker of this machine serves UDP flows only, and a flow's key carries the listener it arrived on.
- Capture.Split: the sorting of the two lists is not modelled, since they become sets.
- RewriteScan.WriteTwice: for parsers that recognise a top-level key by its line alone, and, where the file grows, whether or not the line has its newline; the YAML parser itself is not part of this model.
- Rewrite.PutGet: for any parser, takes the layout of the new file (keys at their moved lines) as given; RewriteScan derives it.
- QuicMeaning.NameIsRead: takes a flow with one version per connection ID, because the keys are cached by connection ID only.
- UdpRuns.BoundedAndUnique: time is abstract, so that idle timeouts, timers and the end of the context are steps that may happen at any moment; what network calls answer is free as well.
- Routes.RouteManager.Apply: the file's other fields (adapter, time) and its JSON text are not modelled; a saved set is read back as saved.
- BrowserPolicy.Disk.Revert: calls made while rolling back do not fail, nobody else edits the files in between, and a shared file is taken to hold a JSON object or no JSON at all (not the literal null).
- BrowserPolicy.Disk.Apply: the Windows registry and macOS defaults targets are not modelled; which files there are and the policy a target writes are parameters, except for the one key a shared file gets.
- Panel.PanelServer.SaveSection: parsing, validation, rule compilation, JSON and the hash are parameters; the hash is taken to be injective and rule compilation to depend on the JSON only. An edit by another program between the read and the rename is modelled and is overwritten, as the code does.
- Egress.Validate: covers names, kinds, members, relays and rule targets; the checks of addresses, DoH URLs, prefixes and the capture section are left out.
- Egress.Manager.Apply: starting, stopping and logging out nodes, tokens, health probes and status texts are left out; a slot's state is its exit node and resolver, a relay's its address and token source.
- Names.Lower: names are ASCII text; Unicode case folding, Unicode space and IDNA are left out.
- Addr.Addr: IPv6 zones are left out.
- Capture.Ruleset: a chain program instead of nft text; the transparent socket test, the route lookup of marked packets and NAT connection tracking are abstracted into packet fields and one redirect step.
- The outer-name fallback in selective scope: the theorems about selective capture take an empty outer name, because outer_sni rules need scope all.
- Cryptography of QUIC packets (AES-GCM, HKDF, header protection): one function from packet to payload or failure.
- The HTTP sniffer and the peeking reader of the TCP sniffer: thin wrappers over buffered input.
- DNS message packing, upstream forwarding, ECH stripping and the DoH client: library calls.
- Platform routers, system DNS, adapter discovery, services, the web panel's pages and other handlers, metrics and mobile bindings: plumbing.
