# Kapkan: packet filter, tree reconciler and console protocols, verified

This project models four parts of Kapkan and proves what each is for.

**The XDP packet filter** (`engine/bpf/kapkan_xdp.c`). One packet is one atomic
step of the class `Filter.XdpFilter`, whose fields are the BPF maps: config,
allow, protect and victim tries, static rules, policy blocks, profiles, the two
bucket maps, rule statistics, counters, fingerprint sampler and ring. Every
method is proved equal to a reference function (`Decode`, `Decision`), and the
properties are lemmas about those functions over every frame, every table and
every run.

- `Basics`, `Wire`, `Packet`, `Decode`, `Parser`: octets, the reference reader,
  and the in-place parser proved to report exactly what the reader says.
- `Layout`, `Written`, `Truncation`: frames as a sender writes them. Decoding
  undoes writing, every accepted frame is some written frame, each refusal has
  its exact cause, and a longer frame keeps what a shorter one said.
- `Matcher`: the XOR/mask accumulator is zero exactly when the rule's readable
  description holds, down to the bits of every prefix length.
- `TokenBucket`, `BucketLaws`, `Ceilings`, `Sources`: the two-ceiling Q32
  bucket; its bounds from above and from below, the exact conditions under which
  its laws hold, the bound lifted from one bucket to whole runs of the filter,
  and the independence of one source's limit from what others send.
- `Tables`, `Lookups`, `Decision`, `Filter`: longest-prefix tries and the policy
  array, what they mean in addresses, the scans, and the filter itself.
- `Precedence`, `Counters`, `Views`, `Agreement`, `Expiry`, `Observers`,
  `Fingerprint`, `Runs`: when a packet is dropped, what every counter counts,
  bank isolation, expiry, dry run, the observation plane and its copy ceiling,
  and the conservation of counters. A
  run is any list of packets; before each one userspace may have rewritten any
  table and added or removed rule counters.

**The tree reconciler** (`console/components.js`): `Dom` (the class `Node`),
`Sync`, `Shapes`, `Reconcile`. The index loops over live child and attribute
lists are proved, on the heap, to leave the parent showing the fresh tree on
the nodes that `Shapes.Morphed` names; lemmas about `Morphed` say which nodes
those are.

**The one-write-per-zone lever** (`console/views2.js`): `Lever` (transition
system), `LeverDesk` (the imperative form, in `Lever.dfy`). **The zone-history
reader** (`console/app.js`): `History`.

## Where the code and its own comments disagree

The model follows the code.

- The extension-header walk gives up once eight headers have been consumed,
  even when the ninth item is the TCP header; the comment says "more than
  eight" (`engine/bpf/kapkan_xdp.c:82`). `Written.OutcomesAreExact` has the
  exact condition.
- The clamp argument bounds the product `delta * q`, but the sum on line 1009
  can wrap: a full bucket with burst 2^32-1 and rate 1 is empty after 2^32 ns
  (`BucketLaws.FullLaneCanEmpty`). `WaitingNeverCostsIffRoomy` gives the exact
  condition: clamped rate plus clamped burst below 2^32. Upper bounds hold
  without it.
- A brand-new source is said to start with its whole burst, but the seed is
  `burst << 32` without a clamp, so a burst of 2^32 starts empty
  (`HugeBurstStartsEmpty`, `FreshLaneIsFullIff`).
- `PASS_FRAG_NOPORTS` is documented as "non-first fragment, no L4"; it also
  counts first fragments of protocols that have no ports (`NoPortsFragment`).
- The static scan stops after 256 kernel rules, while userspace sizes and fills
  the map with up to twice `max_static_rules` of them
  (`engine/internal/dataplane/limits.go:81-104`). `AllStaticsScannedIff` says
  when every installed rule is reached.
- An authentication header with a length octet above 64 is refused as
  malformed (`AuthRefused`), and an IPv6 header's version nibble is not looked
  at, unlike IPv4's.
- `snap_len` is documented as a 64-octet-granular prefix
  (`engine/bpf/include/kapkan_maps.h:702`); the copy is granular to the octet
  (`RecordCopies`).
- In the history reader the guard against overtaken answers never fires: no
  reachable state has an answer that is not the newest (`NoAnswerIsOvertaken`).

## Model

| member | source | states |
|---|---|---|
| Parser.Pull | engine/bpf/kapkan_xdp.c:282-293 | from any cursor, a read succeeds exactly when the whole field is inside the frame, and only then moves the cursor |
| Parser.FlagByteIsTheOctet | engine/bpf/kapkan_xdp.c:337-343 | reassembling the eight TCP flag bit-fields gives back the octet on the wire |
| Parser.ParseTcp | engine/bpf/kapkan_xdp.c:328-393 | ports, flag octet and ClientHello peek agree with the reference reader, and it fails exactly on a cut header |
| Parser.ParseUdp | engine/bpf/kapkan_xdp.c:394-438 | ports and QUIC Initial peek agree with the reference reader |
| Parser.ParseL4 | engine/bpf/kapkan_xdp.c:325-441 | the transport dispatch refines the reference reader for every protocol number |
| Parser.FillV4 | engine/bpf/kapkan_xdp.c:297-302 | both IPv4 addresses are left-aligned in the 16-octet slot with the rest zero |
| Parser.ParseV4 | engine/bpf/kapkan_xdp.c:482-526 | version, header length, options, fragment bits and transport agree with the reference IPv4 reader |
| Parser.PullHeader | engine/bpf/kapkan_xdp.c:555-635 | one pass of the extension-header walk reads, skips or refuses one header as the whole-size reader does |
| Parser.WalkExtHeaders | engine/bpf/kapkan_xdp.c:555-638 | the bounded cursor loop refines the unbounded recursive chain reader: capped exactly from eight consumed headers on, otherwise its end, protocol, offset and fragment mark |
| Parser.ParseV6 | engine/bpf/kapkan_xdp.c:528-644 | the IPv6 branch reports what the reference IPv6 reader says |
| Parser.Parse | engine/bpf/kapkan_xdp.c:450-647 | for every frame the in-place parser returns exactly the reference reader's verdict and packet |
| Layout.TcpReads | engine/bpf/kapkan_xdp.c:328-393 | reading a written TCP header recovers ports, flags and the ClientHello bit with its offset |
| Layout.StubReads | engine/bpf/kapkan_xdp.c:370-393 | a TCP header whose data offset points outside the frame still yields ports and flags, and never the ClientHello bit |
| Layout.UdpReads | engine/bpf/kapkan_xdp.c:394-438 | reading a written UDP header recovers ports and the QUIC Initial bit |
| Layout.TransportReads | engine/bpf/kapkan_xdp.c:325-441 | the same for every transport |
| Layout.ChainReads | engine/bpf/kapkan_xdp.c:528-643 | reading any written chain of extension headers passes every one of them and stops at the true upper-layer protocol and offset, or at the later fragment |
| Layout.V4Decodes | engine/bpf/kapkan_xdp.c:482-526 | a written IPv4 packet with any options decodes to its meaning |
| Layout.V6Decodes | engine/bpf/kapkan_xdp.c:528-644 | a written IPv6 packet decodes to its meaning, or trips the cap from eight headers on |
| Layout.LinkDecodes | engine/bpf/kapkan_xdp.c:460-480 | the network layer starts behind the addresses and at most one VLAN tag |
| Layout.DecodeUndoesEncode | engine/bpf/kapkan_xdp.c:325-647 | round trip: every frame written from the layouts decodes to exactly the addresses, protocol, ports, flags, fragment and handshake bits that were written |
| Layout.AuthRefused | engine/bpf/kapkan_xdp.c:576-594 | exactly which authentication headers are refused |
| Layout.NoPortsFragment | engine/bpf/kapkan_xdp.c:1561-1566 | exactly which packets the no-ports-fragment counter sees |
| Layout.ClientHelloLayout | engine/bpf/kapkan_xdp.c:346-391 | the ClientHello peek accepts exactly a TLS handshake record of major version 3 that opens with a message of type 1 |
| Layout.QuicInitialLayout | engine/bpf/kapkan_xdp.c:401-437 | the QUIC peek accepts exactly a version 1 long header of type Initial |
| Layout.TransportOctets | engine/bpf/kapkan_xdp.c:335-344 | the source port is the first two octets of the transport header and the destination port the next two, and the TCP flags its fourteenth |
| Layout.AddressOctets4 | engine/bpf/kapkan_xdp.c:507-515 | the source and destination of an understood IPv4 packet are its octets 12 to 15 and 16 to 19 |
| Layout.AddressOctets6 | engine/bpf/kapkan_xdp.c:534-540 | and those of an IPv6 packet its octets 8 to 23 and 24 to 39 |
| Wire.Be16Weighs | engine/bpf/kapkan_xdp.c:335-336 | two octets read in network order, the first weighing 256 times the second |
| Wire.LeftAligned | engine/bpf/kapkan_xdp.c:297-302 | an IPv4 address stands first in its slot and nothing follows it |
| Written.TransportWritten | engine/bpf/kapkan_xdp.c:325-441 | a transport header is readable if and only if the octets are some written transport header |
| Written.ChainWrittenIff | engine/bpf/kapkan_xdp.c:555-643 | a chain is read to its end in n headers if and only if the octets are some written chain of n headers |
| Written.PassesIff | engine/bpf/kapkan_xdp.c:555-638 | the walk consumes at least n headers if and only if the octets open with n whole headers |
| Written.AcceptedIsWritten | engine/bpf/kapkan_xdp.c:450-647 | every frame the parser accepts is some written frame with fewer than eight extension headers |
| Written.OutcomesAreExact | engine/bpf/kapkan_xdp.c:444-647 | each of the five parse outcomes if and only if its cause: understood, eight whole extension headers, a protocol other than IP, a second tag, and malformed exactly for the rest |
| Truncation.ChainKept | engine/bpf/kapkan_xdp.c:528-643 | appending octets keeps every header already passed and every chain already read to its end |
| Truncation.LongerFrameKeeps | engine/bpf/kapkan_xdp.c:282-441 | a frame understood stays understood with the same fields and at least the same handshake bits when octets are appended |
| Truncation.TruncationUnderMatches | engine/bpf/kapkan_xdp.c:795-879 | a rule that matches a truncated frame matches every longer form of it |
| Matcher.SwappedMask4 | engine/bpf/kapkan_xdp.c:678-688 | the byte-swapped shifted word masks the top bits in network order, at every length 0..32 |
| Matcher.SwappedMaskHi | engine/bpf/kapkan_xdp.c:697-719 | the same for the upper half of an IPv6 address, at every length 0..128 |
| Matcher.SwappedMaskLo | engine/bpf/kapkan_xdp.c:697-719 | the same for the lower half |
| Matcher.PfxV4 | engine/bpf/kapkan_xdp.c:678-688 | no mismatching bits if and only if the addresses agree on their first min(len, 32) bits |
| Matcher.PfxV6 | engine/bpf/kapkan_xdp.c:697-719 | no mismatching bits if and only if the addresses agree on their first min(len, 128) bits |
| Matcher.ShapeZero | engine/bpf/kapkan_xdp.c:812-836 | zero validity, family, fragment and handshake terms mean the packet has the rule's shape |
| Matcher.ShapeFitting | engine/bpf/kapkan_xdp.c:812-836 | and a packet of the rule's shape makes them zero |
| Matcher.FieldsZero | engine/bpf/kapkan_xdp.c:838-847 | zero protocol and port terms mean those fields fit, and a rule that names a port never fits a packet without ports |
| Matcher.FieldsFitting | engine/bpf/kapkan_xdp.c:838-847 | and fitting fields make them zero |
| Matcher.FlagsZero | engine/bpf/kapkan_xdp.c:849-856 | a zero flag term means no flag test, or a TCP packet with ports whose masked flags equal the rule's |
| Matcher.FlagsFitting | engine/bpf/kapkan_xdp.c:849-856 | and fitting flags make it zero |
| Matcher.PrefixesZero | engine/bpf/kapkan_xdp.c:858-876 | the prefix terms are zero if and only if each prefix is "any" or holds the packet's address |
| Matcher.MatchIsDescription | engine/bpf/kapkan_xdp.c:795-879 | the branchless accumulator is zero if and only if the readable rule description holds |
| TokenBucket.Refill | engine/bpf/kapkan_xdp.c:1000-1011 | the refill of one lane, with both clamps and the wrapping sum, refines the specification |
| TokenBucket.Spend | engine/bpf/kapkan_xdp.c:986-1041 | one call on a bucket returns and stores what the specification of both ceilings says, denying without spending |
| TokenBucket.RunSplits | engine/bpf/kapkan_xdp.c:927-1042 | a run may be cut anywhere into a prefix and a window |
| TokenBucket.CreditedIsElapsed | engine/bpf/kapkan_xdp.c:986-989 | over a non-decreasing clock the clamped deltas never exceed elapsed time |
| TokenBucket.RunSpends | engine/bpf/kapkan_xdp.c:986-1041 | over any run, what was admitted plus what is left never exceeds what was there plus what was credited, wrap or not |
| TokenBucket.WindowIsBounded | engine/bpf/kapkan_xdp.c:927-1042 | over any window admitted packets and bytes stay under clamped burst plus rate times credited time, for any clock |
| TokenBucket.WindowIsBoundedByTime | engine/bpf/kapkan_xdp.c:884-915 | hence under burst plus rate times elapsed time for a non-decreasing clock, in any window of any run |
| BucketLaws.WaitingNeverCostsIffRoomy | engine/bpf/kapkan_xdp.c:896-899 | waiting can never cost tokens if and only if clamped rate plus clamped burst is below 2^32 |
| BucketLaws.FullLaneCanEmpty | engine/bpf/kapkan_xdp.c:1009-1013 | concrete profile whose full bucket is emptied by waiting |
| BucketLaws.FirstPacket | engine/bpf/kapkan_xdp.c:945-947 | a new source's first packet is admitted if and only if the low halves of both bursts pay for it |
| BucketLaws.FreshLaneIsFullIff | engine/bpf/kapkan_xdp.c:945-955 | a new bucket starts with its whole burst if and only if the burst fits 32 bits, or its low half is all ones |
| BucketLaws.HugeBurstStartsEmpty | engine/bpf/kapkan_xdp.c:945-955 | concrete burst with which a new source is denied |
| BucketLaws.SteppingBackCredits | engine/bpf/kapkan_xdp.c:986-988 | a clock that steps back credits the whole 2^32 ns if and only if it steps back by at most 2^64 - 2^32 |
| BucketLaws.LookingIsFree | engine/bpf/kapkan_xdp.c:986-1024 | refilling at an intermediate time changes nothing that a later refill sees |
| BucketLaws.DeniedRunsAgree | engine/bpf/kapkan_xdp.c:994-1041 | the induction behind the next row, over two buckets at different times |
| BucketLaws.DeniedCallsCostNothing | engine/bpf/kapkan_xdp.c:994-1041 | deleting any set of denied calls leaves every other decision and the final tokens of both ceilings unchanged |
| BucketLaws.BurstIsSpentExactly | engine/bpf/kapkan_xdp.c:1000-1040 | calls that come all at once are all admitted if and only if the bucket holds 2^32 for each packet and for each octet of them together, and then leave exactly the rest in both lanes |
| BucketLaws.BooksBalance | engine/bpf/kapkan_xdp.c:986-1041 | over any run, while no cap cuts in, tokens left plus tokens spent on admitted packets equal tokens held plus tokens credited, in each lane |
| BucketLaws.EarnedIsAdmitted | engine/bpf/kapkan_xdp.c:1000-1037 | a call after a gap that earns it at both rates is admitted |
| BucketLaws.ConformingIsNeverLimited | engine/bpf/kapkan_xdp.c:1000-1037 | every call of an unbounded conforming run is admitted |
| BucketLaws.NewConformingSourceIsNeverLimited | engine/bpf/kapkan_xdp.c:945-1041 | the same from the source's first packet on |
| Tables.LookupIsLongest | engine/bpf/kapkan_xdp.c:1577-1593 | a trie lookup finds the longest stored prefix of the key, and misses only when no prefix is stored |
| Lookups.FoundIffCovered | engine/bpf/kapkan_xdp.c:1577-1593 | a lookup of an address finds something if and only if some stored prefix is the first bits, in wire order, of an address that agrees with it that far |
| Lookups.FoundIsLongestCover | engine/bpf/kapkan_xdp.c:1297-1308 | and it finds the value of the longest such prefix |
| Lookups.WholeOctets | engine/bpf/kapkan_xdp.c:1577-1588 | a prefix of whole octets covers exactly the addresses that begin with those octets |
| Lookups.VictimsBlock | engine/bpf/kapkan_xdp.c:1297-1329 | the rules an address leads to are the slots in use of the block at base plus id of the longest victim prefix that covers it, or a missing block past the array |
| Lookups.NoVictimIffUncovered | engine/bpf/kapkan_xdp.c:1309-1310 | an address leads to no policy if and only if no victim prefix covers it |
| Lookups.SlotsApart | engine/bpf/kapkan_xdp.c:1312 | different victim ids select different blocks, whether or not the index wraps |
| Filter.XdpFilter.Count | engine/bpf/include/kapkan_maps.h:759-767 | one counter gains one packet and the frame's length, no other counter changes |
| Filter.XdpFilter.Admit4 | engine/bpf/kapkan_xdp.c:957-1042 | the IPv4 bucket of the key is created on a miss, or not created at all, then refilled and spent; no other bucket changes except those evicted |
| Filter.XdpFilter.Admit6 | engine/bpf/kapkan_xdp.c:957-1042 | the same for IPv6 |
| Filter.XdpFilter.RlAdmit | engine/bpf/kapkan_xdp.c:927-1042 | the rate limiter with its missing profile, uncapped profile and refused bucket cases refines the specification |
| Filter.XdpFilter.CountForRule | engine/bpf/kapkan_xdp.c:1210-1246 | a rule's own statistics gain this packet |
| Filter.XdpFilter.ApplyRule | engine/bpf/kapkan_xdp.c:1210-1246 | a matched rule's decision, buckets, rule statistics and terminal counter |
| Filter.XdpFilter.ScanSlots | engine/bpf/kapkan_xdp.c:1322-1339 | the loop over a block decides as the first live matching rule says and counts each expired match before it |
| Filter.XdpFilter.ScanPolicyOf | engine/bpf/kapkan_xdp.c:1287-1340 | the lookup by longest prefix, the missing block and the block scan |
| Filter.XdpFilter.ScanStatics | engine/bpf/kapkan_xdp.c:1437-1463 | the bounded loop over the active generation's statics, with its out-of-range exit |
| Filter.XdpFilter.DecideRules | engine/bpf/kapkan_xdp.c:1397-1494 | statics, then the source's policy, then the destination's |
| Filter.XdpFilter.FpSample | engine/bpf/kapkan_xdp.c:1069-1101 | the copy sampler's decision and new state, closed when its map entry is missing |
| Filter.XdpFilter.FpEmit | engine/bpf/kapkan_xdp.c:1134-1179 | the copy loop fills the reserved record with the frame prefix, or counts a full ring |
| Filter.XdpFilter.ObserveHandshake | engine/bpf/kapkan_xdp.c:1645-1650 | sampled, throttled or full, on the observation fields alone |
| Filter.XdpFilter.IsAllowed | engine/bpf/kapkan_xdp.c:1577-1593 | source allowlist membership by family |
| Filter.XdpFilter.IsProtected | engine/bpf/kapkan_xdp.c:1609-1625 | destination protected-list membership by family |
| Filter.XdpFilter.CountUnparsed | engine/bpf/kapkan_xdp.c:1525-1554 | a frame that is not understood is dropped if and only if it is malformed and drop_malformed is set, and it moves exactly the counter of its parse outcome |
| Filter.XdpFilter.JudgePacket | engine/bpf/kapkan_xdp.c:1524-1660 | parse, lists, observation and rules in precedence order, before the dry-run rewrite |
| Filter.XdpFilter.Filter | engine/bpf/kapkan_xdp.c:1497-1661 | one whole packet: the verdict and the new value of every mutable map equal the reference step |
| Precedence.RulingPicks | engine/bpf/kapkan_xdp.c:15-24 | the layered scans pick the first live matching rule of statics, source block and destination block laid end to end |
| Precedence.ApplyDenies | engine/bpf/kapkan_xdp.c:1210-1246 | a matched rule drops if and only if it is a drop, or a rate limit whose existing bucket lacks tokens |
| Precedence.DropsExactlyWhen | engine/bpf/kapkan_xdp.c:1397-1661 | XDP_DROP if and only if config is present, dry run is off, and the frame is malformed with drop_malformed, or is neither allowlisted nor protected and the first live matching rule denies it |
| Precedence.AllowedIsCovered | engine/bpf/kapkan_xdp.c:1577-1593 | a source is allowlisted if and only if some stored prefix of its family covers its address, in bits and in wire order |
| Precedence.ProtectedIsCovered | engine/bpf/kapkan_xdp.c:1609-1625 | the same for a destination and the protected list |
| Precedence.StaticsAreSlots | engine/bpf/kapkan_xdp.c:1437-1463 | the rules the static scan sees are the map's consecutive slots of the active generation |
| Precedence.StaticsAreTheSlice | engine/bpf/kapkan_xdp.c:1437-1451 | where no index wraps, the scanned statics are exactly the first min(count, 256) slots of the active half |
| Precedence.AllStaticsScannedIff | engine/bpf/kapkan_xdp.c:1437-1447 | every installed static rule is scanned if and only if there are at most 256 kernel rules |
| Precedence.WrittenFrameDrops | engine/bpf/kapkan_xdp.c:1397-1661 | the drop condition for a written frame, read off its fields instead of its octets |
| Runs.BumpCounts | engine/bpf/include/kapkan_maps.h:759-767 | a trace of bumps adds to each counter as often as it is named |
| Runs.StepHasOneTerminal | engine/bpf/include/kapkan_maps.h:407-440 | every packet bumps exactly one terminal counter |
| Runs.CountersConserve | engine/bpf/include/kapkan_maps.h:407-440 | over any run terminal packets sum to packets seen and terminal bytes to frame lengths |
| Counters.TerminalNamesTheCause | engine/bpf/include/kapkan_maps.h:441-475 | each terminal counter moves, once, if and only if it names what became of the packet: its parse outcome, its list, or the level and action of the first rule in force |
| Counters.ObservationsAreExact | engine/bpf/kapkan_xdp.c:1561-1566 | the fragment counter moves exactly for an understood fragment without ports, and the scan's counters exactly as the scans count, for packets that reach the rules |
| Counters.ScansCount | engine/bpf/kapkan_xdp.c:1314-1336 | the expired-match counter moves once for each candidate that describes the packet before the deciding one, and the missing-block counter once for each missing block the scans get as far as |
| Counters.RuleCounterIsExact | engine/bpf/kapkan_xdp.c:1217-1224 | a rule's own counter gains the packet and its octets if and only if that rule decides it, and no entry comes or goes |
| Counters.RuleCountersConserve | engine/bpf/kapkan_xdp.c:1217-1224 | over any run a rule counter that userspace leaves alone counts exactly the packets and octets its rule decided |
| Counters.UnengagedIsUntouched | engine/bpf/kapkan_xdp.c:1518-1625 | a packet that does not reach the rules leaves every bucket, rule counter, sampler and ring as they were |
| Views.JudgeSameView | engine/bpf/kapkan_xdp.c:1507-1514 | tables that show the active generation alike decide alike |
| Views.BanksAreIsolated | engine/bpf/kapkan_xdp.c:1312-1313 | any rewrite of the other generation's statics and blocks, or of statics past the scan, leaves the whole step unchanged |
| Expiry.StepAlike | engine/bpf/kapkan_xdp.c:1397-1661 | tables that rule alike lead to the same verdict and maps, and the same bumps outside the counters that may differ |
| Expiry.ClearedRuling | engine/bpf/kapkan_xdp.c:1322-1339 | clearing every expired slot leaves the deciding rule and level as they were |
| Expiry.ExpiredIsAbsent | engine/bpf/kapkan_xdp.c:1248-1263 | clearing every expired rule from the statics and all blocks changes neither verdict, buckets, rule statistics nor any counter but the one of expired matches |
| Expiry.PurgingChangesNothing | engine/bpf/kapkan_xdp.c:1248-1263 | the same over any run, with the purge before every packet |
| Expiry.DeadlinesLeaveStatics | engine/bpf/kapkan_xdp.c:1253-1257 | a run in which every rule that a victim entry leads to, among the slots in use of the active generation, is invalid or past its deadline has the verdicts, buckets and verdict counters of the statics alone |
| Observers.JudgeIgnoresDry | engine/bpf/kapkan_xdp.c:1342-1349 | nothing before the final rewrite depends on dry run |
| Observers.DryStep | engine/bpf/kapkan_xdp.c:1350-1361 | a dry step passes, and its trace is the live one plus a would-drop exactly where the live step drops |
| Observers.DryRunMirrorsLive | engine/bpf/kapkan_xdp.c:1342-1361 | over any run dry and live agree on buckets, rule statistics, ring and every other counter, and the would-drop count is the number and size of the live drops |
| Fingerprint.PlaneIsPureObservation | engine/bpf/kapkan_xdp.c:1632-1650 | over any run, plane on and off agree on every verdict, bucket, rule statistic and other counter |
| Fingerprint.RecordCopies | engine/bpf/kapkan_xdp.c:1134-1179 | a record holds the packet's own addresses, ports, family, protocol, axis, length and payload offset, and exactly the first min(length, 1536) octets of the frame, for any previous slot content |
| Fingerprint.HandshakeIsThere | engine/bpf/kapkan_xdp.c:370-437 | at the recorded payload offset a ClientHello or a QUIC Initial does begin, and never both |
| Fingerprint.StepPlane | engine/bpf/kapkan_xdp.c:1640-1650 | a packet is counted once by the plane if it is a recognised handshake that reaches it with the plane on, otherwise not at all, and is copied to the ring if and only if the sampler lets it through and the ring has room |
| Fingerprint.PlaneAccounts | engine/bpf/kapkan_xdp.c:1640-1650 | over any run emitted, throttled and full add up to the handshakes offered, and every new record is that of a handshake offered in the run |
| Fingerprint.CopiesAreAdmissions | engine/bpf/kapkan_xdp.c:1069-1101 | over any run under fixed sampler settings the copies begun are exactly the handshakes that a one-lane token bucket admits, and none without a sampler |
| Fingerprint.CopyVolumeIsCapped | engine/bpf/kapkan_xdp.c:1052-1067 | hence copies begun stay under the clamped burst plus the clamped rate times credited time, and times elapsed time on a clock that does not step back, however many packets arrive |
| Ceilings.LimitMoves | engine/bpf/kapkan_xdp.c:927-1042 | a rate-limit call moves the bucket of its own key, making it first if the map takes it and admitting if not, and leaves every other bucket that is not evicted |
| Ceilings.LimitEvictsOnlyToInsert | engine/bpf/kapkan_xdp.c:957-984 | a call on a bucket that is there evicts none, and no call touches the other family's buckets |
| Ceilings.StepMoves | engine/bpf/kapkan_xdp.c:1397-1661 | a whole filter step is a bucket call exactly when its deciding rule names that bucket, and otherwise leaves it |
| Ceilings.BucketSeesItsRun | engine/bpf/kapkan_xdp.c:927-1661 | over any filter run a bucket that is not evicted and keeps its profile, present at the start or made by its first call, holds what its own sequence of calls leaves and decides as they do |
| Ceilings.SourceStaysUnderCeiling | engine/bpf/kapkan_xdp.c:884-915 | in any filter run, as long as the bucket is not evicted, its profile stays as it is and, if it is new, its insertion succeeds, the packets and bytes admitted for one anchor, source and profile stay under burst plus rate times elapsed time, the first packet included |
| Sources.SharedBucketIff | engine/bpf/kapkan_xdp.c:957-978 | two packets of one family share a bucket if and only if source address, anchor and profile are all equal |
| Sources.ChargedBucket | engine/bpf/kapkan_xdp.c:1460-1489 | a rate-limited packet is charged to the bucket of its own source, anchored on its source under a source rule and on its destination otherwise |
| Sources.EitherLaneIsEnforced | engine/bpf/kapkan_xdp.c:942-1030 | a profile that caps either lane is enforced: an existing bucket that cannot pay in that lane drops the packet |
| Sources.OthersLeaveBuckets | engine/bpf/kapkan_xdp.c:927-978 | a whole filter step for a packet of another source leaves every bucket of this one as it was, unless evicted |
| Sources.FloodChangesNothing | engine/bpf/kapkan_xdp.c:1479-1485 | after any run of packets from other sources, under whatever rules, this source's next packet gets the verdict it would have got without them, as long as its buckets are not evicted |
| Dom.Node.SetAttribute | console/components.js:59 | sets one attribute and keeps every other |
| Dom.Node.RemoveAttributeAt | console/components.js:65 | removes one attribute and keeps every other, in order |
| Dom.Node.SetProperty | console/components.js:74 | sets one declaration, keeps every other, and makes the style attribute appear |
| Dom.Node.RemovePropertyAt | console/components.js:73 | removes one declaration and keeps the rest, in order |
| Sync.SyncStyle | console/components.js:70-75 | afterwards both elements have the same set of declarations |
| Sync.CopyAttrs | console/components.js:51-60 | every fresh attribute is present with its value |
| Sync.PruneAttrs | console/components.js:61-66 | the downward deletion from the live list removes exactly the attributes the fresh element lacks |
| Sync.SyncAttrs | console/components.js:49-67 | afterwards non-style attributes and style declarations are those of the fresh element |
| Sync.SyncHandlers | console/components.js:81-82 | afterwards every handler property is the fresh one |
| Sync.LabelIsWhatIsRead | console/components.js:49-82 | two nodes carry the same label if and only if nothing that can be read off them differs: type, names, text, each attribute but the style text, each style property with its priority, each handler |
| Shapes.MorphedIsProper | console/components.js:76-97 | no node occurs twice in the resulting tree, and it uses only nodes of the two trees |
| Shapes.KeptNode | console/components.js:76-79 | a morph keeps the old node if and only if both are text, or both are elements of the same tag and namespace; otherwise the fresh tree takes its place whole |
| Shapes.IdentityIsKept | console/components.js:76-97 | each position holds the old node if the kinds agree along its whole path, and the fresh one otherwise |
| Shapes.PositionsAreKept | console/components.js:98-108 | the same under a reconciled parent, list position included |
| Shapes.SameKindsKeepAll | console/components.js:76-97 | the old tree keeps all its nodes if and only if both trees have the same kinds and child counts throughout |
| Reconcile.AppendChild | console/components.js:92 | a node is moved to the end of the live child list, and its former parent keeps its other children in order |
| Reconcile.ReplaceChild | console/components.js:94 | a node takes the place of a child, and its former parent keeps its other children in order |
| Reconcile.RemoveLast | console/components.js:96 | the last child goes |
| Reconcile.WithoutCutsOnce | console/components.js:92-94 | a node that moves is cut out of its former list where it first stands, and the others keep their order |
| Reconcile.MorphNode | console/components.js:76-86 | the returned node's tree has the shape `Morphed` names and shows the fresh tree; both parents are left alone |
| Reconcile.SyncElement | console/components.js:80-82 | an element of the same kind takes the fresh one's attributes, style and handlers |
| Reconcile.ReconcileStep | console/components.js:90-95 | one index of the loop, over live child lists that shrink as nodes move out |
| Reconcile.TrimChildren | console/components.js:96 | the surplus children go and the rest keep their trees |
| Reconcile.ReconcileList | console/components.js:87-97 | the child loop leaves exactly the fresh trees, in order, on the nodes `MorphedAll` names |
| Reconcile.FlattenNodes | console/components.js:44-48 | nested lists flatten to their leaves in order: each built tree itself, on its own nodes, and one new text node for each text |
| Reconcile.FlatListStands | console/components.js:44-48 | a flat list is its own flattening and nothing leaves nothing |
| Reconcile.NestingIsFlattened | console/components.js:44-48 | putting a part of a list in a list of its own makes no difference |
| Reconcile.ReconcileInto | console/components.js:98-108 | the whole procedure ends with a tree in which no node occurs twice, whose children are the old ones morphed with the leaves handed over and show exactly those, the parent's own label unchanged |
| Reconcile.WhichNodeWhere | console/components.js:76-108 | afterwards each position below the parent holds its old node if the kinds agree along the whole path, and otherwise the very node the view built for it, or the new text node |
| Reconcile.RerenderKeepsAll | console/components.js:98-108 | a re-render keeps every node of the page if and only if what it hands over has the kinds that are there, all the way down |
| Lever.StepKeeps | console/views2.js:1234-1294 | every event keeps the protocol's invariant |
| Lever.AlwaysGood | console/views2.js:1234-1294 | and so does every run |
| Lever.ReachableIsGood | console/views2.js:1271-1294 | in every reachable state a zone has at most one write out, and a dialog is busy if and only if it owns or waits on its zone's write |
| Lever.AnswerReleases | console/views2.js:1250-1291 | an answer frees its owner and every waiter, each once and nobody else, closes only the asking panel and only on success, is reported exactly once, and a refusal is noted only by the dialog that asked, in its own panel |
| Lever.SubmitMoves | console/views2.js:1271-1293 | in every reachable state confirming an idle dialog makes it busy and forgets its old refusal, and sends exactly one write in its name if none is out for its zone; otherwise it joins the end of the queue and nothing is sent |
| Lever.SubmitTwiceIsOnce | console/views2.js:1272 | confirming again while busy does nothing |
| Lever.OpenShows | console/views2.js:1244-1248 | opening adds an idle dialog on a panel of its own and touches nothing else |
| Lever.AnswersFreeEverybody | console/views2.js:1286-1291 | once every write that is out is answered, well or badly, no zone is taken and no dialog is busy |
| Lever.WritesBalance | console/views2.js:1234-1291 | over any run, writes sent for a zone exceed answers by exactly the one in flight |
| LeverDesk.Desk.OpenDialog | console/views2.js:1244-1248 | opening a dialog is the protocol's open event |
| LeverDesk.Desk.Close | console/components.js:515-524 | dismissing the panel is the protocol's dismiss event |
| LeverDesk.Desk.SubmitDialog | console/views2.js:1271-1285 | confirming is the protocol's submit event |
| LeverDesk.Desk.Finish | console/views2.js:1250-1270 | the owner's part of an answer |
| LeverDesk.Desk.Done | console/views2.js:1286-1291 | the callback with its waiter loop is the protocol's answer event |
| History.HistoryCard.Load | console/app.js:447-463 | a read starts exactly when the protocol's load step starts one |
| History.HistoryCard.RenderView | console/app.js:447-452 | a render is the protocol's render step |
| History.HistoryCard.ToggleZone | console/app.js:424-436 | a click on a zone row is the protocol's toggle event |
| History.HistoryCard.ChooseRange | console/app.js:437-442 | a range switch is the protocol's range event |
| History.HistoryCard.Resolve | console/app.js:463-478 | a late answer is the protocol's answer event |
| History.StepKeeps | console/app.js:424-479 | every event keeps at most one read in flight and every caption honest |
| History.CardIsHonest | console/app.js:443-446 | in every interleaving at most one read is in flight, and fetched points and sources of an open zone come from one read issued for that zone and range |
| History.RenderReads | console/app.js:447-455 | in every reachable state a render that reaches the card issues a read for the zone and range on show if and only if a zone is open, no read is out, and nothing on show was fetched in the last ten seconds |
| History.ClickCloses | console/app.js:424-426 | a click on the open zone closes it and asks for nothing |
| History.ClickOpens | console/app.js:427-436 | a click on another zone opens it blank, and reads for it unless a read is still out |
| History.SwitchReads | console/app.js:437-442 | a switch of range drops what was fetched, and reads for the new one unless a read is still out |
| History.AnswerMoves | console/app.js:463-478 | an answer is shown, points and sources together, if and only if it is for the selection on show; otherwise nothing of it is shown and the new selection's own read starts |
| History.NoAnswerIsOvertaken | console/app.js:465-469 | every reachable answer belongs to the newest read, so it always releases the guard |
| History.KeyNamesSelection | console/app.js:451-452 | two selections share a cache key only if they are the same zone and range |

## Left out

- Races between CPUs on buckets and counters, which the code itself calls approximations: a packet is one atomic step and per-CPU counters are one counter. No claim is made about a config rewritten in the middle of a packet.
- Counter width: counters are unbounded naturals, so the wrap of a 64-bit counter is not modelled. Bucket arithmetic is modelled with its 64-bit wrap.
- Frames of 2^32 octets or more, which XDP's 32-bit data offsets cannot describe.
- Kernel map internals: tries are maps from bit strings, arrays are sequences, and whether an LRU insert succeeds, what it evicts, and what a ring reservation returns are parameters of each packet.
- Program loading, verifier cost, inlining, the BTF anchor and the alignment assertions.
- The Go engine: detection, ban lifecycle, and the writer that fills the maps. Bank isolation takes its layout promises as a premise, and of the rule counters only their creation at zero and their removal are modelled.
- Fingerprint computation (JA4, SNI) over emitted records. The sampler is that of one CPU; the ceiling of the whole machine is its bound once for each CPU.
- The reconciler's treatment of live input values, caret, focus and scroll; CSS shorthand expansion and empty custom properties (a declaration is a property, a value and a priority, and a listed one counts as set); the text of the style attribute. Equality of `cssText` is equality of declaration lists.
- Nodes handed to the reconciler are taken to be unattached and unshared, as freshly built ones are.
- Reconcile.ReconcileList: the two identical child loops of `reconcile` and `reconcileChildren` are one method.
- The lever's mode, duration, reason and wording, and the refresh that follows a write.
- The history card's response fields other than points and sources; whether a render reaches the card is part of the event.
- Rendering, locale catalogues, icons, fetch and authentication, and the rest of the console and site.
