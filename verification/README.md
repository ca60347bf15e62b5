# Verified models of QUIC Diver's stateful cores

QUIC Diver tunnels a client's traffic to a small mesh of nodes. This project models, in Dafny, the
parts whose correctness rests on state, on arithmetic or on several machines, and proves what they
are for:

* the DNS **answer cache**: least-recently-used with expiry (`DnsCache`);
* **who is master**: epochs spread by heartbeats and database snapshots, and how many masters
  write (`Cluster`, `Writers`);
* the **packet arithmetic** of the client's address translation and of the MSS clamp (`Checksum`,
  `Nat`, `ClampMss`, `MssOptions`);
* the **capture filter**, the text it is handed over as, and the guard behind it (`AddrBits`,
  `CaptureFilter`, `FilterText`, `Guard`, `LocalNetworks`);
* the **address pools**: fake addresses for domains and for IPv6 hosts, and tunnel addresses
  (`CircularAlloc`, `FakeIp`, `Nat46`, `AddressPool`);
* the **choice of a node and the way through the mesh** (`Balancer`,
  `Measurements`, `Routing`, `Mesh`);
* the timed machines: the public page's **request limiter**, the **path supervisor** and **traffic
  quotas** (`Limiter`, `PathWatch`, `Quota`).

`Basics` and `GoStrings` hold what several of them share.

Where the source changes fields or arrays in place, the model is a class or a method over an array,
with loops where the source has loops; its contract equates the new state with a pure step
function, and the theorems are about runs of that function. The clock, message delivery, registries
and whatever a peer answers are parameters. Operations under a mutex are one step, with one clock
reading. `dafny verify dfyconfig.toml` checks everything.

## What came out differently from what the source says

Each of these is a lemma with the input that shows it, next to the exact condition under which the
promise does hold.

* **Epochs.** "A higher epoch, so never two masters" needs more than promoting where the highest
  epoch is: a replica is installed at epoch 1 while an undeclared master is at 0, so the very first
  promotion must also name the master the installations name (`Cluster.FirstPromotionMustNameRoot`).
  Promoting where some node lags splits an epoch (`Cluster.LaggingPromotionSplits`), and looking at
  the stored rows alone is enough only while no pull is overtaken (`Cluster.OneMasterByRows`,
  `Cluster.RowsAreNotEnough`). A promotion must also name somebody: `PUT` of the cluster endpoint
  promotes whoever is stored, which on an undeclared master is nobody
  (`Cluster.NamelessPromotionSplits`). What suffices, over every run, is in
  `Cluster.OneMasterPerEpoch`; the exact one-step condition in `Cluster.KeepsAgreementIff`.
* **An old master goes on writing.** A promotion that meets all of that can leave two nodes that
  each believe they are master, and they stay so over every later run in which nobody steps in:
  neither heartbeat nor snapshot ever reaches the old one (`Cluster.TwoWritersRemain`,
  `Cluster.MasterNeverHears`). A master stops only by being promoted away from, or installed while
  undeclared (`Writers.StopsIff`). So there is one declared master, over every run without
  overtaken pulls, when promotions are made at the declared master
  (`Writers.PromotingAtTheMasterSuffices`). Exactly: a promotion where the highest row is leaves one
  writer in everything that can follow if and only if it is made at the writer or names it
  (`Writers.OneWriterIff`, and for every run `Writers.OneWriterAfterRunIff`).
* **A pull can lower an epoch** when a heartbeat lands between its check and its swap
  (`Cluster.OvertakenPullLowersEpoch`, a run from fresh nodes). Before the snapshot arrives it is
  ruled out exactly when the node's epoch has not risen since the pull began, or the node was master
  then (`Cluster.SwapIsSafeIff`; as a condition on the step `Cluster.EpochFallsIff`).
* **The MSS clamp corrupts a segment** whose MSS value starts at an odd offset, unless the excess
  over the limit adds up to a multiple of 257 (`ClampMss.OddOffsetBreaksChecksum`,
  `ClampMss.ClampKeepsVerifying`).
* **The IPv6 table forgets a live host**: reclaiming a stale fake of a host drops the reverse entry
  of its newer one, and the host can then be refused (`Nat46.LiveHostRefused`; exact conditions:
  `Nat46.SameFakeIff` for a step, `Nat46.SameFakeAfterNewcomersIff` for a run).
* **The domain pool cuts off a reverse path** when two domains share a real address
  (`FakeIp.SharedAddressCutOff`; exact conditions: `FakeIp.ReverseKeptIff` for a step,
  `FakeIp.RunKeepsReverseIff` for a run).
* **The circular cursor leaves the pool** exactly when the pool ends at 255.255.255.255 without
  being all of IPv4 (`CircularAlloc.ClosedIff`); a pool of the last two addresses then gives out
  0.0.0.0 (`FakeIp.CursorLeavesThePool`).
* **A flow for a tag carried by two healthy nodes never gets out.** A node never picks itself, so
  the flow is passed between carriers until its hops run out, and is refused
  (`Mesh.TwoCarriersRefuse`; exact conditions: `Mesh.TaggedExitIff` for a node,
  `Mesh.TaggedFlowExitsIff` for a whole flow).
* **The balancer counts picks, not measurements.** Three picks at one instant switch on a single
  measurement (`Measurements.OneSampleSwitches`). A switch rests on three different ones if and only if
  the node was measured between each two of the three picks (`Measurements.SwitchMeasurementsIff`), and
  so always does where every pick comes after new measurements (`Measurements.FedSwitchesAreMeasured`).
* **A shortened quota period** does not take effect until the old reset moment has passed
  (`Quota.ShortenedPeriodWaits`; exactly when: `Quota.ResetIsAhead`; `Quota.ToldWithinAPeriod` is
  what holds while the length is left alone).

## Model

| member | source | states |
|---|---|---|
| `DnsCache.RunFits` | internal/server/dns/cache.go:65-86 | after any history keys are unique and no more than `max` entries are held |
| `DnsCache.InclusionStep` | internal/server/dns/cache.go:39-112 | one operation on a cache and on one a single entry larger keeps the smaller list equal to the larger but for at most one entry, order and bytes included |
| `DnsCache.Inclusion` | internal/server/dns/cache.go:39-112 | the same over every history |
| `DnsCache.BiggerNeverHitsLess` | internal/server/dns/cache.go:39-112 | whatever a cache answers, every larger cache with the same history and clock answers with the same bytes |
| `DnsCache.EntryIsLatestPut` | internal/server/dns/cache.go:65-112 | an entry held is its key's latest storing Put, not flushed or evicted since |
| `DnsCache.UndisturbedStays` | internal/server/dns/cache.go:65-112 | with a clock that does not go back, a key unexpired and undisturbed since its latest Put is still held |
| `DnsCache.HitIff` | internal/server/dns/cache.go:38-63 | a Get is answered with given bytes if and only if they are those of the key's latest Put, unexpired, with no flush or eviction since |
| `DnsCache.RunByLastUse` | internal/server/dns/cache.go:39-86 | the list is always in order of last use, a use being a storing Put or an answered Get |
| `DnsCache.EvictsLeastRecentlyUsed` | internal/server/dns/cache.go:82-85 | the evicted key was used longer ago than every other one held, and is the only one that goes |
| `DnsCache.EvictionTakesOthers` | internal/server/dns/cache.go:82-85 | between a key's last use and its eviction at least `max` distinct other keys were asked for or stored |
| `DnsCache.FewOthersLeaveIt` | internal/server/dns/cache.go:39-112 | from the history alone: an unexpired answer is given while nobody flushed everything and fewer than `max` distinct other keys were asked for or stored since its Put |
| `DnsCache.FlushDropsTheExpired` | internal/server/dns/cache.go:88-102 | after any history, an entry is held behind a soft flush if and only if it was held before and has not expired |
| `DnsCache.GetDropsTheExpired` | internal/server/dns/cache.go:51-54 | after any history, a Get takes the entry of its key out if and only if it is past its expiry, and no other entry |
| `DnsCache.Cache.Get` | internal/server/dns/cache.go:39-62 | list and map stay coherent; answer, new list and hit counters are the specification's; an expired entry is dropped, a used one moved to the front |
| `DnsCache.Cache.Put` | internal/server/dns/cache.go:65-86 | likewise: a known key is overwritten in place and moved, a new one pushed and the back evicted |
| `DnsCache.Cache.FlushExpired` | internal/server/dns/cache.go:88-102 | an entry stays if and only if it was held and has not expired, the order stays, and the number gone is returned |
| `DnsCache.Cache.FlushAll` | internal/server/dns/cache.go:105-112 | empties list and map and counts what was there |
| `DnsCache.Cache.RemoveElement` | internal/server/dns/cache.go:121-124 | takes one element out of list and map together |
| `Cluster.Node.Promote` | internal/server/db/cluster.go:48-63 | the stored epoch goes up by one and names the target |
| `Cluster.Node.AdoptCluster` | internal/server/db/cluster.go:69-86 | taken if and only if the epoch is strictly higher, otherwise the row stays |
| `Cluster.Node.BootstrapMaster` | internal/server/db/cluster.go:97-114 | names the master at epoch 1, exactly when the epoch was 0 |
| `Cluster.Node.Beat` | internal/server/heartbeat.go:154-210 | the adopting end of a heartbeat: never on a master, only a named master of a higher epoch |
| `Cluster.Node.FinishPull` | internal/server/replica.go:173-236 | the snapshot replaces the row if and only if this is no master and the header's epoch is not below the one read before |
| `Cluster.PullTakesIff` | internal/server/replica.go:173-234 | in any network the row becomes the copy if and only if the row the pull began with names some other node and the header's epoch is not below it; no other row changes |
| `Cluster.BeatTakesIff` | internal/server/heartbeat.go:154-210 | the row becomes the reply if and only if the heartbeat began under another master and the reply names one, at an epoch above both rows |
| `Cluster.CopyIsOfSending` | internal/server/replica.go:53-82 | a promotion between header and copy leaves a header of the old epoch, naming the answering node when nobody was declared, over a body of the new one |
| `Cluster.EpochFallsIff` | internal/server/replica.go:208-236 | a step lowers some node's epoch if and only if it is a pull whose accepted copy is older than the row it replaces |
| `Cluster.SwapIsSafeIff` | internal/server/replica.go:173-234 | before the snapshot arrives: no copy at all can lower the node's epoch at the swap if and only if the node was master when the pull began or its epoch has not risen since |
| `Cluster.StepKeepsEpochs` | internal/server/replica.go:53-82 | a step keeps every epoch and keeps headers at or below the copies sent with them, if no change overtakes a pull |
| `Cluster.EpochsNeverFall` | internal/server/db/cluster.go:65-86 | over any run in which pulls are not overtaken, no node's epoch falls, whatever is lost, repeated or delayed |
| `Cluster.OneMasterPerEpoch` | internal/server/db/cluster.go:44-63 | from a fresh network, over every run, overtaken pulls included: any two rows, replies, headers or snapshots of one epoch name one master, if each promotion names somebody and happens where the highest epoch named anywhere is, and epoch 1 names the root |
| `Cluster.StepOnTop` | internal/server/db/cluster.go:48-114 | the invariant behind it: one such step keeps the agreement, epoch 1 naming the root and every epoch naming somebody |
| `Cluster.OneMasterByRows` | internal/server/db/cluster.go:48-63 | promoting where no stored row is higher suffices too, for runs in which no pull is overtaken by another change of its node |
| `Cluster.RowsAreNotEnough` | internal/server/replica.go:173-234 | and not for others: a run in which a pull undoes a promotion already announced, so that the next one names a second master |
| `Cluster.KeepsAgreementIff` | internal/server/db/cluster.go:48-114 | without any condition: a step keeps that agreement if and only if the name it brings does not clash with one already there for its epoch |
| `Cluster.LaggingPromotionSplits` | internal/server/db/cluster.go:48-63 | promoting on a node that lags names two masters for one epoch |
| `Cluster.FirstPromotionMustNameRoot` | internal/server/db/cluster.go:97-114 | promoting at the highest epoch and installing with one master still names two masters for epoch 1 |
| `Cluster.NamelessPromotionSplits` | internal/server/admin_cluster.go:95-110 | promoting nobody makes the next snapshot's header name the answering node and its body nobody |
| `Cluster.TwoWriters` | internal/server/db/cluster.go:44-47 | in any network, installing one node and promoting it meets every condition above and leaves it and its master believing they are master |
| `Cluster.TwoWritersRemain` | internal/server/heartbeat.go:154-165 | and they believe so after every later run in which nobody promotes or installs on the two |
| `Cluster.MasterNeverHears` | internal/server/replica.go:173-179 | over any run, a node that believes it is master, declared or not, keeps its row while nobody promotes on it or installs it, whatever replies and snapshots it is sent |
| `Writers.StopsIff` | internal/server/db/cluster.go:116-122 | a node that believes it is master stops believing it if and only if the event promotes another node at it, or installs it, undeclared, with another master |
| `Writers.SucceededStep` | internal/server/db/cluster.go:44-63 | the invariant: every master but the last one issued stores an epoch above its own, as long as promotions are made at the master or confirm it |
| `Writers.OneWriterOverRuns` | internal/server/db/cluster.go:44-47 | from fresh nodes, over every such run without overtaken pulls, never two declared masters |
| `Writers.PromotingAtTheMasterSuffices` | internal/server/admin_cluster.go:20-36 | once the root has declared itself, promoting only at the declared master, with no knowledge of other nodes, keeps it at one over every such run |
| `Writers.StrangerSplits` | internal/server/admin_cluster.go:60-90 | with a writer elsewhere, a promotion at and of other nodes ends in two writers: at once, or when the promoted one hears of it |
| `Writers.OneWriterIff` | internal/server/db/cluster.go:44-47 | a promotion where the highest row is keeps one writer in everything that can follow under the rules if and only if it is made at the writer or names it |
| `Writers.OneWriterAfterRunIff` | internal/server/db/cluster.go:44-47 | the same wherever a run from fresh nodes under the rules has come to |
| `Cluster.OvertakenPullLowersEpoch` | internal/server/replica.go:173-234 | a run from fresh nodes, every promotion on top, in which a heartbeat between check and swap makes an epoch fall from 2 to 1 |
| `Checksum.FoldCarries` | internal/client/nat/nat.go:203-205 | the fold loop ends in the 16-bit representative modulo 65535, and nothing overflows |
| `Checksum.CsumUpdate` | internal/client/nat/nat.go:197-207 | the loop computes the closed form of the incremental update and no sum leaves uint32 |
| `Checksum.UpdateIsRecomputation` | internal/client/nat/nat.go:196-207 | updating the computed checksum gives the checksum computed from scratch over the replaced words |
| `Checksum.UpdateKeepsVerdict` | internal/client/nat/nat.go:196-207 | a checksum that verified still does and a wrong one stays wrong, also when 0 is sent as 0xFFFF |
| `Nat.FixHeaderValid` | internal/client/nat/nat.go:142-156 | the recomputed IPv4 header sums to 0xFFFF and nothing but its checksum changes |
| `Nat.FixL4KeepsVerdict` | internal/client/nat/nat.go:158-194 | settling the field after any change under the checksum keeps the verdict, and a UDP checksum left out stays out |
| `Nat.ReplaceKeepsVerdict` | internal/client/nat/nat.go:159-194 | replacing an address of the pseudo-header keeps the transport verdict |
| `Nat.TranslateV4Correct` | internal/client/nat/nat.go:74-93 | for IPv4 of any protocol: the address is in place, the header sums to 0xFFFF, nothing but address, header sum and transport checksum changes, and where there is a transport checksum its verdict is kept |
| `Nat.TranslateV6Correct` | internal/client/nat/nat.go:95-113 | the same for IPv6 of any next header, and a UDP checksum is never sent as zero |
| `Nat.RewriteBothCorrect` | internal/client/nat/nat.go:118-139 | the same as for IPv4 above, for one or both addresses given |
| `Nat.ChecksummedIff` | internal/client/nat/nat.go:170-183 | a packet has a verdict to keep if and only if it is TCP, UDP or ICMPv6 with the checksum field, at 16, 6 or 2 behind the header, inside the datagram |
| `Nat.TranslateV4Changes` | internal/client/nat/nat.go:74-93 | an octet that translation changes is one of the address, 10 or 11 of the header, or 16-17 (TCP), 6-7 (UDP), 2-3 (ICMPv6) of the transport header |
| `Nat.TranslateV6Changes` | internal/client/nat/nat.go:95-113 | the same for IPv6: the address, and those octets behind octet 40 |
| `Nat.RewriteBothChanges` | internal/client/nat/nat.go:118-139 | the same for both addresses at once; what is not IPv4 stays |
| `Nat.FixIPv4Header` | internal/client/nat/nat.go:142-156 | the loop over the header words computes that header in place |
| `Nat.FixL4InPlace` | internal/client/nat/nat.go:159-194 | in place the specified field and value; that the field is where each protocol has it is the rows on octets above |
| `Nat.RewriteV4` | internal/client/nat/nat.go:118-139 | in place: the rewrite the theorem above is about; anything else than IPv4 of 20 octets is left alone |
| `Nat.NAT.constructor` | internal/client/nat/nat.go:32-55 | per family the first real and the first assigned address, and only with both |
| `Nat.FirstIsFirst` | internal/client/nat/nat.go:45-55 | of a list the first address of a family is the one taken |
| `Nat.NAT.AppliedCorrect` | internal/client/nat/nat.go:56-113 | for every packet and either direction: an IPv4 packet that holds its own header and is changed has a valid header afterwards, and a transport checksum, where there is one, verifies afterwards if and only if it did before |
| `Nat.NAT.AppliedAddress` | internal/client/nat/nat.go:57-113 | outbound the real source becomes the assigned one, inbound the assigned destination the real one, the other address stays, and any other packet stays as it is |
| `Nat.NAT.Outbound` | internal/client/nat/nat.go:57-113 | the packet becomes its translation from the real to the assigned source, or stays |
| `Nat.NAT.Inbound` | internal/client/nat/nat.go:60-113 | the packet becomes its translation from the assigned to the real destination, or stays |
| `ClampMss.ClampedValues` | internal/engine/connectip/engine.go:235-278 | only MSS values the scan reaches and the TCP checksum change, each of those values ends up at 1200 or below, and what is no SYN stays |
| `MssOptions.AreaReads` | internal/engine/connectip/engine.go:252-277 | every option area is a list of options and a tail in which none begins: end-of-options, cut short, or of a bad length |
| `MssOptions.ClampLowersTheOptions` | internal/engine/connectip/engine.go:235-278 | the clamp of any IPv4 TCP packet with SYN set, a SYN-ACK too: in the list of options every MSS above 1200 becomes 1200, options of other kinds and the tail stay, and of the rest only the TCP checksum may change |
| `MssOptions.OthersPass` | internal/engine/connectip/engine.go:236-251 | a packet that is changed is such a packet |
| `ClampMss.ClampKeepsVerifying` | internal/engine/connectip/engine.go:265-273 | a verifying SYN verifies afterwards if and only if the excess lowered at odd offsets is a multiple of 257 |
| `ClampMss.EvenOffsetsOnly` | internal/engine/connectip/engine.go:252-277 | with even offsets only there is no such excess, so the checksum is always kept |
| `ClampMss.OddOffsetBreaksChecksum` | internal/engine/connectip/engine.go:257-273 | a SYN with one NOP before its MSS of 1460 verifies before and not after |
| `ClampMss.ClampInPlace` | internal/engine/connectip/engine.go:235-278 | the in-place scan ends and leaves the specified packet |
| `AddrBits.PrefixRange` | internal/packet/windivert/filter.go:125-146 | the array loop and the uint32 branch give the prefix filled up with zero bits and with one bits |
| `AddrBits.RangeIsPrefix` | internal/packet/windivert/filter.go:85-92 | an address lies between the two if and only if the prefix contains it |
| `CaptureFilter.AndClause` | internal/packet/windivert/filter.go:78-83 | a parenthesised conjunction of clauses parses wherever it stands, and holds when all of them do |
| `CaptureFilter.OrClause` | internal/packet/windivert/filter.go:108-122 | the same for a disjunction |
| `CaptureFilter.FilterCaptures` | internal/packet/windivert/filter.go:66-74 | clauses joined by "and" parse as a whole and capture the packets for which all hold |
| `CaptureFilter.NotIn` | internal/packet/windivert/filter.go:86-92 | the clause emitted holds for exactly the packets of the family outside the prefix |
| `CaptureFilter.PortClause` | internal/packet/windivert/filter.go:108-122 | the clause holds for exactly the enabled transports with a listed port |
| `CaptureFilter.SortStrings` | internal/packet/windivert/filter.go:51-52 | the clauses are reordered and, when the order is a total one, in order |
| `CaptureFilter.BuildFilter` | internal/packet/windivert/filter.go:37-75 | for every configuration and packet, the tokens as the driver parses them capture exactly what the configuration asks for |
| `FilterText.LexSpell` | internal/packet/windivert/filter.go:30-36 | what is spelled in characters is read back as the same tokens |
| `FilterText.SpellJoined` | internal/packet/windivert/filter.go:74-83 | tokens joined by "and" or "or" are spelled like their strings joined by that word between spaces |
| `FilterText.SpellTest` | internal/packet/windivert/filter.go:88-117 | a test is spelled as field, sign and literal between single spaces |
| `FilterText.SpellParens` | internal/packet/windivert/filter.go:63-63 | parentheses are set without spaces |
| `FilterText.SpelledOut` | internal/packet/windivert/filter.go:68-82 | a whole filter to the letter, "outbound and (tcp or udp) and ((ip and ...) or ipv6)" |
| `FilterText.RangeSpelledOut` | internal/packet/windivert/filter.go:86-92 | and of a range kept out, "(ip.DstAddr < lo or ip.DstAddr > hi)" |
| `FilterText.ByTextIsOrder` | internal/packet/windivert/filter.go:51-52 | the string order of the clauses is a total order, so they go out sorted |
| `FilterText.HexIsProper` | internal/packet/windivert/filter.go:86-92 | the assumption on how addresses are written can be met |
| `FilterText.BuildFilterText` | internal/packet/windivert/filter.go:37-75 | for every configuration and packet, the string, split into words and parsed with "and" tighter than "or", captures exactly what the configuration asks for |
| `Guard.Guard.Bypass` | internal/guard/guard.go:51-61 | true if and only if the destination is a server or lies in a prefix |
| `LocalNetworks.ContainsIff` | internal/guard/guard.go:55-59 | a prefix holds an address if and only if its whole octets and the high bits of the one after them agree |
| `LocalNetworks.LocalIPv4Iff` | internal/guard/guard.go:14-24 | of IPv4 the default list bypasses exactly 0/8, 10/8, 127/8, all of 192.168, 172.16 to 172.31, 100.64 to 100.127, 169.254, 224 to 239, and 255.255.255.255 |
| `LocalNetworks.LocalIPv6Iff` | internal/guard/guard.go:25-28 | of IPv6 exactly ::1, fc00::/7, fe80::/10 and ff00::/8 |
| `Guard.Guard.LinesAgree` | internal/guard/guard.go:50-65 | filter list and guard draw the boundary at the same destinations |
| `Guard.Guard.FirstLineSuffices` | internal/guard/guard.go:63-65 | what a filter with that list captures, the guard does not bypass |
| `Guard.Guard.FilterBypass` | cmd/qd-client/run_windows.go:87-90 | the list handed to the filter is the guard's prefixes and each node address, no more |
| `Guard.Guard.ClientFilter` | cmd/qd-client/run_windows.go:83-105 | the client's filter text captures exactly the outbound TCP and UDP packets its guard does not bypass |
| `CircularAlloc.ClosedIff` | internal/client/fakeip/pool.go:173-176 | the wrapping cursor stays in the pool if and only if the pool does not end at the last address, or is all of them |
| `CircularAlloc.OneRound` | internal/client/fakeip/pool.go:170-176 | from any cursor one round meets every address exactly once and ends where it began |
| `CircularAlloc.PickFinds` | internal/client/nat46/table.go:124-143 | the search fails if and only if every address is live, and otherwise finds the first free one in cursor order |
| `FakeIp.AssignKeepsInv` | internal/client/fakeip/pool.go:76-109 | the three maps stay consistent and the answer is at once in force, reverse entries included |
| `FakeIp.RefusedIff` | internal/client/fakeip/pool.go:98-101 | no fake is given if and only if the domain is empty, or new while every address holds an unexpired mapping |
| `FakeIp.LosesOnlyTheStale` | internal/client/fakeip/pool.go:177-188 | no mapping goes but that of the address given out, and only if it had expired |
| `FakeIp.RunKeepsInv` | internal/client/fakeip/pool.go:76-109 | the maps stay consistent over every run |
| `FakeIp.FakeIsHeld` | internal/client/fakeip/pool.go:74-139 | from an Assign until ttl later, whatever else is assigned, the fake answers that domain and its latest addresses and is given to nobody else |
| `FakeIp.SameFakeAgain` | internal/client/fakeip/pool.go:74-97 | asking for the domain again after any run inside that window gives the same fake |
| `FakeIp.AnswersTheLast` | internal/client/fakeip/pool.go:120-139 | after any run from an empty pool a fake answers domain and addresses of the Assign it was last given out by, and nothing once that one's lifetime is over |
| `FakeIp.RevivedUnlessGivenAway` | internal/client/fakeip/pool.go:86-97 | however late, a domain gets the fake it had again unless another domain has been given it since |
| `FakeIp.TrailingDot` | internal/client/fakeip/pool.go:193-198 | a name with and without the dot at its end is one domain; no other name is shortened |
| `FakeIp.ReverseKeptIff` | internal/client/fakeip/pool.go:86-97 | a real address keeps leading to a live domain's fake if and only if another's Assign neither claims it nor drops an entry listing it |
| `FakeIp.RunKeepsReverseIff` | internal/client/fakeip/pool.go:86-107 | over a run in which its domain stays live, a real address leads to that fake all along if and only if no Assign claims it, drops an entry listing it, or leaves it out for the domain itself |
| `FakeIp.SharedIsReached` | internal/client/fakeip/pool.go:102-107 | two Assigns from an empty pool lead to two domains behind one real address |
| `FakeIp.SharedAddressCutOff` | internal/client/fakeip/pool.go:88-94 | refreshing one of them leaves the live other without its reverse entry |
| `FakeIp.CursorLeavesThePool` | internal/client/fakeip/pool.go:170-176 | a pool of the last two addresses gives a third domain 0.0.0.0 |
| `FakeIp.Pool.Assign` | internal/client/fakeip/pool.go:76-109 | state and answer are the specification's step, trailing dot dropped |
| `FakeIp.Pool.Alloc` | internal/client/fakeip/pool.go:169-191 | the loop is the circular pick, and reclaims what it comes to rest on |
| `FakeIp.Pool.constructor` | internal/client/fakeip/pool.go:53-69 | an empty pool over the whole prefix, with the default lifetime when none is given; consistent exactly when the cursor cannot leave it |
| `FakeIp.Pool.Domain` | internal/client/fakeip/pool.go:120-128 | the domain of an unexpired mapping |
| `FakeIp.Pool.Real` | internal/client/fakeip/pool.go:131-139 | the real addresses of an unexpired mapping |
| `Nat46.MapKeepsInv` | internal/client/nat46/table.go:78-101 | reverse entries always lead to a fake of that host, and the answer is at once in force |
| `Nat46.RefusedIff` | internal/client/nat46/table.go:93-96 | a host is refused if and only if it has no fake in use and every address is live |
| `Nat46.OnlyIPv6IsMapped` | internal/client/nat46/table.go:79-81 | anything but sixteen octets, and ::ffff:a.b.c.d, is refused with the table untouched; nothing else is for its form |
| `Nat46.RenewedIff` | internal/client/nat46/table.go:87-92 | a host gets its unexpired fake again if and only if the moment of expiry has not come |
| `Nat46.LosesOnlyTheStale` | internal/client/nat46/table.go:124-143 | one Map removes at most the mapping of the fake it gives out, and only if that had expired |
| `Nat46.ReverseLosesOnlyTheStale` | internal/client/nat46/table.go:136-139 | and of the reverse entries of other hosts at most that of the host whose expired mapping it reuses |
| `Nat46.FakeIsHeld` | internal/client/nat46/table.go:104-112 | over every run in the window a fake in force keeps leading to its host |
| `Nat46.LeadsToTheLast` | internal/client/nat46/table.go:104-112 | after any run from an empty table a fake leads to the host it was last given to, and to none once that mapping has expired |
| `Nat46.SameFakeIff` | internal/client/nat46/table.go:76-101 | a step keeps a host's fake in use if and only if it does not reclaim an older mapping of that host |
| `Nat46.SameFakeWhenOnly` | internal/client/nat46/table.go:76-101 | with no older mapping left behind, a host keeps its fake through every run in the window |
| `Nat46.NewcomersTakeIt` | internal/client/nat46/table.go:124-143 | with an expired older mapping left behind, as many newcomers as the cursor is away from it cost the host its reverse entry |
| `Nat46.SameFakeAfterNewcomersIff` | internal/client/nat46/table.go:76-101 | after as many newcomers as the pool has addresses, a host keeps the fake it uses if and only if no older mapping of it was left behind |
| `Nat46.LeftBehindIsReached` | internal/client/nat46/table.go:87-100 | three Maps from an empty table leave a stale mapping of a live host behind |
| `Nat46.LiveHostRefused` | internal/client/nat46/table.go:136-139 | one more host, and the live host's next Map is refused |
| `Nat46.Table.constructor` | internal/client/nat46/table.go:55-71 | an empty table over the whole prefix, consistent exactly when the cursor cannot leave it |
| `Nat46.Table.Map` | internal/client/nat46/table.go:78-101 | state and answer are the specification's step |
| `Nat46.Table.Alloc` | internal/client/nat46/table.go:124-143 | the loop is the circular pick, and reclaims what it comes to rest on |
| `Nat46.Table.Lookup` | internal/client/nat46/table.go:104-112 | the host of an unexpired mapping |
| `AddressPool.FirstFree` | internal/server/db/sqlite.go:373-388 | the lowest free address from the third of the masked pool on; none exactly when all are taken |
| `AddressPool.Assignments.Allocate` | internal/server/db/sqlite.go:311-350 | a known token gets its address, a new one the first free, only a pool that is not IPv4 is turned away as such; the table changes by that row only |
| `AddressPool.RunKeepsRows` | internal/server/db/sqlite.go:301-310 | over every run, with whatever pools, no row changes and no two tokens share an address |
| `AddressPool.PoolFits` | internal/server/db/sqlite.go:376-379 | the masked pool starts at a multiple of its size, holds the address it was made from, and does not reach beyond IPv4 |
| `AddressPool.ClientsAre` | internal/server/db/sqlite.go:376-380 | the addresses for clients are the whole pool but its first two |
| `AddressPool.ServesItsCapacity` | internal/server/db/sqlite.go:335-338 | with one pool: addresses in use are always its first, a new token gets the next, and is refused exactly when as many tokens are served as the pool has addresses for clients |
| `Balancer.BestOf` | internal/server/balance.go:162-182 | the loop computes the best candidate of the specification |
| `Balancer.BestIsBest` | internal/server/balance.go:160-182 | it is a candidate; if any is freshly measured so is it, and none of them scores lower |
| `Balancer.BestIsFirst` | internal/server/balance.go:160-182 | among candidates that are alike to the choice the first by name is taken |
| `Balancer.OrderIsIrrelevant` | internal/server/balance.go:119-123 | the order of the candidates changes neither the answer nor the state |
| `Balancer.PathBalancer.Observe` | internal/server/balance.go:93-97 | the node's sample is replaced, nothing else |
| `Balancer.PathBalancer.Forget` | internal/server/balance.go:100-104 | the node's sample goes, choices stay |
| `Balancer.PathBalancer.Pick` | internal/server/balance.go:110-156 | state and answer are the specification's step, about which the rows below say what is answered first, kept, counted and switched to |
| `Balancer.PickLeaves` | internal/server/balance.go:125-156 | what a pick answers and leaves: any other candidate set or no choice yet starts a new decision, a favoured challenger is counted and takes over at the third pick, everything else keeps the node and forgets the challenger |
| `Balancer.FirstChoiceIsBest` | internal/server/balance.go:125-131 | with no choice yet, or one no longer offered: if any candidate is freshly measured so is the answer, none scores lower, and among equals it is the first by name |
| `Balancer.FirstChoiceByName` | internal/server/balance.go:125-131 | and if none is, it is the first by name |
| `Balancer.SwitchGains` | internal/server/balance.go:134-156 | over every history a switch is to a freshly measured node, and away from one only for a fifth and five milliseconds |
| `Balancer.WorthIff` | internal/server/balance.go:189-206 | worth it: the other measured within two minutes and, if this one was too, below 0.8 of its score and five milliseconds cheaper |
| `Balancer.ScoreWeighs` | internal/server/balance.go:24-32 | delay counts once, its spread twice, and losing everything two seconds, other losses lie between |
| `Balancer.LossCosts` | internal/server/balance.go:24-32 | a loss share costs its part of two seconds, to the nanosecond |
| `Balancer.SwitchesIffEarned` | internal/server/balance.go:134-156 | over every history, a pick leaves a node that is still a candidate for another if and only if this and the two picks before all came a cooldown after the choice and found that other best and worth it |
| `Measurements.SwitchMeasurementsIff` | internal/server/balance.go:47-50 | the three picks of a switch each rest on a measurement of the new node, and these are three different ones if and only if it was measured between each two successive picks |
| `Measurements.KnownIff` | internal/server/balance.go:92-104 | something is known of a node if and only if it was measured and not forgotten since |
| `Measurements.FedSwitchesAreMeasured` | internal/server/links.go:212-216 | where every pick comes after new measurements of its candidates, each switch takes three measurements |
| `Measurements.OneSampleSwitches` | internal/server/balance.go:146-156 | a history with one measurement of the new node in which three picks at one instant answer the old, the old and the new one |
| `Balancer.KeptWhileFresh` | internal/server/balance.go:139-142 | within the cooldown a node that stays a candidate is kept |
| `Balancer.SwitchesSpaced` | internal/server/balance.go:32-60 | over a fixed candidate set every switch costs a whole cooldown |
| `Balancer.SwitchesAreRare` | internal/server/balance.go:32-60 | so a run of length D switches at most D / 5 min times |
| `Routing.RoundTripIff` | internal/routing/routing.go:53-89 | a route comes back from its text if and only if it is canonical |
| `Routing.ParsedIsCanonical` | internal/routing/routing.go:67-89 | every route read from any text is canonical, so writing and reading it again changes nothing |
| `Routing.SpaceDoesNotMatter` | internal/routing/routing.go:68-77 | space around a label, or between "auto:" and its tag, changes nothing |
| `Routing.UnreadableIff` | internal/routing/routing.go:70-88 | unreadable is exactly a label with a colon that is not "auto:" and a tag |
| `GoStrings.ItoaRoundTrip` | internal/server/chain/chain.go:131-141 | the hop count written is the hop count read |
| `GoStrings.AtoiSigns` | internal/server/chain/chain.go:131-141 | a signed count is read too; one beyond 64 bits is not |
| `Mesh.ForwardSpendsAHop` | internal/server/chain/chain.go:85-98 | a node that leads a flow on sends one hop less, never zero, and the same label |
| `Mesh.VisitsBounded` | internal/server/chain/chain.go:12-37 | whatever the registries, picks and links, a flow visits at most as many nodes as its limit, and at most eight when it brings none |
| `Mesh.EndsOnce` | internal/server/node.go:553-576 | it ends once, at its last visit, by exit or refusal, and every earlier visit leads to the next |
| `Mesh.OnTheWay` | internal/server/route_decide.go:54-57 | every node sees the client's label and a positive hop count one lower than before |
| `Mesh.NamedExitIff` | internal/server/route_decide.go:37-53 | a node lets an untagged flow out if and only if the label names no node, this node, or one it cannot reach |
| `Mesh.UnlabelledExits` | internal/server/route_decide.go:30-42 | no label, "direct" and an unreadable label mean: out here |
| `Mesh.RefuseIff` | internal/server/node.go:557-576 | a flow is refused if and only if the limit it brings is spent or unreadable, or it is to be led on without a hop to spare or a stream |
| `Mesh.HopsAre` | internal/server/chain/chain.go:131-141 | a client's flow has eight hops, any other what its header says |
| `Mesh.NamedFlow` | internal/routing/routing.go:104-119 | a flow without a tag visits two nodes at most, is let out at the second, which is the named one, and gets there when the link and the stream come up; what its first node does is in `Mesh.NamedExitIff` and `Mesh.RefuseIff` |
| `Mesh.PickServes` | internal/server/links.go:186-204 | what is picked for a tag is another node, switched on and carrying it; something is picked if and only if there is one |
| `Mesh.ServesInAnyCase` | internal/server/db/nodes.go:54-62 | tags match in any letter case, a category to the letter, and a node switched off serves nothing |
| `Mesh.FoldsCase` | internal/server/db/nodes.go:55-62 | "De" and "dE" are one tag, "de" and "d" or "fr" are not |
| `Mesh.TaggedExitIff` | internal/server/route_decide.go:39-53 | a node lets a tagged flow out if and only if no other node carries the tag or the link to the one picked is down |
| `Mesh.TaggedForward` | internal/server/links.go:103-118 | led on, it goes to another node that carries the tag |
| `Mesh.TwoCarriersRefuse` | internal/server/links.go:186-204 | with two healthy carriers a tagged flow uses up all its hops and is refused |
| `Mesh.OneCarrierExits` | internal/server/links.go:186-204 | with one carrier beside the entry it is let out there |
| `Mesh.TaggedFlowExitsIff` | internal/server/route_decide.go:37-57 | for whole flows, with steady rows, links and streams up and hops to spare: a tagged flow gets out if and only if no two nodes carry the tag |
| `Limiter.SpentIsNew` | internal/server/decoy/site.go:181-185 | a counter the sweep deletes answers like a new one |
| `Limiter.SweepKeepsAnswer` | internal/server/decoy/site.go:140-188 | one request is answered alike with and without sweeping |
| `Limiter.SweepingIsInvisible` | internal/server/decoy/site.go:140-188 | for every trace below the ceiling the answers are those of a limiter that never deletes |
| `Limiter.AtMostTwiceTheBurst` | internal/server/decoy/site.go:152-170 | an address is let through at most 2 x burst times in any half-open span of one window |
| `Limiter.TwiceTheBurstIff` | internal/server/decoy/site.go:152-170 | some requests reach that bound if and only if a window is longer than one tick of the clock |
| `Limiter.BanEndsOnTime` | internal/server/decoy/site.go:152-161 | on one counter: knocking during a ban changes nothing, and the first request at its end or later is let through |
| `Limiter.CounterIsItsOwn` | internal/server/decoy/site.go:146-150 | an address's counter is the replay of its own requests alone |
| `Limiter.LimiterBound` | internal/server/decoy/site.go:140-188 | the bound for the limiter as it runs, with sweeping and many addresses |
| `Limiter.RefusalMeansWhatItSays` | internal/server/decoy/site.go:140-188 | for the limiter as it runs: after a refusal, each request of that address before the moment told is refused with exactly the time left, and the first one then or later is let through |
| `Limiter.NewBansAreWhole` | internal/server/decoy/site.go:165-168 | a refusal that no earlier one announced is told exactly the whole ban |
| `Limiter.QuietIsServed` | internal/server/decoy/site.go:152-170 | an address under no announced ban that asked fewer times than the burst in the last window is let through, whatever others do |
| `Limiter.WhatStays` | internal/server/decoy/site.go:173-188 | a request leaves every other counter alone, except that a window after the last sweep exactly those past window and ban go, and all of them at the ceiling |
| `Limiter.TableBounded` | internal/server/decoy/site.go:173-180 | no trace brings the table above its ceiling |
| `Limiter.RequestLimiter.AllowRequest` | internal/server/decoy/site.go:140-171 | state and answer are the specification's step |
| `Limiter.RequestLimiter.Sweep` | internal/server/decoy/site.go:173-188 | the loop deletes exactly the spent counters, or everything at the ceiling |
| `PathWatch.Watch.OnTick` | internal/client/supervisor/health.go:53-92 | state and decision are the specification's step |
| `PathWatch.RepairsIff` | internal/client/supervisor/health.go:58-92 | a tick repairs if and only if data sent SilenceLimit ago is still unanswered, all earlier repairs are RepairEvery old and the outage has seen fewer than MaxRepairs |
| `PathWatch.RepairsApart` | internal/client/supervisor/health.go:81-83 | two repairs are RepairEvery apart |
| `PathWatch.FewRepairs` | internal/client/supervisor/health.go:84-89 | between two ticks on which received grew there are at most MaxRepairs repairs |
| `Quota.Left` | internal/server/db/quota.go:23-35 | nothing is left exactly when the limit is exceeded; otherwise used and left add up to it; -1 exactly without a limit |
| `Quota.Account.QuotaOf` | internal/server/db/quota.go:43-106 | row and answer are the specification's step; limit and length stay, and the answer states them |
| `Quota.Account.ResetTraffic` | internal/server/db/quota.go:136-154 | from this total on, until the days agreed from this moment on, or with no moment when none are |
| `Quota.ResetStartsAWholePeriod` | internal/server/db/quota.go:136-154 | after any history and a reset, whoever asks before the days agreed are over is told just what came after the reset, and the moment they are |
| `Quota.AnswersStateTheAgreed` | internal/server/db/quota.go:43-56 | every answer states the limit and length set last, and a moment exactly when there is a length |
| `Quota.ResetIsAhead` | internal/server/db/quota.go:72-99 | the moment told is not past, whole periods after the stored one, and at most a period ahead exactly when the stored one was |
| `Quota.ShortenedPeriodWaits` | internal/server/db/quota.go:72-77 | a period cut from a month to a day: who asks is still told the end of the month |
| `Quota.ToldWithinAPeriod` | internal/server/db/quota.go:72-106 | after any history with the length left alone and a clock that does not go back, the moment told lies in [now, now + period] |
| `Quota.NextResetWithin` | internal/server/db/quota.go:85-93 | the arithmetic lands in (now, now + period] however long nobody asked |
| `Quota.UsageIsConserved` | internal/server/db/quota.go:43-106 | over every history, usage is not negative, and closed periods plus current usage are the traffic since the start plus what lost counters took away |
| `Quota.GrowingForgivesNothing` | internal/server/db/quota.go:61-70 | with totals that never fall, nothing is forgiven and the base never passes the total |

## Left out

- QUIC, HTTP/3, TLS, sockets, the packet driver, SQL, files and JSON: foreign code; a failed request, query or registry lookup is an event that does not happen.
- Clock: one reading per operation, where some operations take two; durations and times are unbounded integers, and Go's zero time is None (0 for the limiter's last sweep).
- Widths: epochs, hit counters, traffic and scores are unbounded integers rather than int64 or uint64; uint32 sums, cursors and uint16 words are modelled with their width.
- Atomicity: what the source does under a mutex or in one transaction is one step; a pull is two, a snapshot's header and copy are two.
- Checksum.UpdateIsRecomputation: excludes data that is all zero, which a pseudo-header with its protocol number never is.
- Nat.TranslateV4Correct: for a header of at least 20 octets that fits the packet; nothing is said of shorter ones. The verdict is that of an unfragmented packet, as the source assumes, and IPv6 extension headers are left out.
- ClampMss.ClampKeepsVerifying: for a header of at least 20 octets and options inside the datagram's own length; ClampMss.ClampedValues and ClampMss.ClampInPlace cover every packet.
- FilterText.BuildFilterText: how an address is written is a parameter that must be readable back; addresses that embed IPv4 in IPv6 are left out.
- Guard.Guard.ClientFilter: without the extra prefixes of the debugging flag; `Guard.Guard.FirstLineSuffices` allows them.
- FakeIp.AssignKeepsInv: for a pool whose cursor stays inside, see `CircularAlloc.ClosedIff`; the same goes for the theorems about the IPv6 table.
- Cluster.OneMasterPerEpoch: node tables, tokens and files of a snapshot are left out, only the cluster row travels; honest headers always parse.
- DnsCache.Cache.Get: the copying of answer bytes, the nil cache and a negative size are left out.
- Balancer.BestIsBest: floating-point rounding of the loss share and of the factor 0.8 is left out; they are rational.
- Balancer.PathBalancer.Pick: a stored decision is a value in the map, replaced whole, rather than an object the map refers to.
- Mesh.PickServes: letter case is folded for ASCII only; a node's registry is its rows at the last reload, identifiers are not empty.
- Mesh.EndsOnce: the outward dial at an exit, the copying of data and the closing of streams are left out; retry pauses and races of link set-up are the parameter `linkUp`.
- Routing.RoundTripIff: text is code points; octets that are not UTF-8 are left out.
- PathWatch.Watch.OnTick: the repair itself, the ticker and logging are left out.
- Quota.Account.QuotaOf: a missing token is left out; the network's counters are a parameter.
- AddressPool.Assignments.Allocate: unreadable addresses in the table and failing transactions are left out.
- Limiter.RequestLimiter.Sweep: what happens to bans when the table reaches its ceiling is modelled (all counters go) but no bound is claimed there.
- Client rule editing, notifications, subscriptions, sessions, the other admin handlers and the panel.
