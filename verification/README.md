# A verified model of Klint's data structures, network functions, ring driver and search

Klint verifies network functions and ships with the C code it verifies. This project models the parts of that code
whose correctness is an argument about many steps, and proves the argument.

* **Hash map** (`Bits`, `Ring`, `Counting`, `Probing`, `HashMap`). Open addressing over a power-of-two array. Every slot
  counts the stored keys whose probe path crosses it, so a lookup may stop at a slot with count zero. The class keeps
  the counters exact through every slot-by-slot walk, for an arbitrary hash function, and refines a finite map. Keys
  live in the client's memory and are referred to by address; an address is an index into the client's key array.
* **Index pool and expiring tables** (`PoolSpec`, `IndexPool`, `TableSpec`, `ExpiringTable`). Hash map, pool and key array
  are kept mutually inverse; all clients share this one structure. The source writes the same sequence of calls out in
  each client, and every call's precondition is proved here.
* **Network functions** (`Packets`, `NatSpec`, `NatRuns`, `Nat`, `FirewallSpec`, `Firewall`, `PolicerSpec`,
  `PolicerLimits`, `PolicerSingle`, `PolicerExact`, `PolicerIdeal`, `Policer`, `BridgeSpec`, `BridgeRuns`, `Bridge`,
  `BalancerSpec`, `BalancerRuns`, `Balancer`). Each class runs the handler on the structures above and is proved equal
  to a step function; the step functions then carry theorems about whole packet runs, told from the packets.
* **Consistent hash table** (`Progressions`, `ChtSpec`, `ChtRoom`, `Cht`). The in-place fill is proved equal to an
  independent description of each bucket's row, with the number theory that decides when rows fit their places.
* **Spanning tree** (`SpanningTree`, `SpanningTreeNet`, `SpanningTreeConvergence`, `SpanningTreePorts`,
  `SpanningTreeLoops`, `SpanningTreeTriangle`). The handler as a class, and networks of bridges with messages in
  flight on ordered, lossy, point-to-point links: path realisability, the state of the root port, when ports are
  blocked, what stable states look like, and convergence on every fair run.
* **Ring agent** (`TinyNf`, `TinyNfSafety`, `TinyNfRuns`, `TinyNfProgress`, `TinyNfAgent`). Agent and card share one
  descriptor ring. A state machine interleaves them at every access, with unwrapped counters as history; the agent's
  loop, written on arrays and local variables as in C, is proved to be a run of that machine for any behaviour of the
  card.
* **Replay search** (`ReplayOrder`, `ReplaySpec`, `Replay`, `ReplayDry`, `ReplayHidden`). Exhaustive exploration by
  re-execution with a branch prefix, and the search through vectors of choices.

## What turned out not to hold

Where the code does less than one would expect, the code is modelled as it is; the exact condition is proved, with an
input on which it fails.

* Policer: the bound "one burst plus rate times window" holds on every run if and only if `burst % rate <= 1` and the
  expiration time, whose computation may be truncated to 64 bits, is long enough to earn what a new destination may
  take, or twice that time with a table of a single entry. The refill test divides `burst` by `rate` first. The
  failing runs are made of packets of any given range of lengths (`PolicerLimits.WithinRateIff`,
  `PolicerSingle.WithinRateIff`). That a packet to a known destination passes exactly if the bound is kept with it
  holds on every run if and only if the rate divides the burst, the expiration time is long enough to earn one, and no
  refill can be truncated (`PolicerIdeal.TokenBucketIff`); in general a packet passes exactly if it fits all windows
  since its destination's bucket was simply filled (`PolicerIdeal.PassesWhatFitsIff`).
* Consistent hash table: the code accepts any height above the number of backends. Every bucket has room for its
  entries, and each lists every backend once, if and only if no number from 2 to the number of backends divides the
  height; a prime height is sufficient (`ChtRoom.RoomIff`, `ChtSpec.RowsListEachOnceIff`). With height 4 and three
  backends an entry goes past the end of the array.
* NAT: external ports are never shared exactly if the table has at most 65536 entries; an inbound packet that is dropped
  renews its port's flow exactly if that is live, so dropped packets alone can keep a flow alive for ever
  (`NatSpec.DroppedInboundRenewsIff`, `NatRuns.SpoofedKeepAlive`).
* Balancer: the record of a flow's backend is never written. While a flow is tabled, its packets go to backend 0 whenever
  that is live, and by its row otherwise, so with two backends or more and a good height some bucket's flows all
  move on their second packet (`BalancerSpec.SentByRowOrToZero`, `BalancerSpec.SomeBucketNotSticky`).
* Bridge: only floods heed blocked ports. A forwarded frame goes out on a blocked port exactly if the latest frame from
  its destination, not evicted since, came in on that port and the port is not the frame's own
  (`BridgeSpec.SentOnBlockedIff`, `BridgeSpec.BlockedPortUsed`).
* Ring agent: the heads are looked at after every 64th packet only. A look that finds the oldest head 192 packets or more
  behind dooms the ring: nothing beyond the receive tail then written is ever received, whatever is sent and reported
  afterwards. From any reachable state more can be received exactly if the ring is not doomed
  (`TinyNfProgress.RecycleDooms`, `TinyNfProgress.CanReceiveMoreIff`); a run to such a state is `TinyNfRuns.CanGetStuck`.
* Spanning tree: a port is blocked exactly if a larger root came in on it and no update since; the bridge with the
  least id is never updated and so blocks for good every port that ever brought it a larger root. Two bridges can
  settle with their only link blocked at the root (`SpanningTreePorts.BlockedIff`, `SpanningTreePorts.LeastBlockedIff`,
  `SpanningTreePorts.OnlyLinkStaysBlocked`). Nor is a settled network free of forwarding loops: floods go round a cycle
  of links exactly if none of its ports is blocked, and none ever is where bridges announce only once they follow the
  least one, as in a triangle whose least bridge is the first to announce (`SpanningTreeLoops.GoesRoundIff`,
  `SpanningTreeLoops.LeastFirstBlocksNothing`, `SpanningTreeTriangle.SettledTriangleLoops`).
* Replay search: a candidate that an earlier choice has picked is dismissed without checking that another one is left.
  A search can abort for that reason exactly if the last candidate of some list occurs in an earlier list
  (`ReplayDry.NeverAbortsIff`). It can so hide later picks that would succeed exactly if, after some picks, the next
  list's last candidate is dismissed while one of the picks has a later candidate of its own left
  (`ReplayHidden.HidesSuccessIff`, with an input in `Replay.DryListHidesSuccess`).

## Model

| member | source | states |
|---|---|---|
| Bits.GetRealCapacity | env/src/structs/map.c:313-336 | the least power of two no smaller than the capacity, at most 2^63 |
| Bits.PowerMaskIsModulo | env/src/structs/map.c:338-362 | masking with one less than a power of two is the remainder by it |
| Probing.LoopIsModulo | env/src/structs/map.c:338-362 | the two masks compute (start + i) mod capacity and the inner sum fits 64 bits |
| Probing.LoopVisitsEverySlotOnce | env/src/structs/map.c:338-362 | the first `capacity` probes visit every slot exactly once, from any hash |
| Probing.ChainPositiveOnTheWay | env/src/structs/map.c:1025-1112 | when counters are exact, no slot on the way to a stored key has counter zero |
| Probing.ChainBounded | env/src/structs/map.c:1481-1614 | exact counters never exceed the table size, so they fit their machine word |
| Probing.OccupiedKeepsChainsExact | env/src/structs/map.c:1481-1614 | counters are exact before a key is placed (or after it is taken out) if and only if they are exact with it |
| Probing.OccupiedUndone | env/src/structs/map.c:1785-1931 | taking out a key just placed restores every counter and every slot's key |
| Probing.RaisedThenFilled | env/src/structs/map.c:1481-1614 | a walk that raised the counters before slot p, then filled p, placed a key at p |
| HashMap.Map.constructor | env/src/structs/map.c:531-566 | a valid, empty map |
| HashMap.Map.Get | env/src/structs/map.c:1025-1135 | equals lookup in the abstract map for any hash; stopping at a zero counter misses nothing |
| HashMap.Map.FreeSlot | env/src/structs/map.c:1481-1614 | below capacity some slot is free |
| HashMap.Map.Place | env/src/structs/map.c:1481-1614 | the insertion walk ends in a free slot, which it fills, with exactly the counters before it raised |
| HashMap.Map.Set | env/src/structs/map.c:1481-1614 | refines insertion; the slots used are the old ones and one more; the key memory is untouched |
| HashMap.Map.OnlyInItsSlot | env/src/structs/map.c:1785-1931 | a stored key is in its slot and in no other |
| HashMap.Map.Unlink | env/src/structs/map.c:1785-1931 | the removal walk finds the key, lowers exactly the counters before it, none of them from zero |
| HashMap.Map.Remove | env/src/structs/map.c:1785-1931 | refines deletion and undoes a placement of the key |
| HashMap.Map.MemoryFrame | env/src/structs/map.c:1785-1931 | key memory no entry refers to may be overwritten |
| PoolSpec.FirstAvailable | env/src/structs/index_pool.c:143-239 | the ring search returns the first free or expired index, none before it being so |
| PoolSpec.Borrowed | env/src/structs/index_pool.c:143-239 | a borrow fails exactly when every index is held and young |
| PoolSpec.BorrowedIs | env/src/structs/index_pool.c:143-239 | an available index with none available before it in ring order is the one borrowed |
| PoolSpec.StampedUses | env/src/structs/index_pool.c:241-252 | writing a time is an update of the partial map from index to last use; writing the marker is a removal |
| PoolSpec.Young | env/src/structs/index_pool.c:275 | a last use is recent enough exactly if no more than the expiration time has passed since |
| Packets.SameFlowIff | nf/firewall/flow_table.h:12-19 | two packets are of the same flow exactly if they agree on both ends and the protocol |
| Packets.AnswersIff | nf/firewall/firewall.c:37-42 | a packet answers another's flow exactly if its ends are the other's swapped and the protocol is the same |
| IndexPool.Pool.constructor | env/src/structs/index_pool.c:84-113 | every index is free |
| IndexPool.Pool.Borrow | env/src/structs/index_pool.c:143-239 | the two loops together hand out the first available index in ring order, tell whether it was held, and change nothing on failure |
| IndexPool.Pool.Refresh | env/src/structs/index_pool.c:241-252 | sets one index's last use in the partial map |
| IndexPool.Pool.Used | env/src/structs/index_pool.c:254-283 | true exactly for indices held and young, for any index value |
| IndexPool.Pool.Return | env/src/structs/index_pool.c:285-295 | removes one index from the partial map |
| TableSpec.LearnEffect | nf/firewall/flow_table.h:36-50 | a learned key is held and just used; only one index changes, its own or one that could be reused; failure means all are held and young |
| TableSpec.LearnOther | nf/firewall/flow_table.h:36-50 | learning a key leaves another where it is unless that had expired and its index was reused |
| TableSpec.MirrorsInsert | nf/nat/flow_table.h:48-58 | dropping an index's old key and entering a new one keeps map, pool and keys inverse; the map has room and refers to no key at that index |
| TableSpec.MirrorsRelease | nf/maglev/balancer.h:57-60 | removing an entry and returning its index keeps map, pool and keys inverse |
| TableSpec.SizesAgree | nf/nat/flow_table.h:41-62 | map size equals the number of indices held |
| TableSpec.RoomLeft | nf/nat/flow_table.h:52-57 | with an index not held, the map is below capacity |
| ExpiringTable.ExpiringTable.constructor | nf/nat/flow_table.h:30-39 | map, pool and keys start empty and mutually inverse |
| ExpiringTable.ExpiringTable.Lookup | nf/nat/flow_table.h:44 | the map finds exactly the index that holds the key |
| ExpiringTable.ExpiringTable.Refresh | nf/nat/flow_table.h:45 | only the last use of the index changes |
| ExpiringTable.ExpiringTable.Claim | nf/nat/flow_table.h:48-54 | borrows as the pool specifies and drops the entry of the expired key at that index |
| ExpiringTable.ExpiringTable.Enter | nf/nat/flow_table.h:56-57 | overwrites key memory that no entry refers to, then enters the key |
| ExpiringTable.ExpiringTable.Insert | nf/nat/flow_table.h:47-58 | inserts with eviction as specified, every map precondition met |
| ExpiringTable.ExpiringTable.Release | nf/maglev/balancer.h:57-60 | forgets a key and frees its index |
| NatSpec.DecodeEncode | nf/nat/flow_table.h:60-66 | decoding undoes encoding exactly for indices below 65536 |
| NatSpec.EncodeDecode | nf/nat/flow_table.h:60-66 | encoding undoes decoding for every 16-bit port |
| NatSpec.StepEffect | nf/nat/nat.c:39-77 | whatever an index holds after a packet it held before, or the packet brought it there |
| NatSpec.History | nf/nat/nat.c:39-77 | a tabled flow was given its port by an outbound packet, has held its index since, and its time is that of some packet that used the index |
| NatSpec.InboundForwardedIff | nf/nat/nat.c:39-54 | an inbound packet is forwarded exactly if one of the first 65536 indices has its port and holds a live flow from whose remote end it comes |
| NatSpec.PortKeepsOwner | nf/nat/nat.c:39-77 | while a flow is held no other flow was sent from its port since |
| NatSpec.InboundIsReply | nf/nat/nat.c:39-77 | on any run, a forwarded inbound packet answers an earlier forwarded outbound one that was given that port, and goes back to its sender |
| NatRuns.HeldWasRenewed | nf/nat/nat.c:39-77 | on any run the time of a tabled flow is that of a packet that gave it its port, or of one to the port while it was live |
| NatRuns.RenewedIsHeld | nf/nat/nat.c:39-77 | on any run with non-decreasing times a flow keeps its index for as long as some packet that renewed it is young |
| NatRuns.InboundForwardedOnRunIff | nf/nat/nat.c:39-54 | on any run an inbound packet is forwarded exactly if its port was given to a flow from whose remote end it comes, and renewed ever since within the expiration time |
| NatRuns.ReplyComesBack | nf/nat/nat.c:39-77 | on any run a reply in time to a translated packet is translated back to its source, whatever came between |
| NatRuns.PortOfIndex | nf/nat/flow_table.h:60 | the port of an index is the start port plus the index, modulo 65536 |
| NatRuns.OutboundOutput | nf/nat/nat.c:55-77 | on any run an outbound packet is forwarded exactly if its flow was tabled or some index available, and then goes out on the other device from the external address and the port of the index that holds its flow, otherwise as it came |
| NatRuns.InboundOutput | nf/nat/nat.c:39-77 | on any run an inbound packet that is forwarded goes to the source of the flow its port stands for, otherwise as it came, on the other device |
| NatRuns.OtherOutput | nf/nat/nat.c:29-37 | a packet that is not TCP or UDP over IPv4 is dropped and changes nothing |
| NatSpec.DroppedInboundRenewsIff | nf/nat/nat.c:41-45 | a dropped inbound packet sets the last use of its port's index to now exactly if that holds a live flow, and changes nothing else |
| NatRuns.SpoofedKeepAlive | nf/nat/nat.c:41-45 | a flow that sent one packet is kept alive past any number of expiration times by packets that are all dropped |
| NatSpec.PortsDistinctIff | nf/nat/flow_table.h:60 | no two tabled flows share a port, on any run, exactly if there are at most 65536 entries |
| Nat.Nat.constructor | nf/nat/nat.c:11-27 | an empty, valid table |
| Nat.Nat.GetInternal | nf/nat/flow_table.h:41-62 | learns the flow and returns its index's port, or nothing if it found no room |
| Nat.Nat.GetExternal | nf/nat/flow_table.h:64-74 | the live flow of a port, which is thereby refreshed |
| Nat.Nat.Handle | nf/nat/nat.c:29-77 | equals the step function, keeping map, pool and flows inverse |
| FirewallSpec.StepEffect | nf/firewall/firewall.c:26-60 | one packet sets a flow's last use exactly if it is activity of the flow; otherwise the flow is untouched or evicted as expired |
| FirewallSpec.LastUseIsLatestActivity | nf/firewall/firewall.c:26-60 | on any run, a tabled flow's time is that of its latest activity, and it was first sent out |
| FirewallSpec.StaysTabled | nf/firewall/flow_table.h:36-61 | a flow stays in the table as long as one of its activities is young |
| FirewallSpec.InboundForwardedIff | nf/firewall/firewall.c:36-46 | on any run, an inbound packet passes exactly if its mirrored flow was active within the expiration time |
| FirewallSpec.InboundNeedsOutbound | nf/firewall/firewall.c:36-46 | a passing inbound packet's mirrored flow was itself sent out earlier |
| FirewallSpec.OutboundLearnedUnlessFull | nf/firewall/flow_table.h:36-50 | an outbound packet's flow is remembered exactly if it was known or some index was available |
| FirewallSpec.OutputUnchanged | nf/firewall/firewall.c:26-60 | on any run what is sent is the packet as it came, on the other device, and outbound TCP or UDP packets always are |
| Firewall.Firewall.constructor | nf/firewall/firewall.c:10-24 | an empty, valid table |
| Firewall.Firewall.LearnInternal | nf/firewall/flow_table.h:36-50 | learns the flow if there is room |
| Firewall.Firewall.HasExternal | nf/firewall/flow_table.h:52-61 | true exactly for tabled live flows, whose last use is then recorded |
| Firewall.Firewall.Handle | nf/firewall/firewall.c:26-60 | equals the step function |
| PolicerSpec.StepView | nf/policer/policer.c:53-95 | one destination's bucket changes only by its own packets, or disappears when expired |
| PolicerSpec.RefillBound | nf/policer/policer.c:57-66 | a refill adds no more than the rate allows, when burst % rate is at most 1 |
| PolicerSpec.UntruncatedIsLongEnough | nf/policer/policer.c:40 | if its computation is not truncated, the expiration time is long enough to earn a burst |
| PolicerSpec.ExpiredEarned | nf/policer/policer.c:80-94 | an expired bucket has earned what a new destination may take, if the expiration time is long enough |
| PolicerSpec.BalancedCharge | nf/policer/policer.c:55-73 | charging a packet keeps the account of passed bytes and bucket contents within the rate |
| PolicerSpec.BalancedEviction | nf/policer/policer.c:80-94 | evicting an expired bucket keeps the account within the rate |
| PolicerSpec.AccountBalanced | nf/policer/policer.c:44-98 | the account of every destination and every window is within the rate on every run, if refill and expiration times are long enough |
| PolicerSpec.WindowBound | nf/policer/policer.c:44-98 | the bytes passed in any window are at most burst + rate * length of the window |
| PolicerLimits.TooFast | nf/policer/policer.c:58-65 | with burst % rate of 2 or more, three bursts made of packets of given lengths exceed the bound |
| PolicerLimits.EvictZero | nf/policer/policer.c:80-94 | once a destination has expired, a packet to a new one takes its index, and leaves another to be had |
| PolicerLimits.TooShort | nf/policer/policer.c:40 | with too short an expiration time, three bursts with evictions between them exceed the bound |
| PolicerLimits.WithinRateIff | nf/policer/policer.c:40-95 | every run of packets of the given lengths keeps the bound exactly if burst % rate is at most 1 and the computed expiration time is long enough |
| PolicerLimits.WithinRateUntruncatedIff | nf/policer/policer.c:40-95 | without truncation, and for a table of any size but zero, exactly if burst % rate is at most 1 |
| PolicerSingle.AccountNext | nf/policer/policer.c:53-95 | with a single entry, the account of a destination that has lost it and of one that gets it back |
| PolicerSingle.WithinRateIff | nf/policer/policer.c:40-95 | with a single entry, the bound holds exactly if burst % rate is at most 1 and two expiration times are long enough |
| PolicerSingle.NothingPasses | nf/policer/policer.c:80-93 | with no entry nothing passes |
| PolicerExact.RefillIsEarnedIff | nf/policer/policer.c:58-62 | below the whole-unit refill time a bucket earns its rate for the time elapsed, up to the burst, exactly if the addition is not truncated |
| PolicerExact.PassesBelow | nf/policer/policer.c:57-70 | what passed in a window and what a refill leaves in the bucket are together within burst + rate * length of the window, unless the bucket was simply filled in between |
| PolicerExact.AccountKept | nf/policer/policer.c:44-98 | on any run what passed in a window and what is in the bucket are within the rate, from any packet on up to where the bucket is simply filled, or for ever if the rate divides the burst and expired buckets have filled up |
| PolicerExact.Attained | nf/policer/policer.c:44-98 | on any run a bucket holds all that the rate allows in some window: no byte earned is lost |
| PolicerExact.PassedFits | nf/policer/policer.c:67-73 | a packet that passes keeps less than the bound in every window since the bucket was simply filled |
| PolicerExact.DroppedDoesNotFit | nf/policer/policer.c:67-73 | a packet to a known destination is dropped only if with it the bound would be reached in some window that ends with it |
| PolicerExact.FittingPasses | nf/policer/policer.c:53-73 | so on any run such a packet passes exactly if it fits, if no refill can be truncated |
| PolicerExact.NewPassesIff | nf/policer/policer.c:75-94 | a packet to a destination without a bucket passes exactly if it is no longer than the burst and some index is available; the bucket is then a burst less the packet |
| PolicerExact.TimeIsLatest | nf/policer/policer.c:66 | on any run the time of a bucket is that of the latest packet to its destination |
| PolicerExact.BucketStays | nf/policer/policer.c:55-56 | a destination keeps its bucket unchanged, between packets to it, while its last use is young |
| PolicerExact.OutputIs | nf/policer/policer.c:48-98 | what is sent is the packet as it came, on the other device; only packets to be policed are held back or change anything |
| PolicerExact.ExpirationIs | nf/policer/policer.c:40 | the expiration time is the longest in which no more is earned than 10^9 bursts, less the multiples of 2^64 lost to truncation |
| PolicerIdeal.WrapLoses | nf/policer/policer.c:59-62 | if a refill can be truncated, a run on which a packet is dropped that fits |
| PolicerIdeal.RemainderGains | nf/policer/policer.c:58-65 | if the rate does not divide the burst, a run on which a packet passes that does not fit |
| PolicerIdeal.EvictionGains | nf/policer/policer.c:80-94 | if a bucket can expire before it has filled up, a run on which a packet passes that does not fit |
| PolicerIdeal.PassesWhatFitsIff | nf/policer/policer.c:44-98 | on every run packets to known destinations pass exactly if they fit all windows since their bucket was simply filled, if and only if no refill can be truncated |
| PolicerIdeal.TokenBucketIff | nf/policer/policer.c:40-98 | on every run they pass exactly if the advertised bound is then kept in all windows, if and only if moreover the rate divides the burst and expired buckets have filled up |
| Policer.Policer.constructor | nf/policer/policer.c:21-42 | no buckets; the expiration time as computed |
| Policer.Policer.Police | nf/policer/policer.c:53-95 | equals the policing step, on table and buckets |
| Policer.Policer.Handle | nf/policer/policer.c:44-98 | equals the step function |
| BridgeSpec.KnownIsLatest | nf/bridge/bridge.c:49-65 | on any run a known address is behind the device of the latest frame from it that was not consumed |
| BridgeSpec.SentWhereLastHeard | nf/bridge/bridge.c:67-73 | a frame not flooded goes where its destination was last heard from, or nowhere if it came from there |
| BridgeSpec.NeverBack | nf/bridge/bridge.c:67-73 | no frame goes out on the device it came in on |
| BridgeSpec.SentOnBlockedIff | nf/bridge/bridge.c:49-73 | on any run a forwarded frame goes out on a blocked port exactly if it is not its own and the latest frame from its destination, not evicted since, came in on it |
| BridgeSpec.BlockedPortUsed | nf/bridge/bridge.c:67-73 | a run on which that happens |
| BridgeSpec.BlockedArrivalsTreatedAlike | nf/bridge/bridge.c:49-73 | frames that arrive on blocked ports are learned from and forwarded like any others |
| BridgeRuns.FloodedIff | nf/bridge/bridge.c:67-72 | on any run a forwarded frame is flooded exactly if no latest frame from its destination exists that has not been evicted since |
| BridgeRuns.SentExactly | nf/bridge/bridge.c:67-73 | on any run a forwarded frame goes out exactly on the device that its destination was last heard on, or on all that are not blocked if there is none, and never on its own |
| BridgeRuns.LearnedIff | nf/bridge/bridge.c:49-65 | the source of a frame is known afterwards, behind its device and used just then, exactly if it was known or some index was available; other addresses stay as they are or have expired and are gone |
| BridgeRuns.StaysKnown | nf/bridge/bridge.c:49-65 | on any run an address that was learned stays known, behind that device, while the latest frame from it is young |
| BridgeRuns.LastUpdateIsLastDue | nf/bridge/spanning_tree.h:45-46 | the time of the last update is that of the last frame at which an announcement was due |
| BridgeRuns.AnnouncedIff | nf/bridge/spanning_tree.h:43-99 | on any run a frame is consumed exactly if an announcement is due or it is a BPDU, and the bridge announces its root and cost exactly if that was due or its root, cost or root port has changed |
| BridgeRuns.HoldsLeastOffer | nf/bridge/spanning_tree.h:69-85 | on any run the bridge holds the least of its own and all the offers it has heard, by root, then cost, then port |
| BridgeRuns.BlockedIff | nf/bridge/spanning_tree.h:63-96 | on any run a port is blocked exactly if a larger root than the bridge's came in on it and no offer that came in there since was taken |
| Bridge.Bridge.constructor | nf/bridge/bridge.c:15-36 | an empty address table and a bridge that knows only itself |
| Bridge.Bridge.LearnSource | nf/bridge/bridge.c:49-65 | equals learning the source address, on table and devices |
| Bridge.Bridge.Forward | nf/bridge/bridge.c:67-73 | equals the forwarding decision |
| Bridge.Bridge.Handle | nf/bridge/bridge.c:38-74 | equals the step function of protocol state and address table together |
| BalancerSpec.PickOk | nf/maglev/balancer.h:62-79 | the table stays valid, and the backend returned is the preferred live one if the flow was remembered |
| BalancerSpec.GetBackendOk | nf/maglev/balancer.h:44-80 | the table stays valid on every branch |
| BalancerSpec.BackendFoundIff | nf/maglev/balancer.h:44-80 | a packet finds a backend exactly when some backend is live, and the one found is live |
| BalancerSpec.StickyIff | nf/maglev/balancer.h:48-60 | of two packets in a row of a flow, with the same backends live, the second goes to the first's backend exactly if that was backend 0 or backend 0 is not live |
| BalancerSpec.SentByRowOrToZero | nf/maglev/maglev.c:40-61 | on any run a client's packet goes to the preferred live backend of its flow's row, but to backend 0 if the flow is tabled and that is live |
| BalancerSpec.TabledWasSent | nf/maglev/balancer.h:62-79 | on any run a tabled flow has had a packet sent to a backend |
| BalancerSpec.NotSticky | nf/maglev/balancer.h:48-60 | a run on which a flow's first packet goes to another backend than 0 and its second to 0, with both live all along |
| BalancerSpec.SomeRowBeginsElsewhere | env/src/structs/cht.c:15-35 | with two backends or more and a good height some bucket prefers another backend to backend 0 |
| BalancerSpec.SomeBucketNotSticky | nf/maglev/balancer.h:48-60 | so for every flow of some bucket there is such a run from the initial state |
| BalancerRuns.LatestSign | nf/maglev/balancer.h:82 | on any run the time kept for a backend is that of its latest TCP or UDP packet; there is none if it sent none |
| BalancerRuns.LiveIffSign | nf/maglev/maglev.c:49-52 | on any run a backend is live exactly if it sent such a packet within the expiration time |
| BalancerRuns.SentIffSomeSign | nf/maglev/maglev.c:49-60 | with a good height, a client's packet is sent exactly if some backend sent one within the expiration time, and the backend it goes to did |
| BalancerRuns.OtherFlowStays | nf/maglev/balancer.h:44-80 | a packet of one flow leaves another where it is with its last use, unless it evicts it as expired |
| BalancerRuns.OwnFlowUsed | nf/maglev/balancer.h:51 | after a packet of its own a tabled flow was used just then |
| BalancerRuns.LastUseIsLatestPacket | nf/maglev/balancer.h:44-80 | on any run the last use of a tabled flow is the time of its latest packet |
| BalancerRuns.StaysTabled | nf/maglev/balancer.h:44-80 | a flow that its latest packet left tabled stays so while that packet is young |
| BalancerRuns.TabledIff | nf/maglev/balancer.h:48-77 | a client's packet leaves its flow tabled exactly if it is sent and the flow was tabled or some index available |
| BalancerRuns.OnlyClientsSent | nf/maglev/maglev.c:40-61 | only packets from clients are sent, as they came, and touch the flows |
| Balancer.Balancer.constructor | nf/maglev/balancer.h:32-42 | no flows, no live backends, settings as given; usable exactly if the hash table was filled inside its array |
| Balancer.Balancer.GetBackend | nf/maglev/balancer.h:44-80 | equals the specified choice, on flow table, pool and consistent hash table |
| Balancer.Balancer.PickBackend | nf/maglev/balancer.h:62-79 | equals picking by the row and remembering the flow if there is room |
| Balancer.Balancer.ProcessHeartbeat | nf/maglev/balancer.h:82 | makes a backend live at the given time and touches no flow and no other backend |
| Balancer.Balancer.Handle | nf/maglev/maglev.c:40-61 | equals the step function |
| Progressions.NoEarlyReturn | env/src/structs/cht.c:19-21 | steps of a backend's progression return to their start only after a full round, if no small number divides the height |
| Progressions.TermVisits | env/src/structs/cht.c:19-21 | such steps visit every residue in one round |
| ChtSpec.PreferenceIs | env/src/structs/cht.c:17-23 | backend b ranks bucket (31 b + (b + 1) rank) mod height at each rank |
| ChtSpec.PreferenceInjective | env/src/structs/cht.c:15-24 | a backend ranks every bucket at most once |
| ChtSpec.PreferenceSurjective | env/src/structs/cht.c:15-24 | a backend ranks every bucket, so its preferences are a permutation |
| ChtSpec.HitsSorted | env/src/structs/cht.c:26-35 | a bucket's entries are in strictly increasing order of rank, then backend |
| ChtSpec.HitsExact | env/src/structs/cht.c:26-35 | a bucket's entries are exactly the earlier positions at which a backend prefers it |
| ChtSpec.RoomForHit | env/src/structs/cht.c:30-33 | whenever an entry is written its bucket has room for it |
| ChtSpec.RowListsEachOnce | env/src/structs/cht.c:26-35 | each finished row is a permutation of the backends |
| ChtSpec.RowsListEachOnceIff | env/src/structs/cht.c:15-35 | all rows are permutations exactly if no number from 2 to the number of backends divides the height |
| ChtSpec.RowInPreferenceOrder | env/src/structs/cht.c:26-35 | of two backends in a row the first ranks the bucket first, or has the lower number on a tie |
| ChtRoom.CountedTwice | env/src/structs/cht.c:26-35 | the entries of a residue class of buckets, counted by bucket and by backend |
| ChtRoom.ManyEntries | env/src/structs/cht.c:15-35 | if the least divisor of the height is at most the number of backends, one class gets more entries than it has room for |
| ChtRoom.RoomIff | env/src/structs/cht.c:26-35 | every bucket has room for its entries exactly if no number from 2 to the number of backends divides the height |
| ChtSpec.CompositeHeightOverflows | env/src/structs/cht.c:26-35 | with height 4 and three backends the last bucket gets four entries, one past the end of the array |
| ChtSpec.ChooseSucceedsIff | env/src/structs/cht.c:42-53 | a backend is found exactly when one below capacity is live |
| ChtSpec.ChosenIff | env/src/structs/cht.c:45-51 | a backend is chosen exactly if it is live and none stored before it is |
| ChtSpec.ChosenIsPreferred | env/src/structs/cht.c:15-53 | with a good height no live backend ranks the bucket before the one chosen |
| ChtSpec.MinimalDisruption | env/src/structs/cht.c:42-53 | between two sets of live backends a flow moves only off a backend that is gone or onto one that is new |
| ChtSpec.RemovalMovesOnlyItsFlows | env/src/structs/cht.c:42-53 | removing backends moves only the flows sent to them |
| Cht.Permutations | env/src/structs/cht.c:15-24 | fills the preference table in place, every cell as specified |
| Cht.Fill | env/src/structs/cht.c:26-35 | for any height, stays inside the array exactly if every bucket's entries end inside it; with a good height every bucket holds its row |
| Cht.FilledHoldsRows | env/src/structs/cht.c:26-35 | the filled table holds every bucket's row |
| Cht.GoodHeightEndsInside | env/src/structs/cht.c:26-35 | a good height keeps the fill inside the array; height 4 with three backends does not |
| Cht.Cht.constructor | env/src/structs/cht.c:7-40 | for any height, usable exactly if the fill stayed inside, as it does with a good height |
| Cht.Cht.StoredIsRow | env/src/structs/cht.c:44-46 | with a good height what is stored for a bucket is its row |
| Cht.Cht.FindPreferredAvailable | env/src/structs/cht.c:42-53 | the first of those stored for the hashed bucket that is held and young in the pool; none exactly if none is |
| SpanningTree.HandleDecreases | nf/bridge/spanning_tree.h:63-85 | a BPDU leaves (root, cost, port) alone or makes it strictly smaller |
| SpanningTree.StpState.constructor | nf/bridge/spanning_tree.h:33-41 | a bridge knows only itself and blocks nothing |
| SpanningTree.StpState.HandlePacket | nf/bridge/spanning_tree.h:43-99 | announces when due, else handles a BPDU as specified and floods its view exactly on an update |
| SpanningTreeNet.StepShape | nf/bridge/spanning_tree.h:43-99 | no step makes any bridge's (root, cost) worse |
| SpanningTreeNet.AdoptedBacked | nf/bridge/spanning_tree.h:70-80 | what a bridge takes over is realised by the sender's path and one more link, visiting no bridge twice |
| SpanningTreeNet.BackedCostSmall | nf/bridge/spanning_tree.h:73 | costs never come near the 32-bit limit |
| SpanningTreeNet.StepKeepsGuided | nf/bridge/spanning_tree.h:63-96 | after any step, a bridge that follows another root has an open root port whose far end is one link nearer or knows better, and nothing worse is coming through it |
| SpanningTreeNet.InitialInv | nf/bridge/spanning_tree.h:33-41 | bridges that know only themselves satisfy the invariant |
| SpanningTreeNet.StepKeeps | nf/bridge/spanning_tree.h:43-99 | every announcement, delivery and loss keeps the invariant |
| SpanningTreeConvergence.HeldIsRealised | nf/bridge/spanning_tree.h:63-98 | on any run, what a bridge holds is realised by a path of that cost from that root |
| SpanningTreeConvergence.InFlightIsRealised | nf/bridge/spanning_tree.h:87-92 | on any run, so is every message in flight |
| SpanningTreeConvergence.RootPortNeverBlocked | nf/bridge/spanning_tree.h:63-96 | on any run, the root port of a bridge that follows another root is never blocked |
| SpanningTreeConvergence.QuietCostIsDistance | nf/bridge/spanning_tree.h:63-98 | in a connected network where no BPDU would change a root or cost, every root is the least id and every cost ten times the hop distance |
| SpanningTreeConvergence.QuietIffDistances | nf/bridge/spanning_tree.h:63-98 | and conversely |
| SpanningTreeConvergence.StableIffSettled | nf/bridge/spanning_tree.h:63-98 | no neighbour has news exactly when roots, costs and root ports form the shortest-path tree |
| SpanningTreeConvergence.EventuallyConstant | nf/bridge/spanning_tree.h:63-85 | a lexicographically descending (root, cost, port) changes only finitely often |
| SpanningTreeConvergence.Converges | nf/bridge/spanning_tree.h:43-99 | every fair run of a connected network reaches the shortest-path tree of the least bridge and stays there |
| SpanningTreeConvergence.LeastNeverReopens | nf/bridge/spanning_tree.h:63-96 | no step makes the least bridge open a blocked port |
| SpanningTreePorts.BlockedIff | nf/bridge/spanning_tree.h:63-96 | on any run a port is blocked exactly if a larger root than the bridge then held came in on it, with no update through it since |
| SpanningTreePorts.LeastBlockedIff | nf/bridge/spanning_tree.h:63-96 | the least bridge has blocked a port exactly if any larger root ever came in on it |
| SpanningTreePorts.RunNamesSenders | nf/bridge/spanning_tree.h:87-92 | on any run every message in flight names the bridge at the other end of the link as its sender |
| SpanningTreePorts.TwoIsFairRun | nf/bridge/spanning_tree.h:43-99 | a fair run of two bridges |
| SpanningTreePorts.OnlyLinkStaysBlocked | nf/bridge/spanning_tree.h:63-96 | on that run the network settles and its only link stays blocked at the root for ever |
| SpanningTreeLoops.GoesRoundIff | nf/bridge/spanning_tree.h:63-96 | on any run, flooded frames go round a cycle of links exactly if on every port through which it leaves a bridge each larger root that came in was followed by an update |
| SpanningTreeLoops.NeverDiesOut | nf/bridge/bridge.c:72 | a frame flooded into a cycle that stays open never dies out |
| SpanningTreeLoops.LeastFirstBlocksNothing | nf/bridge/spanning_tree.h:63-66 | if bridges announce only once they follow the least one, no port is ever blocked, in a network of any shape |
| SpanningTreeTriangle.SettledTriangleLoops | nf/bridge/spanning_tree.h:43-99 | a fair run of a triangle that settles with no port blocked, so that a flooded frame never dies out |
| TinyNfSafety.LeastDiffIsOldest | env/src/net/tinynf/ixgbe.c:1245-1255 | the lesser 64-bit wrapped difference belongs to the older unwrapped head |
| TinyNfSafety.InitialInv | env/src/net/tinynf/ixgbe.c:1050-1132 | the ring as set up satisfies the invariant |
| TinyNfSafety.CardReceivesKeeps | env/src/net/tinynf/ixgbe.c:1107 | receiving a packet keeps the invariant: no slot in use is overwritten |
| TinyNfSafety.CardTransmitsKeeps | env/src/net/tinynf/ixgbe.c:1260 | a transmitted packet is what the handler made of it, with the length chosen for that output |
| TinyNfSafety.WriteKeeps | env/src/net/tinynf/ixgbe.c:1231-1238 | writing a descriptor keeps the invariant |
| TinyNfSafety.WriteClearsOwnFlag | env/src/net/tinynf/ixgbe.c:1225-1234 | on the shared ring only output 0's write changes a done flag: it clears its own slot's, which was set |
| TinyNfSafety.ScanKeeps | env/src/net/tinynf/ixgbe.c:1245-1255 | looking at one more head keeps the invariant |
| TinyNfSafety.RecycleKeeps | env/src/net/tinynf/ixgbe.c:1256 | writing the receive tail keeps the invariant |
| TinyNfSafety.StepKeeps | env/src/net/tinynf/ixgbe.c:1179-1263 | every step of agent or card keeps the invariant |
| TinyNfRuns.CountersOrdered | env/src/net/tinynf/ixgbe.c:1179-1263 | in every reachable state reported head <= head <= tail <= processed <= received <= limit < reported head + 256, and registers are these modulo 256 |
| TinyNfRuns.HeadsMeetTailsOnlyWhenEqual | env/src/net/tinynf/ixgbe.c:1179-1263 | no tail laps its head: wrapped head and tail meet exactly when the counters are equal |
| TinyNfRuns.HandledInOrder | env/src/net/tinynf/ixgbe.c:1188-1199 | the handler gets every packet once, in order of arrival, as received |
| TinyNfRuns.OutputIsQueue | env/src/net/tinynf/ixgbe.c:1231-1262 | every output sends what the handler made of the packets, in order, each with the length chosen |
| TinyNfRuns.UnchosenOutputsSendNothing | env/src/net/tinynf/ixgbe.c:1199-1235 | at every handler call all lengths are zero, so an output it does not choose gets a null descriptor |
| TinyNfRuns.NoSlotReused | env/src/net/tinynf/ixgbe.c:1240-1257 | no slot is open for receiving while a packet in it is unprocessed or unsent by any output |
| TinyNfRuns.DoneExactlyWhenPending | env/src/net/tinynf/ixgbe.c:1188-1234 | the done flag is set exactly in slots received and not yet taken over for sending |
| TinyNfRuns.RecycleWritesOldest | env/src/net/tinynf/ixgbe.c:1245-1256 | the receive tail written is 255 slots on from the head found, which is no newer than any reported one, and not behind the last tail |
| TinyNfProgress.ScanKeepsLesser | env/src/net/tinynf/ixgbe.c:1249-1254 | each step of the scan keeps the lesser of the unwrapped heads kept and read |
| TinyNfProgress.ScanNotBehind | env/src/net/tinynf/ixgbe.c:1245-1255 | what no output was behind when a scan started, the head found is not behind |
| TinyNfProgress.ScanFindsOldest | env/src/net/tinynf/ixgbe.c:1245-1255 | the head found was reported for some output between the start and the end of the scan, and is no newer than any at the end |
| TinyNfRuns.TailNeverRetreats | env/src/net/tinynf/ixgbe.c:1256 | the receive tail never moves backwards on any run |
| TinyNfProgress.RecycleDooms | env/src/net/tinynf/ixgbe.c:1231-1256 | a recycle leaves the ring doomed exactly if the head found is 192 packets or more behind |
| TinyNfProgress.DoomedForever | env/src/net/tinynf/ixgbe.c:1179-1263 | once doomed, the limit never rises and nothing beyond it is received, on any run |
| TinyNfProgress.LookOnce | env/src/net/tinynf/ixgbe.c:1231-1256 | when everything flushed is sent, and reported as far as asked for, a scan ends with a tail at least 191 slots on from the delimiter, unless an older head was read already |
| TinyNfProgress.Rise | env/src/net/tinynf/ixgbe.c:1179-1263 | from a state not doomed some path leads to a higher limit, with a card that reports only the heads it is asked for |
| TinyNfProgress.CanReceiveMoreIff | env/src/net/tinynf/ixgbe.c:1179-1263 | from a reachable state more packets than the limit allows can be received, by a card that reports only the heads it is asked for, exactly if the ring is not doomed; if it is, by no card |
| TinyNfRuns.StuckForever | env/src/net/tinynf/ixgbe.c:1242-1257 | with everything processed and no slot open, no packet is ever received again |
| TinyNfRuns.CanGetStuck | env/src/net/tinynf/ixgbe.c:1231-1257 | such a state is reachable although everything was sent, and reported as far as asked for: no head was reported in time |
| TinyNfAgent.Agent.constructor | env/src/net/tinynf/ixgbe.c:1050-1132 | memory and registers as set up before the first packet |
| TinyNfAgent.Agent.CardMoves | env/src/net/tinynf/ixgbe.c:1243-1244 | whatever the card does between two accesses, shared memory stays as the state machine says and the agent's own variables stay put |
| TinyNfAgent.Agent.ReadMetadata | env/src/net/tinynf/ixgbe.c:1184-1192 | the done flag read is set exactly if a received packet waits to be handled |
| TinyNfAgent.Agent.CallHandler | env/src/net/tinynf/ixgbe.c:1195-1199 | the handler runs once on the next packet, in place: what was made of it is what the handler makes of the bytes and length received, with the lengths it chooses |
| TinyNfAgent.Agent.WriteDescriptors | env/src/net/tinynf/ixgbe.c:1231-1238 | the loop over outputs is that many steps of the machine, and reports when a recycle is due |
| TinyNfAgent.Agent.RecycleSlots | env/src/net/tinynf/ixgbe.c:1242-1257 | the loop over heads is the machine's scan, and ends by writing the tail |
| TinyNfAgent.Agent.FlushOutputs | env/src/net/tinynf/ixgbe.c:1258-1262 | all packets handled so far are handed to the card on every output |
| TinyNfAgent.Agent.RunPeragent | env/src/net/tinynf/ixgbe.c:1179-1263 | every call stays within the machine's reachable states, handles eight packets or else all that had arrived, each made of what was received by the handler, and flushes all it handled |
| ReplayOrder.RequestKeepsCompletion | tool/klint/verif/spec_prefix.py:196-211 | requesting a choice picks what running on leads to, dismissing candidates already picked |
| ReplayOrder.NoneBetween | tool/klint/verif/spec_prefix.py:205-208 | dismissing candidates passes over no picks that differ |
| ReplayOrder.BetweenSharesFailure | tool/klint/verif/symbex.py:56-62 | picks neither before the failed choices nor after the next ones agree with the failed ones |
| ReplayOrder.NextIsLater | tool/klint/verif/symbex.py:56-62 | the next choices come strictly later in the order tried |
| ReplaySpec.RunTakesFirst | tool/klint/verif/value_proxy.py:80-105 | a run with a recorded prefix takes the first path not yet explored |
| ReplaySpec.FlipContinues | tool/klint/verif/symbex.py:40-47 | popping false branches and flipping the last leads to exactly the paths after this one, or there are none |
| ReplaySpec.FailureIsLocal | tool/klint/verif/symbex.py:50-56 | a failure recurs under every vector that begins with the choices requested |
| ReplaySpec.EachPathThenAll | tool/klint/verif/symbex.py:35-47 | if every path listed succeeds, the program succeeds |
| ReplaySpec.PathsDistinct | tool/klint/verif/symbex.py:35-47 | no path is explored twice |
| ReplaySpec.RunNeverCrashes | tool/klint/verif/spec_prefix.py:205-209 | without crashes of its own, a run crashes only when a list of candidates runs dry |
| ReplaySpec.RunSettles | tool/klint/verif/spec_prefix.py:205-211 | a successful run leaves every choice it requested at a candidate not picked before |
| ReplaySpec.AsksThenFails | tool/klint/verif/spec_prefix.py:200-202 | picks that end where another one is requested do not suffice |
| ReplaySpec.RequestedPicksSuffice | tool/klint/verif/spec_prefix.py:196-211 | success and paths depend only on the picks that are requested |
| Replay.ExploreState | tool/klint/verif/symbex.py:33-47 | success means every path of the state succeeded and was listed, once, depth first; failure means every vector with these choices fails |
| Replay.ExploreAll | tool/klint/verif/symbex.py:33-49 | success means all states explored with all their paths, failure names a state that fails under every vector with these choices |
| Replay.MoveOn | tool/klint/verif/symbex.py:57-62 | the popping loop computes the next choices to try, none if all are at their last candidate |
| Replay.NonePassedOver | tool/klint/verif/symbex.py:56-62 | moving on from a failure passes over no picks, however many, that could succeed |
| Replay.AskedAreSettled | tool/klint/verif/symbex.py:49 | the choices returned are the candidates used, pairwise different |
| Replay.Search | tool/klint/verif/symbex.py:29-62 | the choices returned differ pairwise, make all states succeed with every path listed, and come before any other such picks for the choices that are requested; exhaustion means there are none; it aborts only after a crash or a list run dry |
| ReplayDry.DryPicks | tool/klint/verif/spec_prefix.py:205-208 | if a list's last candidate occurs in an earlier list, some different picks leave it dismissed |
| ReplayDry.LureRun | tool/klint/verif/spec_prefix.py:205-209 | on a program that fails until its choices are those picks, a run crashes or falls short of them |
| ReplayDry.NeverAbortsIff | tool/klint/verif/symbex.py:50-62 | searches of programs that do not crash themselves are safe from running dry exactly if no list's last candidate occurs in an earlier list |
| ReplayHidden.DryAt | tool/klint/verif/spec_prefix.py:205-209 | a crash of a program that does not crash itself is at a list run dry, after all choices before it were asked for |
| ReplayHidden.CrashHides | tool/klint/verif/spec_prefix.py:205-209 | if picks exist that succeed, then at such a crash an earlier pick could still have been moved on |
| ReplayHidden.HidesSuccessIff | tool/klint/verif/symbex.py:50-62 | an abort can hide a success exactly if some picks leave the next list's last candidate dismissed while one of them has a later candidate |
| ReplayHidden.DryWithoutHiding | tool/klint/verif/spec_prefix.py:205-209 | lists that can run dry and never hide a success |
| Replay.DryListHidesSuccess | tool/klint/verif/spec_prefix.py:205-209 | a program and lists for which the search aborts although later picks would succeed |

## Left out

- The hash function's internals: the map and the consistent hash table take an arbitrary function from keys to numbers.
- Byte-level memory: keys are compared as values; the allocator (`env/src/os/memory_alloc.c`) is taken to return fresh, zeroed, disjoint blocks.
- `HashMap.Map`: the overflow test on the size of the allocation is not modelled; capacities up to 2^63 are accepted.
- 64-bit overflow of times, as in `last_update_time + update_time`, and of products in the consistent hash table's progression; both are unbounded here. The index arithmetic of the map, the ports of the NAT, the elapsed time of the policer and the head difference of the agent do wrap as in the code.
- `PolicerLimits.WithinRateIff`: like `PolicerSingle.WithinRateIff`, for bursts below 2^63 and longer than the shortest packet, and lengths from which every total can be made up; that the bound holds under its condition is proved for all bursts and lengths (`PolicerSpec.WindowBound`).
- `PolicerIdeal.TokenBucketIff`: for tables of two entries or more, as with a single entry a bucket that is lost comes back only after two expiration times; that packets pass exactly if they fit all windows since their bucket was simply filled is proved for tables of any size (`PolicerIdeal.PassesWhatFitsIff`).
- `NatSpec.InboundIsReply`: like `NatRuns.InboundForwardedOnRunIff`, assumes at most 65536 flows; beyond that ports are shared, as `NatSpec.PortsDistinctIff` shows.
- Checksum updates, Ethernet addresses and header parsing: a packet is the fields the handlers look at.
- `Cht.Fill`: an entry too many overwrites the next bucket's part, as in the code; past the end of the array, where the code's behaviour is undefined, the fill stops. What the rows hold without a good height is not stated.
- Spanning tree: BPDUs are messages that reach the handler; link costs are all 10 and networks have fewer than 2^32 / 10 bridges; a packet that is overwritten by a due announcement counts as lost; the sender field is sent but, as in the code, never read.
- `SpanningTreeConvergence.Converges`: assumes fairness, that every port keeps hearing announcements sent no earlier than any given time; a bridge with a single port never announces on it, and the code insists on two.
- `TinyNf`: the card transmits or receives a whole packet in one step, reports heads in order, and obeys the tails; safety is proved for a card that may report any head, asked for or not; lengths fit the 16-bit field; the other descriptor bits, the physical addresses and the cache are not modelled.
- Device initialisation, registers other than heads and tails, PCI, DPDK and the operating system back ends.
- `Replay.Search`: conditions are two-way branches and no formulas, so the path condition is the list of outcomes; every request for the same choice offers the same candidates, which the source's own comment demands. `ReplayDry.NeverAbortsIff` is about chains of single runs, which is what a search of one program without branches consists of.
- The remaining tools (`tool/kalm`, ghost maps, heap, full-stack verification): their meaning depends on angr, claripy and Z3.
- DHCP, the router, `nop` and the Rust policer.
