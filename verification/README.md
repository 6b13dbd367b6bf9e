# MeshRustic protocol verification

A Dafny model of the parts of the MeshRustic mesh router where state, time and scheduling meet, with proofs over
every run, every input or every peer. Each stateful component appears twice: once as a specification (a datatype and
functions, about which the run-level lemmas are proved), and once as the class, arrays and loops of the firmware,
whose methods are proved equal to the specification.

| files | component |
|---|---|
| `Machine.dfy` | fixed-width arithmetic, the wrapping clock, lists of distinct ids, little-endian words |
| `Bucket.dfy`, `Limiter.dfy`, `LimiterRuns.dfy`, `DestHistory.dfy`, `DropDecision.dfy`, `DropRules.dfy`, `LimiterRules.dfy`, `Graduation.dfy`, `BucketRuns.dfy`, `FloodBound.dfy`, `FloodRun.dfy`, `Budgets.dfy`, `EvictionReset.dfy`, `CrowdedTable.dfy`, `Establishment.dfy`, `ForgettingRun.dfy`, `NodeRateLimiter.dfy` | the rate limiter |
| `RelayWindow.dfy`, `WindowPlan.dfy`, `BroadcastRelay.dfy`, `RankingRule.dfy`, `TieBreaks.dfy` | the coordinated broadcast relay scheduler |
| `RingQueue.dfy`, `Airtime.dfy`, `RadioSlot.dfy`, `RadioRuns.dfy`, `RadioService.dfy`, `ChannelUse.dfy`, `RadioDevice.dfy` | the radio slot, its queues and its airtime ledger |
| `TopologyChunks.dfy`, `ChunkRuns.dfy` | the chunked topology protocol |
| `Ccm.dfy`, `CcmFormat.dfy` | AES-CCM against RFC 3610 |
| `Protobuf.dfy`, `AdminCodec.dfy`, `AdminSizes.dfy`, `AdminRoundTrip.dfy`, `AdminNormalForm.dfy`, `AdminEncoder.dfy`, `KnownFields.dfy`, `UnknownFields.dfy` | the administration codec |
| `ChannelAccess.dfy`, `PacketHistory.dfy`, `RelayChain.dfy`, `WireFormat.dfy` | the channel hold, the duplicate ring, the hop budget |

`dafny verify dfyconfig.toml` checks the whole project.

What is proved, in the system's own terms:

- **Rate limiter.** A tumbling window still bounds every sliding window, whatever is charged and whatever thresholds
  the charges bring: less than two full budgets pass in any 90 seconds, a bound that is met for every pair of
  thresholds; a trip silences two whole windows. So all young originators together pass at most 94 packets in any 90
  seconds, however many identities are minted, and a run from boot reaches the 94. For one originator and one kind of
  packet there is an account over every run: in any 90 seconds two budgets if it has an entry at the start, one more for
  each time it gets a new entry, and those packets that leave no entry, because the table is full of bans; the same for
  the airtime over one relay. One run meets the account with equality, any number of packets passing by evictions;
  another fills the table with bans, after which any number of packets of one more originator pass.
  In every reachable state the table keys are unique, the counts are within capacity, and young and alumni ids are
  distinct and disjoint. There the drop decision and the query are exactly rules over the fields and plain numbers, the
  airtime budgets of a busy channel included; a rule says who makes room, what is announced, who graduates and what event is told;
  the coverage snapshot agrees with the live predicate; the query predicts a drop that does not happen exactly for
  rebroadcast candidates whose relay's ban is lifted by the packet's own budgets, and misses one exactly where the
  packet's own charge decides, or a stranger or lower thresholds do. A limited entry survives any traffic
  of others. A destination trips exactly when a window's charges are diverse enough. A node stays established over
  exactly the runs without the one packet that finds both lists full, which a run from boot reaches; it is then young
  again exactly if everybody else in the young list is active.
- **Relay scheduler.** Picking the best and swap-erasing it is sorting, by a rule over the view and whatever the array
  order of the pool, and every position follows a plain formula. So peers
  whose views agree on the candidates rank alike, their positions are half an airtime apart, and the hashed tie-breaks
  neither collide nor swap them. The fallback position is clear of all ranked ones exactly when something was placed in
  the early window or nothing was ranked.
- **Radio slot.** Over every run and every driver: each queued frame is in exactly one account, is offered to the
  driver in order and at most once with an answer other than "not started", and only when every guard holds; the
  charged airtime of the last hour stays below the permitted share plus one frame. A service call makes an offer
  exactly under these guards, and what every call and every answer of the driver leaves behind is stated in full.
- **Topology chunks.** Whatever is lost, repeated, reordered or interleaved, the lists used are the lists published,
  exactly when the lists a sender publishes under one version are closed under exchanging their fronts: one list per
  version is enough, and so are lists of one packet. Otherwise a mixture is used, and a lemma shows one. A list in two
  chunks does arrive after any earlier chunks, although chunks of up to three other senders come in between; and
  after any chunks of at most four senders, well formed or not, a list is handed over exactly when its sender's last
  run of chunks completes it.
- **CCM, codec and the rest.** The in-place computation is the one of RFC 3610 and opens what it sealed; an
  administration message survives encoding and decoding exactly when it is canonical, also with unknown fields in it,
  every field means the same on any message so far, and no bounded vector ever drops a byte; the wrapping channel hold is the latest real deadline; the duplicate ring is a map that forgets after
  64 stores; a relay chain spends exactly one hop per relay.

Where the code and its own comments differ, the model follows the code. The comment at
`crates/mesh-routing/src/rate_limit.rs:876` says that a graduated node must remain established when the alumni table
is full; `note_originator` can drop it (`ForgettingRun.ForgettingHappens`), as `docs/INTEROP_CONTRACT.md:1005-1007`
admits. A receive failure (`crates/mesh-radio/src/slot.rs:146`) discards the report of a frame that finished in the
same call, so the model keeps a ledger of driver outcomes instead of the reports.

## Model

| member | source | states |
|---|---|---|
| Bucket.RefusedExactly | crates/mesh-routing/src/rate_limit.rs:988-1013 | a charge is refused exactly when the bucket was limited at that time or trips now |
| Bucket.SlidingBound | crates/mesh-routing/src/rate_limit.rs:258-282 | in any interval of one window length at most 2 * (trip - 1) unit charges are admitted |
| Bucket.SlidingBoundInRun | crates/mesh-routing/src/rate_limit.rs:258-282 | the same bound for any interval inside any longer run |
| Bucket.WeightedSlidingBound | crates/mesh-routing/src/rate_limit.rs:258-282 | the bound for charges of any amount under thresholds of their own: less than two ceilings in any window length |
| Bucket.SlidingBoundIsAttained | crates/mesh-routing/src/rate_limit.rs:269-281 | the bound is met for every trip threshold above one and every clear threshold |
| Bucket.TripSilencesTwoWindows | crates/mesh-routing/src/rate_limit.rs:988-1013 | after a trip at t, nothing is admitted before t plus two windows, however often it is tried |
| Bucket.QuietBanEnds | crates/mesh-routing/src/rate_limit.rs:259-267 | a sender that stays quiet for two windows after the trip is admitted again |
| Limiter.EvictionCandidate | crates/mesh-routing/src/rate_limit.rs:1037-1058 | the choice is never a limited entry while another exists, prefers remote entries, and then the oldest |
| Limiter.FirstAged | crates/mesh-routing/src/rate_limit.rs:863-867 | finds the first young entry that is past its age, and none only when all are active |
| LimiterRuns.SlotKeepsIds | crates/mesh-routing/src/rate_limit.rs:1084-1119 | placing an id keeps the keys unique and the count within capacity, and only ever replaces an unlimited entry |
| LimiterRuns.ApplyKept | crates/mesh-routing/src/rate_limit.rs:538-688 | every operation keeps the limiter's invariant |
| LimiterRuns.Reachable | crates/mesh-routing/src/rate_limit.rs:290-386 | every run from boot keeps keys unique, counts within capacity, and young and alumni disjoint |
| LimiterRuns.SnapshotAgrees | crates/mesh-routing/src/rate_limit.rs:433-473 | in every reachable state the snapshot blocks an id exactly when the limiter is on, warmed up, young-limited and the id is young |
| LimiterRuns.GateMatches | crates/mesh-routing/src/rate_limit.rs:131-139 | the active or the aged list, whichever the snapshot stores, answers like the live test |
| LimiterRuns.QueryNeverOverPredicts | crates/mesh-routing/src/rate_limit.rs:487-536 | for a packet that is not a rebroadcast candidate, a predicted drop is a real drop, and the query changes only age latches |
| LimiterRuns.SenderPredictionHolds | crates/mesh-routing/src/rate_limit.rs:487-536 | a drop predicted from the sender's own state holds for candidates too |
| DropDecision.ChargeRefused | crates/mesh-routing/src/rate_limit.rs:988-1013 | a charge is refused exactly when the bucket, as it was, is limited under the new clear threshold or this charge fills it |
| DropDecision.YoungOnceNoted | crates/mesh-routing/src/rate_limit.rs:895-925 | after the warm-up a noted node is young exactly when it was unknown or known for less than half an hour |
| DropDecision.DropsExactly | crates/mesh-routing/src/rate_limit.rs:538-688 | in every state of the invariant a packet is dropped exactly when a guard on the state before it holds; nearness in the graph plays no part |
| DropDecision.RelayStep | crates/mesh-routing/src/rate_limit.rs:627-687 | the relay pass is made exactly for candidates that nothing stops before it, and then decides |
| DropDecision.BanStandsExactly | crates/mesh-routing/src/rate_limit.rs:969-1013 | a relay the query reports as limited is refused exactly when its ban stands under the packet's own budgets |
| DropDecision.CandidateDroppedExactly | crates/mesh-routing/src/rate_limit.rs:487-688 | such a candidate is dropped exactly when something stops it before the relay pass or the ban stands |
| DropDecision.OverPredictsExactly | crates/mesh-routing/src/rate_limit.rs:487-688 | the query predicts a drop that does not happen exactly for a candidate that nothing else stops and whose relay's ban is lifted |
| DropDecision.QueryMayOverPredictCandidates | crates/mesh-routing/src/rate_limit.rs:487-536 | a run of three packets from boot, after which a candidate is predicted dropped and is not |
| DropRules.DropsByRule | crates/mesh-routing/src/rate_limit.rs:538-688 | in every state of the invariant a packet is dropped exactly by a rule over the fields: bans, filled buckets, ages and budgets in plain numbers |
| DropRules.PredictsByRule | crates/mesh-routing/src/rate_limit.rs:487-536 | the query answers exactly by its rule over the same fields, a ban in its second window included |
| DropRules.UnderPredictsExactly | crates/mesh-routing/src/rate_limit.rs:487-688 | a drop comes unpredicted exactly when the query fails and the packet fills a bucket, or is a stranger the list has room for, or its relay refuses it under its own budgets |
| DropRules.UseOnlyTightens | crates/mesh-routing/src/rate_limit.rs:969-986 | a packet that is dropped is dropped on a busier channel too |
| DropRules.RelayBoundary | crates/mesh-routing/src/rate_limit.rs:969-1013 | a candidate over an unlimited relay is dropped exactly from sixty times its airtime on up to a quarter of the channel, from thirty times on from half of it, and on a ramp between, within 2 and 12 seconds |
| DropRules.ClearIsQuarter | crates/mesh-routing/src/rate_limit.rs:983-986 | the clear budget is a quarter of the trip budget, within 0.5 and 4 seconds |
| LimiterRules.ChargeByRule | crates/mesh-routing/src/rate_limit.rs:988-1013 | a charge: the window goes on or starts anew, the count, the limit, the change and the refusal in terms of age and count |
| LimiterRules.OriginatorMakesRoom | crates/mesh-routing/src/rate_limit.rs:1037-1119 | in a full table the new entry replaces the first unlimited one that is outside the graph, farthest and oldest, or none |
| LimiterRules.RelayMakesRoom | crates/mesh-routing/src/rate_limit.rs:1121-1173 | the same for relays, by the age of their window |
| LimiterRules.DestMakesRoom | crates/mesh-routing/src/rate_limit.rs:1175-1228 | the same for destinations |
| LimiterRules.NewDestination | crates/mesh-routing/src/rate_limit.rs:741-802 | a destination charged first opens its window now, with one charge and its first sender |
| LimiterRules.AnnouncedExactly | crates/mesh-routing/src/rate_limit.rs:940-967 | a packet makes an announcement exactly when it trips the bucket of the young while the channel is quiet, no relay limited and the last one half an hour ago: of the first four young nodes |
| LimiterRules.EventByRule | crates/mesh-routing/src/rate_limit.rs:538-688 | the last event after a packet is the last one told by its destination, originator, the young bucket or its relay, under their names |
| LimiterRules.WarmAfterBoot | crates/mesh-routing/src/rate_limit.rs:895-901 | a known boot time ends the warm-up exactly half an hour later |
| Graduation.SnapshotLists | crates/mesh-routing/src/rate_limit.rs:433-472 | when a snapshot is open, and exactly which ids are in each of its two lists |
| Graduation.SnapshotGraduates | crates/mesh-routing/src/rate_limit.rs:433-472 | an open snapshot graduates exactly the listed nodes over half an hour old |
| Graduation.QueryGraduates | crates/mesh-routing/src/rate_limit.rs:487-536 | a query graduates its originator, or for a stranger all listed nodes, if over half an hour old and no ban answered before |
| Graduation.PacketGraduates | crates/mesh-routing/src/rate_limit.rs:940-967 | a packet graduates, besides what noting its originator does, exactly the nodes over half an hour that its announcement looks at |
| Graduation.UnresolvedAfter | crates/mesh-routing/src/rate_limit.rs:633-680 | the bucket of unresolved relays after any packet: opened by the first candidate that gets that far, charged only for an unnamed relay of an established graph |
| LimiterRuns.OriginatorBanSurvives | crates/mesh-routing/src/rate_limit.rs:1060-1119 | a limited originator entry stays as it is over any run of packets of others |
| LimiterRuns.RelayBanSurvives | crates/mesh-routing/src/rate_limit.rs:1121-1173 | the same for a relay entry |
| LimiterRuns.DestBanSurvives | crates/mesh-routing/src/rate_limit.rs:1175-1228 | the same for a destination entry |
| DestHistory.EntrySummarisesWindow | crates/mesh-routing/src/rate_limit.rs:716-738 | a destination entry is a summary of the charges of its current window: their number and their senders, up to eight |
| DestHistory.ChargeTripsExactly | crates/mesh-routing/src/rate_limit.rs:741-802 | a charge trips exactly when the entry is not limited and the window has 20 charges by three distinct senders |
| DestHistory.DestTripNeedsDiversity | crates/mesh-routing/src/rate_limit.rs:716-802 | over every run, a destination trip is reported exactly on a chargeable packet that completes a diverse window |
| FloodBound.YoungBucketStep | crates/mesh-routing/src/rate_limit.rs:538-688 | a packet of a young originator that passes was charged to the one shared bucket and admitted by it; nothing else touches that bucket |
| FloodBound.MintedFloodBound | crates/mesh-routing/src/rate_limit.rs:538-688 | after any run, all young originators together pass at most 94 packets in any interval of 90 seconds |
| FloodRun.FloodBoundIsMet | crates/mesh-routing/src/rate_limit.rs:538-688 | a run from boot in which 94 young originators pass one packet each within two milliseconds, wherever the graph places them |
| FloodBound.FloodIsSilenced | crates/mesh-routing/src/rate_limit.rs:538-688 | the packet that trips the shared bucket is dropped, and no young originator passes for two windows after it |
| BucketRuns.AccountBound | crates/mesh-routing/src/rate_limit.rs:988-1119 | in any window length: two budgets of a bucket that is there at the start, one for each time it comes into being, and what passes while there is none |
| BucketRuns.FollowedBound | crates/mesh-routing/src/rate_limit.rs:988-1013 | the case of a bucket that stays: less than two ceilings |
| Budgets.OriginatorBound | crates/mesh-routing/src/rate_limit.rs:538-688 | over every run, one originator's packets of one kind in any 90 seconds: two budgets if it has an entry at the start, one per new entry, and the packets that leave no entry |
| Budgets.KeptOriginatorBound | crates/mesh-routing/src/rate_limit.rs:538-688 | the case of an entry that stays in the table throughout: at most two budgets |
| Budgets.UnrecordedExactly | crates/mesh-routing/src/rate_limit.rs:1037-1119 | a packet that reaches the originator pass leaves no entry exactly if its sender had none and all sixteen entries are limited |
| Budgets.RelayAirtimeBound | crates/mesh-routing/src/rate_limit.rs:627-687 | over every run, the airtime over one relay in any 90 seconds: the same account with the ceiling of 12 seconds, whatever thresholds the packets bring |
| Budgets.KeptRelayBound | crates/mesh-routing/src/rate_limit.rs:627-687 | the case of an entry that stays in the table throughout: less than two full budgets |
| Budgets.UnrecordedRelayExactly | crates/mesh-routing/src/rate_limit.rs:1121-1173 | a candidate that reaches the relay pass leaves its relay without an entry exactly if it had none and there is no room |
| Budgets.UnresolvedAirtimeBound | crates/mesh-routing/src/rate_limit.rs:627-687 | all unresolved relays together: the same, without condition |
| Budgets.OriginatorAfter | crates/mesh-routing/src/rate_limit.rs:1084-1119 | an entry that is still in the table is where it was, and only its own packets change it |
| EvictionReset.EvictionResetsBudget | crates/mesh-routing/src/rate_limit.rs:1037-1119 | a run from boot that meets the account with equality: three packets of one originator pass per eviction of its entry, any number at one instant, under a trip threshold of four |
| CrowdedTable.CrowdedTableLetsPass | crates/mesh-routing/src/rate_limit.rs:1037-1119 | a run from boot in which sixteen limited originators fill the table and any number of packets of a seventeenth pass at one instant, all without an entry |
| Establishment.EstablishedIsNotYoung | crates/mesh-routing/src/rate_limit.rs:917-925 | an established node is young at no reading of the clock |
| Establishment.NotingKeepsEstablished | crates/mesh-routing/src/rate_limit.rs:869-915 | noting anybody keeps a node established exactly unless a stranger finds both lists full and that node is the first parked one |
| Establishment.ReceiveLooks | crates/mesh-routing/src/rate_limit.rs:538-688 | a packet changes the lists beyond its latches exactly by noting its originator, which it does unless it is exempt, stopped by its destination or undecoded |
| Establishment.OpKeepsEstablished | crates/mesh-routing/src/rate_limit.rs:538-688 | any operation keeps a node established exactly unless it is a packet that notes its originator and meets the guard of the forgetting branch |
| Establishment.EstablishedForever | crates/mesh-routing/src/rate_limit.rs:895-925 | over any run without such a packet an established node stays so, is never young and never blocked by the snapshot |
| Establishment.EstablishedThroughoutExactly | crates/mesh-routing/src/rate_limit.rs:895-925 | a node is established after every operation of exactly the runs without such a packet |
| Establishment.ForgottenIsYoungAgain | crates/mesh-routing/src/rate_limit.rs:908-925 | the dropped node counts as young exactly when everybody else in the list is active |
| ForgettingRun.ForgettingHappens | crates/mesh-routing/src/rate_limit.rs:908-914 | a run from boot of 128 nodes in the warm-up, one node heard twice and 31 newcomers, after which a stranger makes an established node young again |
| NodeRateLimiter.EvictionScan | crates/mesh-routing/src/rate_limit.rs:1037-1058 | the scan finds the specified eviction candidate |
| NodeRateLimiter.RateLimiter.SplitByAge | crates/mesh-routing/src/rate_limit.rs:433-473 | the two lists of the snapshot: active and aged ids |
| NodeRateLimiter.RateLimiter.TakeCoverageGate | crates/mesh-routing/src/rate_limit.rs:433-473 | the snapshot equals its specification and only latches ages |
| NodeRateLimiter.RateLimiter.NoteOriginator | crates/mesh-routing/src/rate_limit.rs:895-915 | admission of a first contact, graduation and expiry, as specified |
| NodeRateLimiter.RateLimiter.ExpireIfOld | crates/mesh-routing/src/rate_limit.rs:869-880 | an aged entry moves to the alumni by swap removal |
| NodeRateLimiter.RateLimiter.MaybeAnnounce | crates/mesh-routing/src/rate_limit.rs:940-967 | the announcement is made once per refractory time, with at most four young ids |
| NodeRateLimiter.RateLimiter.ChargeDestVolume | crates/mesh-routing/src/rate_limit.rs:741-802 | decision, table and event equal the specification |
| NodeRateLimiter.RateLimiter.ShouldDrop | crates/mesh-routing/src/rate_limit.rs:538-688 | the decision and the whole new state equal the specification |
| NodeRateLimiter.RateLimiter.WouldDrop | crates/mesh-routing/src/rate_limit.rs:487-536 | the prediction equals the specification; no bucket or table changes |
| RelayWindow.TieBreakBelowSpacing | crates/mesh-routing/src/coordinated_relay.rs:47-56 | the tie-break is at least 1 ms and within its range, which is below the half-airtime exactly above 20 ms |
| RelayWindow.AssignSpaced | crates/mesh-routing/src/relay_window.rs:84-124 | over any series of takes with the late rungs last, ranked positions are half an airtime apart and never before the frontier |
| RelayWindow.RankedPositionsSpaced | crates/mesh-routing/src/relay_window.rs:84-124 | the same from a new allocator, reservations mixed in |
| RelayWindow.TieBreaksKeepOrder | crates/mesh-routing/src/coordinated_relay.rs:53-56 | positions half an airtime apart stay in order after each node adds its own hashed tie-break |
| RelayWindow.FirstFreeIsClearExactly | crates/mesh-routing/src/relay_window.rs:130-136 | after any series of takes, the first free position is half an airtime clear of every ranked one exactly when the window holds a position or nothing was ranked; otherwise it is the first position given |
| WindowPlan.PositionsByFormula | crates/mesh-routing/src/relay_window.rs:23-124 | every take of a series receives the position of a formula: fifteen slots of the window, then the ladder behind sixteen slots |
| TieBreaks.XorBits | crates/mesh-routing/src/coordinated_relay.rs:53-56 | every bit of the hash is set exactly where packet and node differ |
| TieBreaks.TieBreakByHash | crates/mesh-routing/src/coordinated_relay.rs:47-56 | the tie-break is the hash of packet and node cut to its range, plus one; different nodes have different hashes |
| TieBreaks.CommittedAt | crates/mesh-routing/src/neighbor_graph.rs:1947-1975 | the committed instant is now plus the position plus the tie-break, on the wrapping clock |
| RelayWindow.PositionAllocator.Place | crates/mesh-routing/src/relay_window.rs:34-46 | a window position is given at the cursor, or refused, and the layout moves as specified |
| RelayWindow.PositionAllocator.Spill | crates/mesh-routing/src/relay_window.rs:94-100 | a ladder position, with the ladder's start fixed by the first one |
| RelayWindow.PositionAllocator.TakePosition | crates/mesh-routing/src/relay_window.rs:102-124 | the position and the allocator after a reservation, a rung or a late rung |
| BroadcastRelay.Best | crates/mesh-routing/src/broadcast_relay.rs:379-505 | the best candidate precedes every other eligible one; none only when nobody adds coverage |
| BroadcastRelay.PickSorts | crates/mesh-routing/src/broadcast_relay.rs:641-709 | the picks are exactly the candidates with coverage of their own, in strict order of preference |
| RankingRule.PicksByRule | crates/mesh-routing/src/broadcast_relay.rs:379-505 | the picks are the candidates that have not sent and reach somebody new: routers first, then the tier, more new targets, the lower price bucket of fifty, the id by the parity |
| RankingRule.BestByRule | crates/mesh-routing/src/broadcast_relay.rs:379-505 | the best candidate precedes every other one by that rule, and its target is a new one |
| RankingRule.PlanByRule | crates/mesh-routing/src/broadcast_relay.rs:559-772 | the plan of a picked node is its rank, the position of the formula and its first new target |
| BroadcastRelay.PickIgnoresPoolOrder | crates/mesh-routing/src/broadcast_relay.rs:99-136 | the array order of the pool does not matter |
| BroadcastRelay.TwoPoolsAreOneRanking | crates/mesh-routing/src/broadcast_relay.rs:641-709 | ranking the routers and then the others is one ranking of all |
| BroadcastRelay.RankedExactly | crates/mesh-routing/src/broadcast_relay.rs:654-709 | a node ranks itself exactly when it is a candidate that has not sent and adds coverage |
| BroadcastRelay.PlanAgrees | crates/mesh-routing/src/broadcast_relay.rs:559-709 | nodes whose views agree on eligibility and ranking entry of the pool's members compute the same plan for every node |
| BroadcastRelay.LadderSafety | crates/mesh-routing/src/broadcast_relay.rs:559-772 | peers with such views, and the same packet and airtime, get distinct indices, positions half an airtime apart, and send instants in that order after their tie-breaks |
| BroadcastRelay.CommitsClear | crates/mesh-routing/src/neighbor_graph.rs:1947-1975 | the delays committed to for two spaced plans are in strict order, each read from a wrapping clock of its own |
| BroadcastRelay.NodeSet.Insert | crates/mesh-routing/src/broadcast_relay.rs:111-121 | a new non-zero id is appended while there is room; otherwise nothing changes |
| BroadcastRelay.NodeSet.Erase | crates/mesh-routing/src/broadcast_relay.rs:123-131 | the id is replaced by the last one and the set stays distinct |
| BroadcastRelay.FindBest | crates/mesh-routing/src/broadcast_relay.rs:379-505 | the scan returns the specified best candidate |
| BroadcastRelay.RankNext | crates/mesh-routing/src/broadcast_relay.rs:654-709 | one turn: the best of the pool leaves it and receives the next position |
| BroadcastRelay.SplitPools | crates/mesh-routing/src/broadcast_relay.rs:641-652 | erasing while scanning splits the candidates into routers and others |
| BroadcastRelay.RankPool | crates/mesh-routing/src/broadcast_relay.rs:654-709 | the loop stops at the node's own rank, with the position the allocator gives that rank |
| BroadcastRelay.PlanBroadcastRelay | crates/mesh-routing/src/broadcast_relay.rs:641-709 | the two loops compute the plan of the specification |
| RingQueue.Compacted | crates/mesh-radio/src/queue.rs:142-163 | circular compaction in place leaves exactly the kept elements in order |
| RingQueue.CompactSlotsAt | crates/mesh-radio/src/queue.rs:142-163 | half way, the kept part lies at the front and the unread part is untouched |
| RingQueue.Ring.Push | crates/mesh-radio/src/queue.rs:111-119 | appends, or refuses a full ring; the tail stays head plus length |
| RingQueue.Ring.PushFront | crates/mesh-radio/src/queue.rs:121-129 | prepends, or refuses a full ring |
| RingQueue.Ring.Pop | crates/mesh-radio/src/queue.rs:165-173 | takes the front, or nothing from an empty ring |
| RingQueue.Ring.RemoveWhere | crates/mesh-radio/src/queue.rs:142-163 | filters the contents and returns how many were removed |
| Airtime.LogTracks | crates/mesh-radio/src/airtime.rs:68-77 | logging a transmission keeps the ring in step with the full event log |
| Airtime.TickTracks | crates/mesh-radio/src/airtime.rs:52-66 | so does the passing of a second, which clears the slot of a new minute |
| Airtime.RingIsLastHour | crates/mesh-radio/src/airtime.rs:93-110 | the sum of the ring is the sum of the log over this and the previous 59 minutes, until a minute saturates |
| Airtime.SmallRingIsLastHour | crates/mesh-radio/src/airtime.rs:93-110 | the same while the sum is below the counter's range |
| Airtime.AirTime.TickSecond | crates/mesh-radio/src/airtime.rs:52-66 | the arrays after a second equal the specification |
| Airtime.AirTime.LogAirtime | crates/mesh-radio/src/airtime.rs:68-77 | the arrays after a logged frame equal the specification |
| Airtime.AirTime.IsTxAllowed | crates/mesh-radio/src/airtime.rs:105-110 | allowed exactly below half the region's duty cycle, or in a region without one |
| ChannelUse.TickHears | crates/mesh-radio/src/airtime.rs:52-66 | a passing second keeps the six channel counters in step with the log of everything on the air |
| ChannelUse.LogHears | crates/mesh-radio/src/airtime.rs:68-77 | so does every logged frame, sent or received |
| ChannelUse.ChannelIsLastMinute | crates/mesh-radio/src/airtime.rs:84-91 | the sum of the counters is what was on the air in the present and the last five periods of ten seconds |
| RadioSlot.Receive | crates/mesh-radio/src/slot.rs:145-157 | receiving never touches the transmit side, keeps what waits, and stays within the queue |
| RadioRuns.TransmitConservation | crates/mesh-radio/src/slot.rs:96-214 | over every run each queued frame is in exactly one account, offers match outcomes, order is kept, and no frame is offered twice |
| RadioRuns.OffersAreGuarded | crates/mesh-radio/src/slot.rs:160-208 | every offer was made with nothing in flight, no restart pending, nothing waiting, an idle receiver, and both permissions |
| RadioRuns.RefusedStartKeepsQueue | crates/mesh-radio/src/slot.rs:183-196 | a send that was not started leaves the queue as it was |
| RadioService.ServiceExactly | crates/mesh-radio/src/slot.rs:96-214 | a service call offers the frame in front exactly when nothing is in flight, to restart or to hear and both permissions hold; the whole slot after every answer and after every other call |
| RadioService.ReceptionTakes | crates/mesh-radio/src/slot.rs:145-157 | reception takes the frames the driver has, in order, as many as there is room for, numbers them and counts their airtime |
| RadioService.CancelsExactly | crates/mesh-radio/src/slot.rs:226-231 | exactly the originator's frames of that id leave the queue, and a frame in flight stays there |
| RadioRuns.DutyCycleBound | crates/mesh-radio/src/slot.rs:177-204 | the ring holds the last hour's charged airtime, below 18 000 ms per percent plus one frame's clamp |
| RadioRuns.ServiceKept | crates/mesh-radio/src/slot.rs:96-214 | one service call keeps conservation, order, guards and the duty bound |
| RadioRuns.CancelKept | crates/mesh-radio/src/slot.rs:226-231 | so does cancelling queued frames |
| RadioDevice.Slot.EnqueueTx | crates/mesh-radio/src/slot.rs:218-220 | the object refines the specification's enqueue |
| RadioDevice.Slot.CancelTx | crates/mesh-radio/src/slot.rs:226-231 | and its cancel |
| RadioDevice.Slot.ReceiveAll | crates/mesh-radio/src/slot.rs:145-157 | the receive loop refines the recursive specification |
| RadioDevice.Slot.ServiceRadio | crates/mesh-radio/src/slot.rs:96-214 | one service call of the object is one step of the transition system |
| TopologyChunks.FlagsRoundTrip | crates/mesh-routing/src/neighbor_graph.rs:1113-1174 | the flag byte gives back index, more and continuation |
| ChunkRuns.BuiltInHalves | crates/mesh-routing/src/neighbor_graph.rs:1113-1174 | a list of up to 28 ids goes in one packet, a longer one in a full one and the rest |
| ChunkRuns.HeaderBits | crates/mesh-routing/src/topology.rs:97-123 | the flag byte bit by bit: routing, more, continuation, index |
| TopologyChunks.HandedListsArePublishedExactly | crates/mesh-routing/src/neighbor_graph.rs:1415-1476 | over every delivery, lists handed over under a sender and version were published under them exactly when those lists are closed under exchanging their fronts |
| TopologyChunks.HandedListsAreComplete | crates/mesh-routing/src/neighbor_graph.rs:1415-1476 | with one list under a version, whatever is handed over is that list |
| TopologyChunks.ShortListsAreNeverMixed | crates/mesh-routing/src/neighbor_graph.rs:1415-1476 | with lists of one packet, whatever is handed over is the list delivered |
| TopologyChunks.MixIsHanded | crates/mesh-routing/src/neighbor_graph.rs:1415-1476 | the front of one published list and then the rest of another are handed over as their mixture |
| TopologyChunks.InterleavedDeliveryCompletes | crates/mesh-routing/src/neighbor_graph.rs:1415-1476 | from empty slots, after any earlier chunks of at most four senders, a list in two chunks of one of them is handed over although any chunks of the others come in between |
| TopologyChunks.InOrderDeliveryCompletes | crates/mesh-routing/src/neighbor_graph.rs:1415-1476 | chunks delivered in order do hand the list over, from any state of the slots |
| ChunkRuns.HandedExactly | crates/mesh-routing/src/neighbor_graph.rs:1415-1476 | after any chunks of at most four senders, well formed or not, a chunk hands over exactly the list that its sender's unbroken run completes |
| ChunkRuns.FifthSenderDisplaces | crates/mesh-routing/src/neighbor_graph.rs:1415-1476 | four senders are the limit: a fifth takes the first slot, whose list is then never completed |
| TopologyChunks.ChangedListIsMixed | crates/mesh-routing/src/neighbor_graph.rs:1113-1174 | a neighbour leaves and another comes under one version: two lists of distinct ids of which the receiver acts on a mixture |
| TopologyChunks.Receiver.MergeChunk | crates/mesh-routing/src/neighbor_graph.rs:1415-1476 | the slots and the handed list after one chunk equal the specification |
| TopologyChunks.SlotOf | crates/mesh-routing/src/neighbor_graph.rs:1626-1632 | the sender's first own slot, else the first free one, else slot 0 |
| Ccm.OpenUndoesSeal | crates/mesh-crypto/src/aes_ccm.rs:163-225 | opening a sealed message gives the plaintext back |
| Ccm.OpenRefusesOtherTags | crates/mesh-crypto/src/aes_ccm.rs:189-225 | a message opens exactly with its own tag |
| Ccm.CtrUndoesCtr | crates/mesh-crypto/src/aes_ccm.rs:110-137 | counter mode is its own inverse |
| CcmFormat.FirstBlockOctets | crates/mesh-crypto/src/aes_ccm.rs:38-80 | the octets of B_0 as section 2.2 of RFC 3610 gives them |
| CcmFormat.CounterOctets | crates/mesh-crypto/src/aes_ccm.rs:105-137 | the octets of the counter blocks as section 2.3 gives them |
| CcmFormat.PaddedBlocksAre | crates/mesh-crypto/src/aes_ccm.rs:82-103 | the blocks hold the message and fewer than sixteen zeros |
| CcmFormat.AadBlocksAre | crates/mesh-crypto/src/aes_ccm.rs:38-80 | the additional data stands behind its length in two octets, before zeros |
| CcmFormat.MacIs | crates/mesh-crypto/src/aes_ccm.rs:38-103 | the authentication value is the block chain, from the front, over B_0, the data's blocks and the message's |
| CcmFormat.TagOctets | crates/mesh-crypto/src/aes_ccm.rs:139-161 | each octet of the tag is the chain's, masked with key stream block zero |
| CcmFormat.CipherOctets | crates/mesh-crypto/src/aes_ccm.rs:110-137 | each octet of the message meets its octet of the key stream, counted from block one |
| CcmFormat.AcceptedExactly | crates/mesh-crypto/src/aes_ccm.rs:228-244 | exactly which parameters are accepted; the limit of opening is what a frame of 255 octets leaves after header and envelope |
| Ccm.AuthStart | crates/mesh-crypto/src/aes_ccm.rs:38-80 | the state after the header equals the chain of section 2.2 of RFC 3610 over B_0 and the padded additional data |
| Ccm.AuthBlocks | crates/mesh-crypto/src/aes_ccm.rs:82-103 | absorbing the payload in place is the chain over its padded blocks |
| Ccm.Encr | crates/mesh-crypto/src/aes_ccm.rs:110-137 | the in-place loop is the counter mode of section 2.3 |
| Ccm.MaskWithS0 | crates/mesh-crypto/src/aes_ccm.rs:139-161 | the tag is masked with the key stream block of counter zero |
| Ccm.ConstantTimeCompare | crates/mesh-crypto/src/aes_ccm.rs:27-36 | true exactly for equal slices |
| Ccm.AesCcmAe | crates/mesh-crypto/src/aes_ccm.rs:163-187 | writes the ciphertext and tag of the standard, or rejects the parameters and writes nothing |
| Ccm.AesCcmAd | crates/mesh-crypto/src/aes_ccm.rs:189-225 | writes the opened plaintext exactly when the tag matches, and otherwise leaves the buffer unchanged |
| Protobuf.VarintReadBack | crates/mesh-routing/src/protobuf.rs:1-20 | every 64-bit value is read back from its varint, whatever follows |
| Protobuf.Int32ReadBack | crates/mesh-routing/src/protobuf.rs:28-31 | every int32, also a negative one in ten bytes, is read back |
| Protobuf.FoldField | crates/mesh-routing/src/admin_codec.rs:881-1057 | one written field is one turn of a decoder's loop |
| Protobuf.ReadVarint64Loop | crates/mesh-routing/src/protobuf.rs:1-15 | the shifting loop computes the group-by-group specification, overlong and truncated inputs included |
| Protobuf.DecodeFields | crates/mesh-routing/src/admin_codec.rs:881-1057 | the decoding loop computes the fold over the fields |
| Protobuf.PushVarint | crates/mesh-routing/src/admin_codec.rs:1167-1179 | with room, the loop appends the whole varint |
| AdminSizes.AdminFits | crates/mesh-routing/src/admin_codec.rs:807-879 | every message fits its vector of 240 bytes |
| AdminSizes.SecurityFits | crates/mesh-routing/src/admin_codec.rs:365-384 | every security configuration fits 200 bytes |
| AdminSizes.ChannelFits | crates/mesh-routing/src/admin_codec.rs:461-491 | every channel fits 96 bytes, its settings 80 |
| AdminSizes.UserFits | crates/mesh-routing/src/nodeinfo.rs:192-224 | every user fits 240 bytes, with room for a tag around it |
| AdminRoundTrip.LoraReadBack | crates/mesh-routing/src/admin_codec.rs:583-641 | a canonical radio configuration is decoded from its encoding |
| AdminRoundTrip.SecurityReadBack | crates/mesh-routing/src/admin_codec.rs:643-711 | so is a security configuration with up to three repeated keys |
| AdminRoundTrip.ChannelReadBack | crates/mesh-routing/src/admin_codec.rs:713-805 | so is a channel with nested settings |
| AdminRoundTrip.UserReadBack | crates/mesh-routing/src/nodeinfo.rs:226-300 | so is a user, under any node number |
| AdminRoundTrip.ConfigReadBack | crates/mesh-routing/src/admin_codec.rs:493-556 | so is every configuration |
| AdminRoundTrip.AdminReadBack | crates/mesh-routing/src/admin_codec.rs:881-1057 | every canonical administration message is decoded from its encoding |
| AdminNormalForm.DecodeGivesNormalForm | crates/mesh-routing/src/admin_codec.rs:807-1057 | decoding the encoding of any message gives its normal form, which is canonical |
| AdminNormalForm.OverlongIsDropped | crates/mesh-routing/src/nodeinfo.rs:192-199 | a user with an overlong name comes back as no payload at all |
| AdminNormalForm.RoundTripExactlyCanonical | crates/mesh-routing/src/admin_codec.rs:807-1057 | a message survives encoding and decoding exactly when it is canonical |
| UnknownFields.ConfigDecodersPassOver | crates/mesh-routing/src/protobuf.rs:34-45 | the configuration decoders pass over every whole field they do not ask for, on any message so far, and refuse a cut one or an unknown wire type |
| UnknownFields.MessageDecodersPassOver | crates/mesh-routing/src/protobuf.rs:34-45 | so do the decoders of channels, users, metadata, modules and administration messages |
| UnknownFields.FieldZeroRefused | crates/mesh-routing/src/admin_codec.rs:881-890 | a field of number zero refuses the message |
| UnknownFields.StrangeFieldsChangeNothing | crates/mesh-routing/src/protobuf.rs:34-45 | strange fields between known ones do not change what a decoder makes of its message |
| UnknownFields.AdminAmongStrangers | crates/mesh-routing/src/admin_codec.rs:881-1057 | every canonical administration message is decoded from its encoding with strange fields anywhere in it |
| KnownFields.LoraFields | crates/mesh-routing/src/admin_codec.rs:583-641 | what each field of a radio configuration does to any message so far, for any value |
| KnownFields.LoraRefuses | crates/mesh-routing/src/admin_codec.rs:583-641 | a number above 32 bits refuses it |
| KnownFields.SmallFields | crates/mesh-routing/src/admin_codec.rs:262-320 | the same for device, telemetry, position and fixed position |
| KnownFields.SecurityFields | crates/mesh-routing/src/admin_codec.rs:643-711 | the same for security: keys of another length and admin keys beyond three are passed over |
| KnownFields.ChannelFields | crates/mesh-routing/src/admin_codec.rs:713-805 | the same for channels and their settings: names and keys are cut to their buffers, refused settings refuse the channel |
| KnownFields.UserFields | crates/mesh-routing/src/nodeinfo.rs:226-300 | the same for users: only a short name makes one |
| KnownFields.ConfigFields | crates/mesh-routing/src/admin_codec.rs:493-556 | the same for configurations: the last kind counts, and a refused one refuses the whole |
| KnownFields.ModuleFields | crates/mesh-routing/src/admin_codec.rs:431-459 | the same for modules and metadata |
| KnownFields.AdminNumbers | crates/mesh-routing/src/admin_codec.rs:881-1057 | the requests and commands of a message; a command with the value zero is none |
| KnownFields.AdminParts | crates/mesh-routing/src/admin_codec.rs:881-1057 | its channel, users and passkey; a user without a short name and a passkey of another length are none |
| KnownFields.AdminConfigs | crates/mesh-routing/src/admin_codec.rs:881-1057 | its configurations |
| KnownFields.AdminModules | crates/mesh-routing/src/admin_codec.rs:881-1057 | its module configurations |
| KnownFields.AdminOthers | crates/mesh-routing/src/admin_codec.rs:881-1057 | its metadata and fixed position |
| AdminEncoder.EncodeLoraConfig | crates/mesh-routing/src/admin_codec.rs:343-363 | the pushes give exactly the format's bytes in 64 |
| AdminEncoder.EncodeSecurityConfig | crates/mesh-routing/src/admin_codec.rs:365-384 | the pushes and the key loop give exactly the format's bytes in 200 |
| AdminEncoder.EncodeChannel | crates/mesh-routing/src/admin_codec.rs:461-474 | exactly the format's bytes in 96 |
| AdminEncoder.PushShortTag | crates/mesh-routing/src/nodeinfo.rs:484-499 | the single tag byte the user's encoder pushes is the tag's varint |
| AdminEncoder.EncodeUser | crates/mesh-routing/src/nodeinfo.rs:192-224 | exactly the format's bytes in 240, or nothing for overlong names |
| AdminEncoder.EncodeConfig | crates/mesh-routing/src/admin_codec.rs:224-249 | exactly the format's bytes in 240 |
| AdminEncoder.EncodeAdminMessage | crates/mesh-routing/src/admin_codec.rs:807-879 | for every message, exactly the format's bytes in 240: nothing is dropped |
| AdminEncoder.DecodeAdminMessage | crates/mesh-routing/src/admin_codec.rs:881-1057 | the loop computes the specified decoding |
| ChannelAccess.HoldIsLatestDeadline | crates/mesh-routing/src/channel_access.rs:38-70 | with calls less than half the clock apart, transmitting is allowed exactly from the latest real deadline on, and the remaining time is exact |
| ChannelAccess.HoldLengths | crates/mesh-routing/src/channel_access.rs:48-56 | a reception holds the channel for its backoff, 250 ms at least, and a transmission for 100 ms |
| ChannelAccess.PassedHoldStaysPassed | crates/mesh-routing/src/channel_access.rs:57-62 | a hold seen to have passed never reappears, however the clock wraps |
| ChannelAccess.Access.Extend | crates/mesh-routing/src/channel_access.rs:38-45 | the fields after an extension equal the specification |
| ChannelAccess.Access.MayTransmit | crates/mesh-routing/src/channel_access.rs:57-62 | the answer, and the latch it clears |
| PacketHistory.StepRefines | crates/mesh-routing/src/packet_history.rs:52-92 | one call keeps the ring equal to the last 64 entries of the log, with the same answer |
| PacketHistory.RunRefines | crates/mesh-routing/src/packet_history.rs:52-92 | so does every run from an empty ring |
| PacketHistory.NewExactlyWhenForgotten | crates/mesh-routing/src/packet_history.rs:67-80 | a packet is new exactly when at least 64 entries were stored after each of its stays |
| PacketHistory.StaysRecordMaximum | crates/mesh-routing/src/packet_history.rs:52-84 | a stay records the largest hop limit seen, and upgrades at most as often as the largest hop limit |
| PacketHistory.History.ObservePacket | crates/mesh-routing/src/packet_history.rs:67-80 | the ring and the answer equal the specification |
| RelayChain.HeaderRoundTrip | crates/mesh-protocol/src/header.rs:100-123 | a header is decoded from its sixteen bytes |
| RelayChain.OneHop | crates/mesh-routing/src/relay.rs:19-65 | a relay happens exactly with hops left, spends one, keeps the packet's identity and payload, and repairs an inconsistent start |
| RelayChain.ChainBudget | crates/mesh-routing/src/relay.rs:19-65 | a chain of relays exists exactly up to the hop limit, which is at most seven, and preserves the packet |
| RelayChain.HopsAwayCounts | crates/mesh-routing/src/routing_ack.rs:46-54 | the distance a receiver computes grows by exactly one per relay |
| WireFormat.HeaderOctets | crates/mesh-protocol/src/header.rs:100-108 | which octets hold which field of the header |
| WireFormat.FlagOctet | crates/mesh-protocol/src/header.rs:40-98 | the bits of the flag octet; a header without a hop start names no hop and no relay |
| WireFormat.RelayedOctets | crates/mesh-routing/src/relay.rs:19-65 | a relay writes its own low octet and that of the next hop, and raises a start below the new limit |
| WireFormat.DistanceIsRelays | crates/mesh-routing/src/routing_ack.rs:46-54 | a packet that left its source with its full hop limit is as far away as it has been relayed |
| WireFormat.FrameIsFound | crates/mesh-radio/src/slot.rs:226-231 | cancelling by originator and packet id finds the frames with that header |
| WireFormat.VarintOctets | crates/mesh-routing/src/protobuf.rs:1-15 | a varint holds its number in groups of seven bits, lowest first, all octets but the last marked |
| RelayChain.EncodeTo | crates/mesh-protocol/src/header.rs:100-108 | the bytes written in place are the encoding and decode to the header |

## Left out

- `plan_broadcast_relay`: which neighbours are reserved, and what a neighbour that has already transmitted absorbs, come from the edge store; the ranking starts from the candidates, the covered set and the number of reservations they leave.
- The Downstream, Sparse and Acknowledgement fallbacks of the relay plan: they do not share the spacing of ranked positions (see `RelayWindow.FirstFreeIsClearExactly`).
- BroadcastRelay.LadderSafety: requires that the positions do not saturate 32 bits and that fewer than 255 are given, as the spacing does not hold beyond.
- BroadcastRelay.PlanBroadcastRelay: the candidates, the reservations and the covered set are its inputs.
- BroadcastRelay.CommitsClear: one commitment; reuse of an existing commitment by a later reception is not modelled.
- Link prices, coverage lists and graph proximity: computed by graph code that is not part of this model; they are functions of the node id. A mean price is a natural number, not a float.
- NodeRateLimiter.RateLimiter.ShouldDrop: channel utilisation and the airtime budgets scaled by it are reals, so single-precision rounding is not captured; the tables are bounded sequences in the array order of the source.
- DestHistory.ChargeTripsExactly: "20 charges" includes the case where the counter has saturated at its maximum.
- The announcement's text, the announce switch and the event consumers of the limiter: presentation.
- RadioRuns.DutyCycleBound: time on air is an arbitrary function of the payload length, clamped to 20 000 ms when charged, as the source clamps it; the percentages are compared in integers.
- RadioDevice.Slot.ServiceRadio: the service report's diagnostic fields, the last failure and the driver's configuration are not modelled; the frame handed over and the error are.
- TopologyChunks.Receiver.MergeChunk: the version gate before it may let any chunk through, and a restart of the sender after which the list is not applied is left out; so are edge updates and the per-neighbour bytes other than the id.
- Ccm.AesCcmAe: the block cipher is an arbitrary function of key and block; wiping of intermediate buffers is left out.
- AdminEncoder.DecodeAdminMessage: the loop over the fields is imperative; what one field does to the message, nested messages included, is a function.
- AdminRoundTrip.AdminReadBack: the storage of settings, authorisation and session keys around the messages are left out.
- ChannelAccess.HoldIsLatestDeadline: calls are less than 2^31 ms apart; further apart a wrapping clock cannot tell.
- RelayChain.OneHop: whether a node wants to relay, and which next hop it names, are inputs.
- Board code, the flash journal, telemetry, unicast routing, role and port tables, and the text console: hardware, presentation, or code settled by one branch.
