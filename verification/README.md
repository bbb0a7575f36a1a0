# Verification of the proxy's core

A Dafny 4.11 model of the proxy's stateful core and proofs about it. `dafny verify dfyconfig.toml` checks
everything.

What changes things in place in the source is a class here, with the source's fields: rings of counters, hash
chains and recycle pool; connection records with their doubly linked list and free list; the event loop's arrays;
the plugin's flags and count; the command tree; the hash map; the configuration list with its stack. Every method
is proved to do to the heap what a function does to a value, and the theorems are about those functions and about
runs of them.

1. **Rate limiter and admission** (`AccessRing`, `RateTrace`, `ClockSteps`, `EntryChains`, `ChainPruning`, `BlacklistTable`,
   `Admission`). Twelve lazily cleaned cells, recycled records and an expiry pass refine a count over the history;
   from that follow exact admission and the rate bound over whole runs.
2. **Connection life cycle** (`EventTable`, `PluginHost`, `PluginRuns`, `ProxyModel`, `ProxyInvariant`,
   `ConnectionLists`, `ProxyService`, `ProxySystem`, `ProxyRuns`, `ProxyTraffic`, `ProxyReach`, `ProxyDriver`). One
   invariant over live list, pool, event slots, descriptors, plugin references and byte streams, kept by every step; the
   proxy thread and the idle sweeper as interleaved steps; what passes through a connection over a run; and the service
   object tied to those runs over its whole life.
3. **Command line** (`WordSplit`, `CommandPaths`, `CommandTree`), **hash map** (`HashMap`) and **configuration**
   (`ConfigModel`, `SysConf`).

## How the source is read

- Time is integer microseconds, as `tvsub` computes it (src/utils.c:14-21); a timeout of -1.0 is -1000000. Limiter
  time is the slot number, the clock divided by the period's twelfth.
- `find_and_increase` is one step, although its chain head is read before the lock and its increments come after
  (src/auto_blacklist.c:107, src/auto_blacklist.c:141-144).
- The sweeper's idle test and its critical section are two steps, as in src/proxying.c:270-275, so a handler may
  start in between; the snapshot and the test may fall into the middle of a handler, which is split into its time
  stamp and the rest. `maxHold` is the longest time between the two.
- The kernel, the database, the server pattern and the plugin's own behaviour are parameters of each step, free
  except that a new descriptor is not one that is open.
- Descriptors: the model keeps the set that is open, of the listener and of connections; one that is refused at once is
  opened and closed within its step.
- VIP status is fixed for an address where the rate bound needs it.
- A connection holds handle -2 for a side that found the event table full.

## What turned out not to hold

- Sweep safety is not a property of the code alone. Two things break it, each shown by a run: a handler that starts
  on an entry between its idle test and its eviction, however short it is (`ProxyRuns.RaceBreaksTheSweep`), and a
  handler that is held longer than the timeout (`ProxyRuns.SlowHandlerBreaksTheSweep`). Without either the sweep is
  safe, and only then (`ProxyRuns.SweepSafety`, `ProxyRuns.SafeExactly`).
- When the handler ends the connection, the sweeper ends it again and its record is pooled twice
  (`ProxyRuns.RacePoolsTwice`). The structures agree with each other in all states of a run exactly when every
  eviction hits a connection that is in the chain (`ProxyRuns.CoherentExactly`).
- In such runs the event count is one plus two per connection exactly as long as no more than 511 connections have been
  open at once (`ProxyReach.EventCountOverRuns`). An add that the kernel refuses raises the count unless the table is
  full (`EventTable.RefusedAddExact`, `ProxyRuns.RefusedAtStart`).
- A clock that goes back breaks the window count. `ClockSteps.TruthExactly` says exactly when the first attempt after
  a step back is still told the truth; `RateTrace.BackwardClock` is the smallest case where it is not. The totals
  stay balanced under any clock.
- A clock that goes back by a second or more can also keep the shutdown sweep from draining everything
  (`ProxyInvariant.FinalSweep`, `ProxyReach.BackwardShutdown`); under a good clock it drains everything after every
  run whose evictions hit the chain (`ProxyReach.FinalSweepDrains`).
- A hash can be negative and its index outside the bucket array (`HashMap.NegativeHash`). All keys over an alphabet
  are safe exactly when no character is above seven bits, or there is one bucket (`HashMap.SafeAlphabets`).

## Model

| member | source | states |
|---|---|---|
| `AccessRing.WalkStep` | src/auto_blacklist.c:78-79 | each step of the backward modular walk is at exactly one of the twelve cells, and its successor is the next one back |
| `AccessRing.CleaningCoversTheWindow` | src/auto_blacklist.c:75-99 | after cleaning at slot T the cell (T - j) mod 12 carries T - j, with its count kept if it stood for that slot and zero otherwise, for every j in 0..11 |
| `AccessRing.TotalIsTheSum` | src/auto_blacklist.c:84-85 | cleaning and counting keep the running total equal to the sum of the cells, whatever the clock does |
| `AccessRing.IpAccessEntry.Reset` | src/auto_blacklist.c:124-131 | a taken entry is cleared whatever it held before |
| `AccessRing.IpAccessEntry.CleanOne` | src/auto_blacklist.c:80-97 | one cell is put on its slot, and the total loses exactly what the cell loses |
| `AccessRing.IpAccessEntry.ClearOutdatedData` | src/auto_blacklist.c:75-99 | the in-place walk leaves the ring cleaned as a whole, and nothing else of the entry changed |
| `AccessRing.IpAccessEntry.CountAttempt` | src/auto_blacklist.c:138-144 | cleans only on a slot change, then counts one in the current cell and in the total |
| `RateTrace.RunAgrees` | src/auto_blacklist.c:101-224 | under a clock that never goes back, after any run of attempts and expiry passes every ring tells the truth about each slot it may still be asked about, and an address without a ring has no attempt in the window |
| `RateTrace.WindowRefinement` | src/auto_blacklist.c:101-158 | the counter an attempt at slot T is told is the number of attempts of that address in the history with a slot in [T - 11, T], whatever expiries and recyclings came before |
| `RateTrace.SweepExactness` | src/auto_blacklist.c:174-209 | after a pass at slot T the table holds exactly the addresses with an attempt in [T - 11, T] |
| `RateTrace.SweepsAreInvisible` | src/auto_blacklist.c:160-221 | two runs of the same attempts with passes put in or left out anywhere give the next attempt the same counter |
| `RateTrace.RunBalanced` | src/auto_blacklist.c:75-144 | totals are sums of cells after any run, also when the clock goes backwards |
| `RateTrace.BackwardClock` | src/auto_blacklist.c:138-144 | the smallest instance: attempts at slots 13 and 12 are counted as two in a window that holds one |
| `ClockSteps.AnyNextAttempt` | src/auto_blacklist.c:101-158 | what an attempt with any slot is told after a run under a good clock: the true count unless its slot is before the one its address was last counted or cleaned at; then the count of that later window, or one when it lies before that window |
| `ClockSteps.TruthExactly` | src/auto_blacklist.c:75-144 | that answer is the truth if and only if the slot is not before that one, or, while the ring still reaches back to it, as many earlier attempts enter the window by the step back as leave it, or, once the ring has forgotten, none lies in the window |
| `EntryChains.BucketIsMod` | src/auto_blacklist.c:104-104 | the bucket function the invariants use is the remainder by the table size |
| `ChainPruning.Unlink` | src/auto_blacklist.c:191-194 | unlinking through the cursor takes out one entry, keeps the entries before and after in order, and pushes it on the free list |
| `ChainPruning.PruneChain` | src/auto_blacklist.c:179-202 | the walk leaves the nonzero entries of the chain in their order, and the zero ones on the free list, last first |
| `ChainPruning.Parted` | src/auto_blacklist.c:186-201 | what a walk keeps and what it drops split the chain: every entry is in one of the two, with no entry twice |
| `BlacklistTable.Blacklist.Find` | src/auto_blacklist.c:106-120 | finds the entry of the address exactly when the table holds the address, in the chain of its own bucket |
| `BlacklistTable.Blacklist.AllocateNewEntry` | src/auto_blacklist.c:37-50 | takes the head of the pool, or makes a fresh entry when the pool is empty; the entry is in no chain and not in the pool any more |
| `BlacklistTable.Blacklist.Insert` | src/auto_blacklist.c:122-136 | an unknown address gets a cleared ring in an entry at the head of its own chain; no other chain, ring or pool entry changes |
| `BlacklistTable.Blacklist.FindAndIncrease` | src/auto_blacklist.c:101-158 | the table becomes the old one with one attempt counted, the returned counter is that of the address, and every entry is still in exactly one place |
| `BlacklistTable.Blacklist.FreeEntry` | src/auto_blacklist.c:52-57 | the entry becomes the head of the pool |
| `BlacklistTable.Blacklist.ReleaseAll` | src/auto_blacklist.c:206-209 | the free list ends up in the pool, reversed, in front of what was there |
| `BlacklistTable.Blacklist.SweepBucket` | src/auto_blacklist.c:175-209 | one bucket: survivors stay in order, the rest go to the pool, other buckets are untouched, and every entry ever made is still in exactly one place |
| `BlacklistTable.SweptEnds` | src/auto_blacklist.c:174-215 | bucket by bucket adds up to the pass over the whole table |
| `BlacklistTable.Blacklist.Expiring` | src/auto_blacklist.c:160-224 | a pass runs unless the slot equals the last pass's modulo 12, and then turns the table into the swept one; the pool grows by the number reported |
| `BlacklistTable.Blacklist.NoteTime` | src/proxying.c:704-704 | the record's log time changes, and no other record, ring or chain |
| `Admission.AcceptingRequest` | src/proxying.c:541-710 | one request on the heap table: its attempt is counted if it is one, the log time of its record is set or kept, and channel, flags, report and notice are those that EveryDecision spells out |
| `Admission.CounterIsTheWindow` | src/proxying.c:561-566 | in any timely run a counted attempt sees exactly the attempts of its address in the last twelve slots |
| `Admission.AdmittedExactlyWithin` | src/proxying.c:568-591 | a whitelisted, not blacklisted, not VIP attempt is admitted if and only if its true window count is at most the threshold and the channel chosen for it, fallback or default, is one |
| `Admission.AdmissionSeesTheWindow` | src/proxying.c:579-591 | an admission leaves no more than the threshold of admitted attempts in any twelve slots that contain it |
| `Admission.RateBound` | src/proxying.c:553-619 | an address that is never VIP gets at most the threshold of counted attempts through in any twelve consecutive slots of any run, with expiry passes anywhere |
| `Admission.Serve` | src/proxying.c:519-617 | the heap table driven by a whole run of requests and wake-ups of the expiry thread decides every request as EveryDecision spells out for the history; what it lets through of an address in twelve slots is what the history admits, and within the threshold when the address is never VIP |
| `Admission.EveryDecision` | src/proxying.c:541-710 | every decision of a run, by the number of arrivals of its address in the last twelve slots: a prepared request gets its own channel; strangers and the blacklisted get -1; uncounted peers and VIPs above the threshold the default server, others above it -1; the fallback exactly on even counts among the last seven when it differs and guessing failed; reported, noted and flagged exactly under the source's conditions |
| `Admission.LogIsTheLastMark` | src/auto_blacklist.c:122-136 | the log time is the clock of the last request that made the address's record or was noted as blacklisted half an hour after the log time before |
| `Admission.LogMarked` | src/auto_blacklist.c:122-136 | whenever an address has a log time there is such a last request |
| `Admission.ServerOf` | src/proxying.c:620-620 | an admitted channel is the index of an existing server when it already is one, and becomes server 0 when it is not |
| `EventTable.EventLoop.FindFirstFree` | src/events.c:26-42 | takes the lowest free slot, or extends the table by one, or answers -1 and changes nothing exactly when the table is full |
| `EventTable.EventLoop.RemoveEvent` | src/events.c:44-55 | frees the slot and lowers the high-water mark past free slots; an index out of range changes nothing |
| `EventTable.EventLoop.AddEvent` | src/events.c:57-81 | registers descriptor, handler and argument in the taken slot; -2 when full, -1 with the count left raised when the kernel refuses |
| `EventTable.EventLoop.Dispatch` | src/events.c:94-102 | the slot that is run belongs to the first ready descriptor that is registered; none is run only if none is registered |
| `EventTable.AddKeeps` | src/events.c:26-81 | an add keeps the table well formed: count equals occupied slots, top slot occupied, descriptors distinct; it changes one slot, the lowest free one |
| `EventTable.RemoveKeeps` | src/events.c:44-55 | removing a live handle frees that slot alone: trimming cuts off no live handle |
| `EventTable.FullExactly` | src/events.c:35-41 | the search finds nothing exactly when all slots are live |
| `EventTable.RemoveExact` | src/events.c:44-48 | after a removal the count is the number of live slots if and only if the removed slot was live |
| `EventTable.RefusedAddExact` | src/events.c:67-70 | after an add refused by the kernel the answer is -1 and the count is one higher, or, exactly when the table was full, -2 and the count unchanged; the same slots are live |
| `EventTable.RefusedAddKeeps` | src/events.c:35-70 | the table stays well formed if and only if it was full, or grew onto a slot whose stale descriptor passes for one of its own; and exactly when the count still matches the occupied cells, stale ones included |
| `ProxyRuns.RefusedAtStart` | src/events.c:26-70 | with only the listener registered a refused add leaves the count at two |
| `EventTable.EveryRunKeeps` | src/events.c:26-81 | every run of adds of new descriptors and removals of live handles keeps the table well formed |
| `PluginHost.PacketAnalyzer.Load` | src/packet_analyzer.c:36-65 | loads only when nothing is loaded; flags are reset as far as the loader gets |
| `PluginHost.PacketAnalyzer.Unload` | src/packet_analyzer.c:67-87 | unloads when nothing is held, and otherwise leaves the unload to the last release |
| `PluginHost.PacketAnalyzer.SetEnable` | src/packet_analyzer.c:89-93 | enables only a loaded plugin, and answers whether it is enabled |
| `PluginHost.PacketAnalyzer.Allocate` | src/packet_analyzer.c:103-112 | counts a reference exactly when data is handed out |
| `PluginHost.PacketAnalyzer.Release` | src/packet_analyzer.c:114-123 | drops a reference, and performs a deferred unload at zero |
| `PluginHost.PacketAnalyzer.AnalyzePacket` | src/packet_analyzer.c:135-164 | asks the plugin exactly under its three guards; a crash in safe mode disables it and defers the unload |
| `PluginHost.AllocateKeeps` | src/packet_analyzer.c:103-112 | after an allocation the count is the number of data held, all from the plugin in memory |
| `PluginHost.ReleaseKeeps` | src/packet_analyzer.c:114-123 | a release keeps that; the release that reaches zero performs a deferred unload and no other release unloads |
| `PluginHost.CommandsKeep` | src/packet_analyzer.c:36-93 | operator commands and crashes keep it; while data is held the plugin that made it stays, and data is analyzed only by the plugin that made it |
| `PluginRuns.ReleaseUnloadsExactly` | src/packet_analyzer.c:67-123 | in every history, a release unloads the plugin if and only if it gives up the last data held and, since the load, an unload was asked for while data was held or the plugin crashed |
| `PluginRuns.GivenExactly` | src/packet_analyzer.c:89-112 | in every history, a connection is given data if and only if the plugin gives some, is in memory, and the last enabling request was on with no load or crash after it |
| `PluginRuns.AnalyzedExactly` | src/packet_analyzer.c:135-164 | in every history, a packet is analyzed if and only if its connection holds data and the last enabling request was on with no load or crash after it |
| `PluginRuns.CommandsExactly` | src/packet_analyzer.c:36-93 | what load, unload and enable do and answer: loads only into empty memory, unloads exactly when nothing is held, enables exactly a loaded plugin |
| `ProxyInvariant.AcceptKeeps` | src/proxying.c:643-671 | taking in a connection keeps the whole cross-structure invariant: live list and pool split the records, each live connection owns its two event slots, every other live slot is the listener's, the plugin count is right, the streams agree |
| `ProxyInvariant.NewIsFresh` | src/proxying.c:641-647 | descriptors that are not open are exactly those that no live connection and not the listener holds |
| `ProxyInvariant.CloseKeeps` | src/proxying.c:116-147 | detaching, closing and pooling a live connection keeps the whole invariant |
| `ProxyInvariant.OpenedClosed` | src/proxying.c:142-145 | a close gives up exactly the two descriptors of its connection, which were open; what stays open is what the listener and the live connections hold |
| `ProxyInvariant.ForwardKeeps` | src/proxying.c:438-498 | forwarding any packet, with any writes, failures and crashes, keeps the whole invariant |
| `ProxyInvariant.StampKeeps` | src/proxying.c:436-437 | the time stamp keeps the whole invariant |
| `ProxyInvariant.AnalyzedKeeps` | src/proxying.c:456-456 | asking the plugin keeps the whole invariant |
| `ProxyInvariant.CarriedStreams` | src/proxying.c:442-487 | what was written in each direction is a prefix of what was read and all of it while the connection lives; the byte counters are those lengths; requests never exceed the allowance plus one |
| `ProxyInvariant.RoomForAccept` | src/proxying.c:644-671 | with two slots left an accept gets both handles and raises the count by two |
| `ProxyInvariant.SweepKeeps` | src/proxying.c:268-293 | an uninterrupted sweep closes exactly the connections of the snapshot that are idle beyond the timeout, changes no other, and keeps the invariant |
| `ProxyInvariant.FinalSweep` | src/proxying.c:858-861 | the final sweep empties the live list if and only if no live record was stamped a second or more after the sweep's clock reading |
| `ProxyInvariant.Drained` | src/proxying.c:856-861 | with no live connection every record is pooled, the plugin is not referenced, the listener's is the only live slot and its descriptor the only open one |
| `ProxyInvariant.DrainedExactly` | src/proxying.c:861-862 | all records are pooled exactly when none is live, and then removing the listener empties the event table |
| `ConnectionLists.DoublyWithout` | src/proxying.c:120-130 | relinking the neighbours of one node makes the doubly linked list of the others, in order |
| `ConnectionLists.DoublyPush` | src/proxying.c:105-111 | linking a record in front makes the doubly linked list with it as head |
| `ConnectionLists.ConnectionInfo.Fill` | src/proxying.c:646-652 | descriptors, counters and connection number are set, and beyond these lines plugin data, time stamp, handles and flag, whatever the recycled record held; the list links are left alone |
| `ProxyService.Service.AllocateConnectionInfo` | src/proxying.c:76-92 | takes the first pooled record or makes one; the record is in neither list |
| `ProxyService.Service.FreeConnectionInfo` | src/proxying.c:94-100 | the record becomes the head of the pool |
| `ProxyService.Service.AttachConnectionInfoEntry` | src/proxying.c:102-114 | the record becomes the head of the doubly linked live list and is counted |
| `ProxyService.Service.DetachConnectionInfoEntry` | src/proxying.c:116-136 | the record leaves the live list, others in order; nothing happens to one that is out already |
| `ProxyService.Service.CloseEvent` | src/proxying.c:138-147 | both event slots, both descriptors and the plugin data are given up, server slot first, and only for a record out of the chain |
| `ProxyService.Service.Close` | src/proxying.c:278-285 | detach, close and pool together, as both threads do it |
| `ProxyService.Service.AcceptConnection` | src/proxying.c:641-671 | the pointer and array updates of an acceptance are the modelled acceptance; without a server nothing changes |
| `ProxyService.Service.WriteAll` | src/proxying.c:463-478 | the write loop's total, which Written describes, and failure exactly when it falls short |
| `ProxyService.Service.DoProxying` | src/proxying.c:431-501 | the whole handler on the heap is the modelled stamp and forward, and nothing at all for a record out of the chain |
| `ProxyService.Service.ProxyFromClientToServer` | src/proxying.c:511-517 | reads the client's descriptor and counts as client traffic |
| `ProxyService.Service.ProxyFromServerToClient` | src/proxying.c:503-509 | reads the server's descriptor and counts as server traffic |
| `ProxyService.Service.Snapshot` | src/proxying.c:246-264 | the snapshot is the whole live list, head first |
| `ProxyService.Service.CleanIdleConnections` | src/proxying.c:241-304 | an uninterrupted sweep on the heap is the modelled sweep of the live list |
| `ProxyService.Service.AddListener` | src/proxying.c:849-849 | the listener's descriptor gets the event slot that an add gives it; nothing else changes |
| `ProxyService.Service.Operate` | src/packet_analyzer.c:36-93 | an operator's load, unload or enable changes the plugin as modelled and no connection |
| `ProxyService.Service.Shutdown` | src/proxying.c:856-864 | after the last sweep and the closing of the listener everything is pooled exactly when no live record was stamped a second ahead; then no reference, no event slot and no open descriptor is left |
| `ProxySystem.StepHolds` | src/proxying.c:241-517 | in every step, whatever handlers take: no stamp or number is ahead, a dispatched record keeps its connection, a handler's record is in the chain |
| `ProxySystem.StepBehind` | src/proxying.c:268-293 | in every step: an entry the sweeper is done with is out of the chain or was active since tv - timeout |
| `ProxySystem.StepCoherent` | src/proxying.c:241-517 | every step keeps lists, slots, descriptors, plugin count and streams coherent, if an eviction hits the chain |
| `ProxySystem.StepKeeps` | src/proxying.c:241-517 | every step of proxy thread, sweeper, clock and operator keeps the whole invariant with its promises about a pending sweep, when handlers are held no longer than the timeout and evictions are untouched |
| `ProxySystem.EvictKeeps` | src/proxying.c:273-288 | an untouched eviction keeps that invariant, under the same bound |
| `ProxySystem.FinishKeeps` | src/proxying.c:438-500 | the end of a handler keeps that invariant, under the same bound, with a snapshot pending or not |
| `ProxySystem.TakeInKeeps` | src/proxying.c:643-671 | recycling a record into a new connection keeps that invariant, under the same bound |
| `ProxyRuns.CoherentExactly` | src/proxying.c:241-517 | in every run, with handlers of any length, all states are coherent if and only if every eviction closes a connection that is in the chain |
| `ProxyRuns.MissPoolsTwice` | src/proxying.c:278-285 | an eviction of a record out of the chain pools it a second time and ends coherence |
| `ProxyRuns.RunInv` | src/proxying.c:241-517 | when handlers are held no longer than the timeout and no evicted entry was touched, every state of a run satisfies the whole invariant, with its promises about a pending sweep |
| `ProxyRuns.EvictionExact` | src/proxying.c:272-285 | in a reachable state an eviction hits a live, truly idle connection if and only if no handler started on it since its idle test |
| `ProxyRuns.SweepSafety` | src/proxying.c:241-304 | all evictions of a run are proper if and only if no evicted entry was touched between its test and its eviction, when handlers are held no longer than the timeout |
| `ProxyRuns.SafeExactly` | src/proxying.c:260-289 | untouched sweeps are safe in every run if and only if no handler may be held longer than the timeout |
| `ProxyRuns.SlowHandlerBreaksTheSweep` | src/proxying.c:435-498 | for every handler bound above the timeout: a record snapshotted while its handler stalls is closed and pooled by the handler and then by the sweeper again; it is in the pool twice and coherence is lost |
| `ProxyRuns.RaceBreaksTheSweep` | src/proxying.c:270-285 | for every timeout and handler bound there is a run in which a handler starts between an entry's idle test and its eviction, and the sweeper's eviction is not proper |
| `ProxyRuns.RacePoolsTwice` | src/proxying.c:270-285 | for every timeout and handler bound the same race with a handler that ends the connection puts its record in the pool twice |
| `ProxyReach.EventCountOverRuns` | src/proxying.c:643-671 | along a run whose evictions hit the chain the event count is one plus twice the number of connections if and only if no more than 511 connections have been open at once |
| `ProxyReach.FinalSweepDrains` | src/proxying.c:856-861 | after every run whose evictions hit the chain, the final sweep by the current clock empties the live list, pools every record, drops every plugin reference and leaves only the listener's slot and descriptor |
| `ProxyReach.BackwardShutdown` | src/proxying.c:858-861 | with a clock one second behind, the final sweep leaves a live connection |
| `ProxyDriver.AfterReachable` | src/proxying.c:241-517 | what one call from outside leaves, an uninterrupted sweep or a dispatch with its handler, is a state that the two-thread system reaches with every eviction hitting the chain |
| `ProxyDriver.ReadableIsSteps` | src/proxying.c:503-517 | a ready descriptor is the dispatch of it followed by the acceptance, or by the whole handler of its connection |
| `ProxyDriver.HandleReadable` | src/events.c:94-102 | on the heap a ready descriptor is looked up in the arrays and its handler run on the record its slot points to, as modelled |
| `ProxyDriver.Serve` | src/proxying.c:849-852 | each call turns the heap into the state the model gives for it |
| `ProxyDriver.Run` | src/proxying.c:845-852 | a service that is started and given any sequence of calls stands for a reachable state with all structures coherent |
| `ProxyDriver.Live` | src/proxying.c:845-864 | start, any calls, shutdown: every record is pooled, no plugin reference, event slot or open descriptor is left |
| `ProxyRuns.HandlerActsOnLive` | src/proxying.c:436-498 | in every run a handler that ends holds a record in the chain, so it never closes one that is closed already |
| `ProxyRuns.SweepCompleteness` | src/proxying.c:268-293 | in every run, when a sweep ends every snapshot connection is out of the chain or was active since tv - timeout |
| `ProxyRuns.DispatchExact` | src/events.c:94-101 | in a coherent state a ready descriptor runs the handler and the connection it was registered for, and nothing when it is nobody's |
| `ProxyRuns.DispatchedStays` | src/proxying.c:503-517 | in every run, between dispatch and handling the record is not recycled; at most it leaves the chain |
| `ProxyRuns.DispatchedIsHandled` | src/proxying.c:431-517 | from a dispatch, all earlier evictions having hit the chain, to the handler's turn, whatever the sweeper does in between: the handler runs on the live connection that owns the descriptor, its record unchanged; or the sweeper has closed it, and the handler changes nothing |
| `ProxyTraffic.LiveConnections` | src/proxying.c:438-497 | in every run, a connection in the chain has counted every packet read from either side since it was accepted and has written on every byte of them |
| `ProxyTraffic.HandlerLeavesOpen` | src/proxying.c:442-497 | in every run, a handler leaves its connection in the chain if and only if it read something, the packets its client sent before do not exceed the allowance, and some prefix of the write answers is all positive and sums to the bytes read |
| `ProxyTraffic.RunTally` | src/proxying.c:438-487 | in every run, counters and streams of any record are those of the packets handled since its last acceptance, cut and dropped ones included |
| `ProxyTraffic.Written` | src/proxying.c:463-478 | what is written is what a positive prefix of the write answers sums to, and the prefix ends only when all is written or the next answer is none, a failure, or too much |
| `ProxyTraffic.TakenIn` | src/proxying.c:641-671 | an acceptance puts exactly the new connection in front, with its peer's descriptors, the lowest free slot for its client, a fresh stamp, the next number, nothing counted, and plugin data exactly when there is some to give |
| `WordSplit.SpansAreTheWords` | src/cmdlintf.c:129-147 | the split is all the maximal runs of non-blanks, in order, and nothing else |
| `WordSplit.SplitJoin` | src/cmdlintf.c:129-147 | splitting undoes joining |
| `WordSplit.WordsAppend` | src/cmdlintf.c:73-83 | a blank separates: the words of two parts are those of the first and then of the second |
| `WordSplit.WordsFrom` | src/cmdlintf.c:67-85 | the line from the start of a word on has exactly the words from that one on |
| `WordSplit.BlanksAndCuts` | src/cmdlintf.c:104-104 | a blank is a space or a tab, and a word is cut to its first 63 characters |
| `WordSplit.NofWords` | src/cmdlintf.c:129-147 | counts the words of the split |
| `WordSplit.Nthword` | src/cmdlintf.c:87-116 | answers word n of the split, cut to 63 characters, if and only if 1 <= n <= the number of words |
| `WordSplit.Nthwordptr` | src/cmdlintf.c:67-85 | answers the line from the start of word n, under the same condition |
| `CommandPaths.RegisteredExact` | src/cmdlintf.c:341-393 | a registration succeeds exactly when no node is at its path; it adds the path and its prefixes and keeps every earlier node; a refused one changes nothing |
| `CommandPaths.RunExact` | src/cmdlintf.c:341-393 | after any registrations the nodes are the prefixes of the commands, each as the first registration through it made it |
| `CommandPaths.LookupIsLongest` | src/cmdlintf.c:405-424 | the lookup reaches k words if and only if the first k words are a prefix of a registered command |
| `CommandPaths.CommandGetsItsArguments` | src/cmdlintf.c:448-461 | a registered command followed by arguments that lead no deeper is called with the line from its first argument word on |
| `CommandPaths.EveryOutcome` | src/cmdlintf.c:448-491 | every line after any registrations: no such command if and only if its first word begins no command; otherwise by its longest path and the first registration through it: incomplete if that is not a command with a function, sent as it is if remote and connected, called with the rest of the line in every other case |
| `CommandPaths.SomethingLeads` | src/cmdlintf.c:405-424 | a line whose first word begins a command has a longest path and a first registration through it |
| `CommandPaths.ArgumentText` | src/cmdlintf.c:67-85 | a function is handed the end of the line from the first character of its first argument word on, and nothing when there is none |
| `CommandTree.CommandTree.FindChild` | src/cmdlintf.c:357-362 | finds the subcommand of that name exactly when there is one |
| `CommandTree.CommandTree.AddChild` | src/cmdlintf.c:365-374 | puts a bare node in front of the siblings; every other node stays where it was |
| `CommandTree.CommandTree.AddCommand` | src/cmdlintf.c:341-393 | growing the pointer tree is the modelled registration, with its answer |
| `CommandTree.CommandTree.FindMatchAsPossible` | src/cmdlintf.c:405-424 | walking the pointer tree finds the node, and the number of words, of the modelled lookup |
| `CommandTree.CommandTree.ExecuteLine` | src/cmdlintf.c:448-491 | the command found is called with its arguments, sent to the service, or reported missing or incomplete, as modelled |
| `CommandTree.RegisterAndExecute` | src/cmdlintf.c:341-491 | the tree grown by any sequence of registrations is the one they make, and a line is executed by it as modelled |
| `HashMap.HashBounds` | src/hash_map.c:26-35 | the hash lies strictly between the modulus and its negation |
| `HashMap.HashFits` | src/hash_map.c:30-32 | no step of the hash leaves the 32-bit signed range |
| `HashMap.SevenBitHash` | src/hash_map.c:26-35 | for seven-bit keys the hash is in [0, 31636373) |
| `HashMap.NegativeHash` | src/hash_map.c:31-38 | a key with a character above seven bits can hash below zero, to an index before the bucket array |
| `HashMap.SafeAlphabets` | src/hash_map.c:26-40 | for any table size, every key over an alphabet gets an index inside the bucket array if and only if no character of the alphabet is above seven bits or there is only one bucket |
| `HashMap.LongHash` | src/hash_map.c:26-40 | a negative character that the size divides, repeated 130 times, hashes below zero to no multiple of the size |
| `HashMap.DefaultHashingFunction` | src/hash_map.c:26-35 | the loop computes the hash |
| `HashMap.HashIsPolynomial` | src/hash_map.c:26-35 | the hash is congruent modulo 31636373 to the key read as a number in base 13, and is its remainder for seven-bit keys |
| `HashMap.RunExact` | src/hash_map.c:81-130 | after any operations a key is present exactly when one mentioned it, and holds the value of the last put, or else of the first put-if-absent |
| `HashMap.HashMap.FindData` | src/hash_map.c:42-54 | finds the node of the key exactly when the table has one |
| `HashMap.HashMap.Exists` | src/hash_map.c:56-64 | tells whether the map has the key |
| `HashMap.HashMap.Get` | src/hash_map.c:66-79 | answers the value of a present key and nothing for an absent one |
| `HashMap.HashMap.Insert` | src/hash_map.c:119-125 | a new node at the head of its own bucket adds one key to the map and changes no other |
| `HashMap.HashMap.PutIfAbsent` | src/hash_map.c:81-104 | keeps the value of a present key, adds an absent one, and answers what was held |
| `HashMap.HashMap.OverwritePut` | src/hash_map.c:106-130 | sets the value whatever the key held, and answers what was held |
| `HashMap.RunAll` | src/hash_map.c:81-130 | a new table after any sequence of puts and put-if-absents is the map they make |
| `ConfigModel.ReversalsCancel` | src/parser.y:36-42 | pushing under right recursion and popping into the list cancel out: the final at most 64 elements in source order |
| `ConfigModel.FinalElements` | src/sysconf.c:206-222 | what is kept of a list is its end, at most 64 elements |
| `ConfigModel.ReadsNumerals` | src/sysconf.c:124-124 | reading the decimal numeral of a number gives the number |
| `ConfigModel.TokensAreNumerals` | src/sysconf.c:209-209 | every token of digits is a decimal numeral with zeros in front, of the number it is read as |
| `ConfigModel.QuotationMarks` | src/sysconf.c:51-67 | quotation marks around a text are taken off, and a text without them is left alone |
| `ConfigModel.KeysAreFolded` | src/sysconf.c:239-239 | keys are the same when their characters are, a capital letter standing for its small one |
| `ConfigModel.LookupSeesTheLast` | src/sysconf.c:235-244 | a lookup answers with the last definition in the file of the key, compared without case, and with nothing only when there is none |
| `ConfigModel.ListsOfAFile` | src/sysconf.c:283-309 | asking for a list answers the final elements of the last definition of the key if that is a list of that type, and nothing otherwise |
| `SysConf.SystemConfig.AddentryString` | src/sysconf.c:69-88 | a new first entry with the text without its quotation marks |
| `SysConf.SystemConfig.AddentryInteger` | src/sysconf.c:120-130 | a new first entry with the number |
| `SysConf.SystemConfig.AddentryFlag` | src/sysconf.c:140-156 | a new first entry, on or off |
| `SysConf.SystemConfig.ListAppendInt` | src/sysconf.c:206-213 | pushes the number, or drops it when 64 are there |
| `SysConf.SystemConfig.ListAppendStr` | src/sysconf.c:215-222 | pushes the text without its quotation marks, or drops it when 64 are there |
| `SysConf.SystemConfig.CommaListNumber` | src/parser.y:36-38 | the rule's actions push the elements from the last to the first |
| `SysConf.SystemConfig.CommaListString` | src/parser.y:40-42 | the same for strings |
| `SysConf.SystemConfig.AddPreparedList` | src/sysconf.c:158-196 | a new first entry with the stack from the top down; the stack is empty and untyped afterwards |
| `SysConf.SystemConfig.VariableDefinition` | src/parser.y:25-34 | each definition adds exactly its own meaning, whatever was defined before: nothing is carried over from another list |
| `SysConf.SystemConfig.SystemDefinitions` | src/parser.y:21-23 | a file adds the meanings of its definitions, the last one first |
| `SysConf.SystemConfig.SysconfPtr` | src/sysconf.c:235-244 | the walk finds the newest entry of the key |
| `SysConf.SystemConfig.SysconfStrOrDefault` | src/sysconf.c:255-262 | the text of the newest entry of the key, or the caller's default |
| `SysConf.SystemConfig.SysconfIntOrDefault` | src/sysconf.c:264-271 | the number of the newest entry of the key, or the caller's default |
| `SysConf.SystemConfig.DataType` | src/sysconf.c:274-281 | the type of the newest entry of the key, an integer when there is none |
| `SysConf.SystemConfig.ReadStringList` | src/sysconf.c:297-309 | answers the strings of the newest entry of the key, with their number, when that is a string list |
| `SysConf.SystemConfig.ReadIntegerList` | src/sysconf.c:283-295 | the same for integers |
| `SysConf.ListFromFile` | src/sysconf.c:283-295 | reading a file and asking for an integer list: its final at most 64 elements in source order, with their number, from the last definition of the key |
| `SysConf.ValueFromFile` | src/parser.y:25-28 | reading a file and asking for a key last defined as a number, a string, on or off: the digits and their number; the text between the quotation marks and -1; 1 and on; 0 and off; each with its type |
| `SysConf.DefaultsFromFile` | src/sysconf.c:255-281 | a key that no definition has gives the caller's defaults |

## Left out

- Sockets, `epoll_wait`, name lookup, readline, logging and timers: their results are parameters.
- `src/db_service.c` and `src/db_mysql.c`: answers of the database are parameters of a request.
- `src/context.c`, signature code, `src/utils.c` print helpers and `text2macaddr`.
- `check_remote_ip_in_whitelist`: a request says whether its address is whitelisted.
- `set_default_channel` and `set_fallback_channel`: each request carries the channel configuration in force.
- `for_each` of the blacklist service and `success_counter` increments: they only feed reports.
- `ProxyModel.Accept`: assumes the kernel accepts both event registrations; what a refusal does to the count is
  `EventTable.RefusedAddExact`.
- Memory exhaustion, and the truncation of times, slots, counters and connection numbers to machine integers.
- The reuse of the sweeper's buffer between sweeps (src/proxying.c:247-256): the snapshot is a sequence.
- Progress of expiry: the guard compares slots modulo 12 (src/auto_blacklist.c:166-168), so passes are described only
  when they run; `BlacklistTable.Blacklist.Expiring` says when that is.
- `ProxyDriver.Serve`: calls on the heap run one at a time; the interleaving of the two threads is modelled on values in
  `ProxySystem`.
- `ConnectionLists.ConnectionInfo.Fill`: leaves out the record's address text, attempt count, start time, insert number
  and database request (src/proxying.c:653-659), which only reports and the database use.
- Load, unload and enable commands are single steps; `dlopen` and the plugin's own code are not part of this model.
- `HashMap.HashMap.Insert`: does not keep the back pointers of nodes, which only `remove` reads; `remove`, `clear` and
  `dispose` are not modelled.
- `WordSplit.Nthword`: does not model the five rotating buffers, so not how long an answer stays intact.
- `CommandTree.CommandTree.ExecuteLine`: a command sent to the service ends with the sending.
- `ConfigModel.Atoi`: numbers are unbounded, while `atoi` is undefined beyond the range of `int`.
- Token scanning and syntax errors of configuration files; a list entry's unset `value` member, which
  `sysconf_str` would return unset, is `None`.
- A list entry's copied array is a sequence once it is filled; nothing changes it afterwards.
