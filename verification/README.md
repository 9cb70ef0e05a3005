# Verified model of the clock-domain-crossing analyzer

The analyzer reads a netlist, labels every flop with a clock and reports data
paths that leave one clock and are captured in another. Nearly everything it
does is a bounded walk over one graph, made fast by pruning, caching, expanding
a cell once, or putting a block's port boundary in place of its cells. The model
defines that graph once and proves each fast form equal to a plain definition:
a distance ball, an explicit path, a recursive trace or a fold.

- **Graph** (`Netlist`, `Graph`, `Drivers`, `Fanout`). Cells, pins and bits;
  `Graph.Ball` is the set of nets within n edges, tied to explicit paths by
  `Graph.BallIsPaths`; the data edges are lane-precise.
- **Crossing search** (`FanoutFilter`, `CrossingSearch`, `Crossings`). The
  backward distance filter, the pruned level-by-level walk and the three kinds
  of source. `LaneSoundness` gives cells a meaning and shows what the edges may
  not miss; `BoundaryCover` compares a flat design with its abstraction.
- **Clock-root tracer** (`ClockTrace`, `ClockCells`). When a net resolves, which root it
  gets by the cell that drives it, and what the recorders are told.
- **Recognisers** (`SyncChain`, `PackedRegister`, `GrayEncode`, `CellWalk`,
  `Fanin`, `Feedback`). Chains dominate, packed depth is latency, accepted
  encoders change one bit, and the shared caches are exact.
- **Boundary walk** (`BoundarySummaries`, `Composition`, `ComposedCover`,
  `BlockBodies`, `OneBlock`, `CoverLimits`). The memoised summary per module type and clock-pin
  map against a fresh one, the covering theorem for what the walk hands out, from
  port facts found in the modules' own cells, a design it is carried out on, and the
  two shapes where a summary loses a crossing.
- **Clock graph and reader** (`MasterChains`, `ClockGraph`, `Tokenizer`,
  `ArgSlice`).
- **State machines** (`ResetChains`, `ClockNetwork`, `PragmaRegions`,
  `PragmaOrder`).

Loops of the source are methods with loops; dictionaries and sets are values the
methods reassign. Cells are named by their position in the netlist, which is the
order the dictionaries keep. Crossing records are a map from origin to sink
instead of a list. The backward distances are indexed clock first, then net. The
three textually equal forward walks of `find_crossings` are one method,
`CrossingSearch.Walk`, called with each kind of source; likewise the bounded
cell walks of the rules share `CellWalk.Walk`, and the two clock-network walks
share `ClockNetwork.BackwardCone`, each with a flag for expanding a cell once.

## Where the code and its own text disagree

The model follows the code. Each item names the lemma that shows it.

- README.md:105 says a larger `--clock-trace-depth` never resolves fewer flops.
  With declared clocks the decline at src/rtl_buddy_cdc/domain.py:506-510 breaks
  that (`ClockTrace.DeeperBudgetCanLoseTheRoot`); `ClockTrace.DeeperLosesIff` says
  exactly when.
- `$pmux` is among the lane-aligned types (src/rtl_buddy_cdc/domain.py:338). When
  its `S` and `Y` have the same width of at least two, a select bit is taken for
  a data lane (`LaneSoundness.AliasedSelectLosesDependency`).
- src/rtl_buddy_cdc/domain.py:334-337 says memory keeps the all-outputs fan-out so
  that no path is dropped. The outputs meant are those on `Y`; a net on any other
  output pin, as memory data, a latch's `Q` or the carries of an `$alu`, is never
  reached (`LaneSoundness.HiddenOutputLosesDependency`,
  `LaneSoundness.AllOutputsCoveredIff`).
- src/rtl_buddy_cdc/domain.py:265-267 says a foreign source still crosses into a
  sink without a known clock. The walks skip such sinks
  (src/rtl_buddy_cdc/domain.py:1385), so the crossing is lost
  (`CoverLimits.ClocklessBlockHidesCrossing`, `BoundaryCover.EntryReportedIff`).
- src/rtl_buddy_cdc/abstract.py:518-524 says an input nothing captures is covered by
  the output it feeds. It is not when that output is also driven by a register and
  so stamped with its clock (`CoverLimits.MixedFeedThroughHidesCrossing`). Such an
  input is covered exactly when the output has no clock or not the destination's
  (`BoundaryCover.ExitReportedIff`, `BoundaryCover.AcrossReportedIff`,
  `ComposedCover.MultiClockAcrossIff`).
- src/rtl_buddy_cdc/abstract.py:420-421 says the single capture clock is never
  picked among several. It is when they are synchronous
  (`BoundarySummaries.PickIsArbitrary`).
- src/rtl_buddy_cdc/abstract.py:82 says the unconstrained sentinel never counts as
  a known single clock. Alone it does (`ClockGraph.LoneSentinelIsSingleDomain`).
- src/rtl_buddy_cdc/rules.py:4270-4273 calls feedback a property of the crossing
  and caches it per source flop (`Feedback.SharedVerdictCanBeWrong`).
- src/rtl_buddy_cdc/reset_domain.py:254-257 describes a chain of asynchronously
  reset flops. Only the flop the walk starts from has to be one
  (`ResetChains.ChainMixesResetKinds`, `ResetChains.AllAsyncIff`).
- src/rtl_buddy_cdc/reset_domain.py:258-260 wants the head within `min_depth - 1`
  hops. The walk goes on for `min_depth + 4` flops (`ResetChains.RecognisedIff`,
  `ResetChains.HeadFurtherThanDocumented`).
- src/rtl_buddy_cdc/pragma.py:139-140 says regions of one pragma keep the order
  its rule ids were written. They keep the order they were closed
  (`PragmaRegions.OneLineKeepsClosingOrder`); `PragmaOrder.WrittenOrderIff` says
  exactly when the two agree.
- src/rtl_buddy_cdc/rules.py:4284-4287 says at most one bit of a gray source changes
  per cycle. The detector does not look at the output width; extended by its sign
  the top bit comes out more than once (`GrayEncode.AcceptedXorIsGrayIff`).

## Model

| member | source | states |
|---|---|---|
| `Netlist.ConnIsPin` | src/rtl_buddy_cdc/netlist.py:145-152 | a pin of a cell with distinct pin names is found under its own name |
| `Netlist.FlopIff` | src/rtl_buddy_cdc/flops.py:71-155 | a cell is a flop if and only if its type is listed or starts with a gate-level family and it has one clock bit, on `CLK` or, when that is not connected, on `C` |
| `Netlist.GateLevelNames` | src/rtl_buddy_cdc/flops.py:71-100 | a gate-level flop or latch is one whatever polarity suffix follows its family |
| `Drivers.BitDrivers` | src/rtl_buddy_cdc/domain.py:379-392 | for every net the driver kept is one that drives it and none is written later (cell order, `Q` after `Y`); a net without entry has no driver |
| `Drivers.BitReaderCount` | src/rtl_buddy_cdc/rules.py:923-942 | the count of a net is the number of pin positions that read it, outputs and `CLK` excluded |
| `Drivers.SingleReader` | src/rtl_buddy_cdc/rules.py:1195-1200 | a net counted once has exactly one reading position |
| `Fanout.BuildBitConsumers` | src/rtl_buddy_cdc/domain.py:1165-1181 | the index lists, for every net, exactly the pin positions that read it |
| `Fanout.EdgeIff` | src/rtl_buddy_cdc/domain.py:1646-1663 | one net feeds another if and only if a cell that is no flop and no `$scopeinfo` has the one on a pin other than `CLK` and the other on `Y`, in the same lane when lanes count, the type is lane-aligned and the pin is as wide as `Y` |
| `Fanout.FanoutOf` | src/rtl_buddy_cdc/domain.py:1411-1433 | one expansion yields exactly the nets one data edge further, lane by lane or through all outputs |
| `Fanout.AllOutputsReachNoLater` | src/rtl_buddy_cdc/domain.py:1566-1579 | the all-outputs walk of boundary sources reaches every net the lane walk reaches, at no greater distance, for every bound |
| `FanoutFilter.BuildReverse` | src/rtl_buddy_cdc/domain.py:1204-1231 | the shared predecessor lists, one per cell or lane, are exactly the reverse of the lane-precise edges |
| `FanoutFilter.AddCell` | src/rtl_buddy_cdc/domain.py:1208-1231 | adding one cell adds exactly that cell's edges |
| `FanoutFilter.SearchBack` | src/rtl_buddy_cdc/domain.py:1240-1262 | reading each shared list once still gives, for every net within the bound, its true shortest distance to the seeds, and no other net |
| `CrossingSearch.CollectSeeds` | src/rtl_buddy_cdc/domain.py:1233-1238 | per clock, exactly the D nets of the flops in that clock |
| `CrossingSearch.MakeFanoutFilter` | src/rtl_buddy_cdc/domain.py:1184-1271 | for every clock the stored distances are the exact backward distances to that clock's D nets |
| `CrossingSearch.BuildFlopByD` | src/rtl_buddy_cdc/domain.py:1346-1350 | a net is indexed under exactly the flops whose D pin it is on |
| `CrossingSearch.RecordHits` | src/rtl_buddy_cdc/domain.py:1380-1403 | after a net is visited each foreign sink on it holds exactly its visited nets and the least hop count among them |
| `CrossingSearch.Push` | src/rtl_buddy_cdc/domain.py:1424-1433 | every target ends up seen, keeps an earlier hop count and otherwise gets this level's |
| `CrossingSearch.ExactFilterKeeps` | src/rtl_buddy_cdc/domain.py:1264-1271 | the pruning test lets through every net from which a sink of another clock is still within the bound |
| `CrossingSearch.WalkComplete` | src/rtl_buddy_cdc/domain.py:1404-1405 | a walk pruned by any test that keeps the live nets sees every live net no later than its distance |
| `CrossingSearch.Walk` | src/rtl_buddy_cdc/domain.py:1360-1434 | pruned or not, from flops, ports or block outputs, the walk records exactly the foreign sinks within the bound, the D nets reached and the true shortest distance |
| `Crossings.BoundarySinkFlops` | src/rtl_buddy_cdc/domain.py:249-305 | the virtual sinks are exactly the summarised input ports with a connected net, each in its port clock or else the block clock |
| `Crossings.PutAllIsUpdate` | src/rtl_buddy_cdc/domain.py:1340-1344 | after the virtual sinks are put in, exactly the last entry of every name is left: a sink takes the place of a flop or sink of its name, and nothing else is lost |
| `Crossings.FindCrossings` | src/rtl_buddy_cdc/domain.py:1274-1603 | for every flop, typed port and block output the records are exactly those of its walk over flops and virtual sinks; what they are is said for each kind of origin by the three rows below, which the contract includes |
| `Crossings.FlopRecordsRight` | src/rtl_buddy_cdc/domain.py:1360-1438 | flop t is recorded for flop d if and only if both clocks are known and differ and a lane-precise path of at most `max_hops` cells leads from a Q net of d to a D net of t; the record holds the D nets so reached and the length of a shortest path |
| `Crossings.PortRecordsRight` | src/rtl_buddy_cdc/domain.py:1440-1498 | a sink is recorded for an input port if and only if the port is typed with a clock, the sink's clock is known and is not that one, and such a path leads from a net of the port; bits and hops likewise |
| `Crossings.BlockRecordsRight` | src/rtl_buddy_cdc/domain.py:1519-1594 | a sink is recorded for an output of a summarised block, found by its instance name or else its type, if and only if the sink's clock is known, the output has no clock or another one, and a path through all outputs of each cell leads from the nets on its pin; bits and hops likewise |
| `Crossings.ReportedIffPath` | src/rtl_buddy_cdc/domain.py:1360-1438 | a sink is reported for a source if and only if a data path of at most `max_hops` cells joins them, the sink has a known clock and it differs from the source's |
| `Crossings.MinHopsIsShortest` | src/rtl_buddy_cdc/domain.py:1393-1403 | `min_hops` is the length of some such path and of none shorter |
| `Crossings.RecordsAreUnique` | src/rtl_buddy_cdc/domain.py:1360-1438 | two exact records of one source are equal, bit sets and distances included |
| `Crossings.WalkBothWays` | src/rtl_buddy_cdc/domain.py:1404-1405 | the walk with the pruning test and the walk without it return the same records, for every netlist, clock labelling and bound |
| `LaneSoundness.EdgesCoverIffNotAliased` | src/rtl_buddy_cdc/domain.py:328-352 | the edges of a cell cover every dependency of every output lane if and only if it is not a `$pmux` whose `S` and `Y` widths coincide with a select net facing another output |
| `LaneSoundness.AllOutputsCoveredIff` | src/rtl_buddy_cdc/domain.py:334-352 | taking every output pin into account, the edges of a cell with an input net miss no dependency if and only if its select is not aliased and it drives nets through `Y` alone |
| `LaneSoundness.UnreachedKeepsValue` | src/rtl_buddy_cdc/domain.py:1646-1663 | in an acyclic netlist whose transit cells are all of that kind, a net the unbounded walk does not reach keeps its combinational value whenever, of the nets no transit cell drives, only the source changes |
| `LaneSoundness.OnlyYIsReached` | src/rtl_buddy_cdc/domain.py:1638-1643 | in every netlist a net on no `Y` pin is reached only as a source |
| `LaneSoundness.HiddenOutputLosesDependency` | src/rtl_buddy_cdc/domain.py:334-337 | a memory read, whatever it holds, and an open latch: the value on the output net changes with the input net and the walk from the input never reaches it |
| `LaneSoundness.LibraryIsLegal` | src/rtl_buddy_cdc/domain.py:328-352 | the concrete meanings of the lane-aligned cells, with arbitrary functions for all others, are meanings the soundness statement covers |
| `LaneSoundness.AliasedSelectLosesDependency` | src/rtl_buddy_cdc/domain.py:338 | a `$pmux` with two select and two output bits: output 1 follows select 0 and the walk from select 0 never reaches it |
| `BoundaryCover.CoverFrom` | src/rtl_buddy_cdc/domain.py:1519-1594 | a sink in the destination's clock on an owned path has a record in that clock from a net to a net of the path, neither after the sink, by induction over the blocks the path leaves |
| `BoundaryCover.AbstractionNeverUnderReports` | src/rtl_buddy_cdc/domain.py:249-305 | when blocks are replaced by their port boundary and their ports are stamped as what is behind them demands, every path the flat design reports and that is not wholly inside one block leaves a record captured in the same clock, between two nets of that path: feed-through, chained, multi-clock and unstamped blocks included |
| `BoundaryCover.SingleClockNeverUnderReports` | src/rtl_buddy_cdc/abstract.py:406-470 | blocks of at most one clock are so stamped: every flat crossing is covered as soon as a clock was found for the block of its destination, blocks without a clock anywhere else on the path included |
| `BoundaryCover.EntryReportedIff` | src/rtl_buddy_cdc/domain.py:298-303 | where a path enters a block, and nothing before is stamped with the destination's clock, a record into the block in that clock is left if and only if the block captures that input in that clock |
| `BoundaryCover.ExitReportedIff` | src/rtl_buddy_cdc/domain.py:1519-1594 | where a path leaves a block through parent logic for a sink in the destination's clock, the output reports that sink if and only if it is not stamped with that clock |
| `BoundaryCover.AcrossReportedIff` | src/rtl_buddy_cdc/domain.py:249-305 | across a block on the path, nothing before which is stamped with the destination's clock, a record in that clock is left if and only if the input captures in it or the output is not stamped with it |
| `BoundaryCover.SingleClockCapturesIff` | src/rtl_buddy_cdc/abstract.py:422 | a block of one clock captures what enters it in the clock of its flops if and only if a clock was found for it at all |
| `BoundaryCover.ClocklessIsNoSink` | src/rtl_buddy_cdc/domain.py:1385 | no record ends at an input stamped with no clock, for any source |
| `ComposedCover.OneRootIsSingleClock` | src/rtl_buddy_cdc/abstract.py:406-470 | a single-domain summary of one root at most stamps the block as the covering theorem asks, and has a clock exactly when a root was found |
| `ComposedCover.MultiClockAcrossIff` | src/rtl_buddy_cdc/abstract.py:510-532 | across a multi-clock block a record is left if and only if an input the path enters by was attributed to the destination's clock or the output it leaves by was not; for an input nothing captures, exactly when the output has no clock or another one |
| `ComposedCover.PortsRightIsStamped` | src/rtl_buddy_cdc/abstract.py:490-537 | a multi-clock summary does so when what the standalone pass said of each output holds of the flops behind it and of the inputs fed through to it |
| `ComposedCover.ComposedNeverUnderReports` | src/rtl_buddy_cdc/hierarchy.py:182-452 | the boundaries handed out by the walk over the instances, cached or fresh, of one clock or several, hide no crossing between flops that do not share a block |
| `BlockBodies.FoundLaunchIsRight` | src/rtl_buddy_cdc/compositional.py:438-459 | an output the standalone pass gave a clock is launched, in every placement of the module's cells, by flops of that clock alone |
| `BlockBodies.FoundCaptureIsRight` | src/rtl_buddy_cdc/compositional.py:352-376 | data from outside that a flop of the block captures enters by an input the standalone pass gave that flop's clock |
| `BlockBodies.FoundFactsNeverUnderReport` | src/rtl_buddy_cdc/hierarchy.py:182-452 | with the port facts found by the standalone walks on the modules' own cells, the composed boundaries hide no crossing between flops that do not share a block, as long as no clocked output of a multi-clock block is fed through to from an input of another clock |
| `OneBlock.CheckOneBlock` | src/rtl_buddy_cdc/hierarchy.py:182-452 | on a design with one block of two clocks the boundary walk and both searches produce all that theorem takes for granted: the composed boundary, the found port facts, the reported flat path |
| `OneBlock.PairCovered` | src/rtl_buddy_cdc/domain.py:1519-1594 | and the crossing from the parent's flop into the block's flop of clock `k` leaves a record captured in `k` |
| `CoverLimits.LabelIsTraced` | src/rtl_buddy_cdc/domain.py:802-815 | the flops of both designs below are labelled with the port their own clock net comes in by, which is what the clock-root tracer finds whatever the drivers, the budget and the clock set |
| `CoverLimits.ClocklessBlockHidesCrossing` | src/rtl_buddy_cdc/domain.py:265-267 | an instance whose clock pin is called `phi` has no classified pin and is summarised without a clock; with every flop labelled by its own clock net, the flat design reports the crossing into it and the parent nothing |
| `CoverLimits.MixedFeedThroughHidesCrossing` | src/rtl_buddy_cdc/abstract.py:518-524 | an instance with clock pins `clk_a` and `clk_b`, classified as such, and an output that combines a register and an input: the output is stamped with the register's clock; with every flop labelled by its own clock net, the flat design reports the crossing through it and the parent nothing |
| `CoverLimits.MixParentFits` | src/rtl_buddy_cdc/abstract.py:259-280 | the tracer on the parent's own netlist, with a specification that declares the two clocks, is such a parent |
| `CoverLimits.MixFactsAreFound` | src/rtl_buddy_cdc/compositional.py:341-446 | the port facts of that block are those the standalone walks find in its cells: no flop is reached from the input, and one is behind the output |
| `ClockTrace.TraceIsRootPath` | src/rtl_buddy_cdc/domain.py:518-696 | a returned root is an input port or generated-clock net joined to the bit by a simple path of at most `max_depth - 1` clock cells, none of which declines |
| `ClockTrace.PathResolvesOrDeclines` | src/rtl_buddy_cdc/domain.py:518-696 | a net so joined to a root within the budget resolves, unless the walk records a decline |
| `ClockTrace.ResolvesIffRootPath` | src/rtl_buddy_cdc/domain.py:518-696 | without a clock identity a net resolves if and only if such a path exists |
| `ClockCells.ResolvesByCell` | src/rtl_buddy_cdc/domain.py:518-696 | which root a net gets, for every netlist, clock set, divider setting and budget: the generated clock declared on it, else the input port it is on, else what its driver passes on from its pins by its type: a buffer its A, a mux its A or else its B, a divider its clock pin, a gate or latch the pick among its legs |
| `ClockCells.PickedLeg` | src/rtl_buddy_cdc/domain.py:465-515 | a gate or latch resolves to r if and only if no two of its legs bring different declared clocks and r is the root of the first leg that has a declared clock, or, when none has, of the first that resolves |
| `ClockCells.RecordedIffSaid` | src/rtl_buddy_cdc/domain.py:554-655 | a decline or a steering input is recorded if and only if the walk comes, leg by leg, to a cell that says so: a gate or latch where two declared clocks meet, naming all it saw, one that resolves, with the legs that do not carry the clock, or a mux that resolves, with its select |
| `ClockCells.MuxSelectIsRecorded` | src/rtl_buddy_cdc/domain.py:625-640 | a clock mux that resolves has its select recorded under its own cell |
| `ClockCells.GateEnableIsRecorded` | src/rtl_buddy_cdc/domain.py:604-623 | a gate or latch that resolves has every connected pin recorded that does not carry the clock it resolves to |
| `ClockTrace.RecordersAreInert` | src/rtl_buddy_cdc/domain.py:566-600 | the trace with both recorders attached returns the same root |
| `ClockTrace.ResolvesIffOpenPath` | src/rtl_buddy_cdc/domain.py:465-696 | for every netlist, clock set and budget a net resolves if and only if some simple path of clock cells within the budget joins it to a root without meeting a cell whose legs bring two declared clocks together |
| `ClockTrace.DeeperResolvesOrDeclines` | src/rtl_buddy_cdc/domain.py:518-696 | a net resolved at one budget resolves at every larger one or the larger walk records a decline |
| `ClockTrace.DeeperResolvesWithoutIdentity` | src/rtl_buddy_cdc/domain.py:518-696 | without a clock identity a larger budget never loses a root |
| `ClockTrace.DeeperLosesIff` | src/rtl_buddy_cdc/domain.py:506-510 | a net resolved at one budget is lost at a larger one if and only if every path to a root within the larger budget, and there are some, meets a decline |
| `ClockTrace.DeeperBudgetCanLoseTheRoot` | README.md:105 | a gate of one clock and a buffered second one, with the driver index of that netlist, resolves with a budget of 2 and not with 3, so the documented monotonicity fails |
| `SyncChain.IndexByD` | src/rtl_buddy_cdc/rules.py:1833-1840 | a net is indexed under a one-bit flop with that D pin exactly when there is one |
| `SyncChain.SyncChainFlops` | src/rtl_buddy_cdc/rules.py:1312-1356 | the list is the walk's chain from the head |
| `SyncChain.ChainShape` | src/rtl_buddy_cdc/rules.py:1180-1270 | the flops of a chain are distinct and each after the head is in the head's clock |
| `SyncChain.ChainDominates` | src/rtl_buddy_cdc/rules.py:945-1062 | every data path from the head's Q to a cell outside the chain and its reset muxes visits all chain flops in order |
| `SyncChain.StagesAreRecognised` | src/rtl_buddy_cdc/rules.py:1195-1270 | one-bit flops of one clock in a row, each fed by the Q before it with no other reader, directly or through a `$mux` with that net on one data pin and a constant on the other, whichever of the two it is, are all on the chain, in order |
| `SyncChain.ChainIsLongest` | src/rtl_buddy_cdc/rules.py:1195-1270 | the chain of a one-bit flop is itself such a row of stages, and every row from that flop is a prefix of it |
| `SyncChain.ResetMuxMeaning` | src/rtl_buddy_cdc/rules.py:945-1024 | a mux looked through drives exactly the flop's D and nothing else, has one leg all constant and the other not, and the leg returned is the other one |
| `SyncChain.ResetMuxIff` | src/rtl_buddy_cdc/rules.py:945-1024 | a mux is looked through if and only if it is a `$mux` driving the flop's first D net from `Y`, `Y` is D, both data pins are that wide, every output is read once, and one data pin is all constant and the other not; that other one is returned |
| `SyncChain.IndexByMux` | src/rtl_buddy_cdc/rules.py:1027-1062 | a net is indexed under a one-bit flop behind a reset mux with that data leg exactly when there is one |
| `PackedRegister.PackedDepth` | src/rtl_buddy_cdc/rules.py:1065-1177 | the recogniser returns a depth exactly when the head has the packed shift form, and it is the number of lanes the external bit runs through |
| `PackedRegister.GuardNeverFires` | src/rtl_buddy_cdc/rules.py:1163-1177 | the visited guard of the lane walk is unreachable: successors are injective and the external lane is nobody's successor |
| `PackedRegister.DepthInRange` | src/rtl_buddy_cdc/rules.py:1065-1177 | a returned depth is between 2 and the register width |
| `PackedRegister.LaneHoldsSample` | src/rtl_buddy_cdc/rules.py:1065-1177 | after any input sequence lane k of the walk holds the external bit sampled k + 1 edges earlier |
| `PackedRegister.DepthIsLatency` | src/rtl_buddy_cdc/rules.py:1065-1177 | the last lane holds the external bit sampled exactly `depth` edges earlier |
| `PackedRegister.CanonicalDepth` | src/rtl_buddy_cdc/rules.py:1065-1177 | the form `q <= {q[N-2:0], d}` with taps read once has depth N, whether D is written so or a reset mux has it on either data pin |
| `PackedRegister.ShiftVectorIff` | src/rtl_buddy_cdc/rules.py:1065-1130 | the vector tested is the data pin of the reset mux in front of the register when there is one, and D itself otherwise |
| `PackedRegister.OnlyShiftReads` | src/rtl_buddy_cdc/rules.py:1065-1177 | no lane of an accepted register before the last is read by anything but the register's own D, or the reset mux in front of it, which in turn only the register reads |
| `PackedRegister.SyncChainDepth` | src/rtl_buddy_cdc/rules.py:1180-1270 | the depth is the length of the chain, except that an accepted packed head has a chain of one flop and the packed depth |
| `GrayEncode.IncrementIsSuccessor` | src/rtl_buddy_cdc/rules.py:1766-1789 | the counter step is addition of one modulo 2^n |
| `GrayEncode.AcceptedIff` | src/rtl_buddy_cdc/rules.py:1790-1822 | a cell is accepted if and only if it is an `$xor` of an operand of two bits or more and that operand moved down by one with a constant moved in |
| `GrayEncode.GrayStepsOneBit` | src/rtl_buddy_cdc/rules.py:1807-1822 | the coded word of b and of b + 1 mod 2^n differ in exactly one bit, for every width from two, every b and either top constant |
| `GrayEncode.AcceptedXorIsGray` | src/rtl_buddy_cdc/rules.py:1807-1822 | so does the output of an accepted `$xor` as wide as its operands, or wider and extended by zero |
| `GrayEncode.AcceptedXorIsGrayIff` | src/rtl_buddy_cdc/rules.py:1811-1822 | an accepted `$xor` whose counter can step changes exactly one output bit at every step if and only if its output has that width, which the detector does not check |
| `CellWalk.Walk` | src/rtl_buddy_cdc/rules.py:807-853 | the walk collects exactly the cells entered from nets within the depth bound, whether each cell is expanded once or every time |
| `Fanin.ForwardReachableCells` | src/rtl_buddy_cdc/rules.py:807-853 | the cells found are exactly the depth-bounded closure over non-register cells, whichever expansion is used |
| `Fanin.BackwardFlopFanin` | src/rtl_buddy_cdc/rules.py:711-754 | exactly the flops whose Q drives a net within the bound, with the plain expansion |
| `Fanin.BackwardGraphEdges` | src/rtl_buddy_cdc/rules.py:856-904 | one step back goes from a net driven by a non-register output to the inputs of its driver, and nowhere else |
| `Feedback.FaninCache.Fanin` | src/rtl_buddy_cdc/rules.py:4173-4187 | the fan-in served is the flop's own whether cached or computed, and no earlier entry changes |
| `Feedback.ComputeFanin` | src/rtl_buddy_cdc/rules.py:4112-4129 | exactly the flops in the combinational fan-in of a flop's data and control pins |
| `Feedback.InputBitsAre` | src/rtl_buddy_cdc/rules.py:4112-4129 | the search starts from exactly the nets on the flop's pins other than its outputs and its clock, `CLK` or, for a flop type, `C` |
| `Feedback.HasDstToSrcFeedback` | src/rtl_buddy_cdc/rules.py:4132-4205 | with any valid shared cache the verdict is that some other flop of the destination clock feeds a register at most five source-clock hops behind the source |
| `Feedback.CachedVerdicts` | src/rtl_buddy_cdc/rules.py:4274-4320 | over any sequence of crossings each verdict is that of the first crossing with the same source flop |
| `Feedback.VerdictCacheExactIff` | src/rtl_buddy_cdc/rules.py:4309 | reusing the verdict per source flop is right on every netlist that has the crossings, with gated destination flops that take at least two nets of the source's bus, if and only if the crossings of each source flop share one destination clock |
| `Feedback.FirstVerdictWins` | src/rtl_buddy_cdc/rules.py:4307-4320 | of two crossings of one source flop, on any netlist, the second gets the verdict of the first |
| `Feedback.SharedVerdictCanBeWrong` | src/rtl_buddy_cdc/rules.py:4309 | a netlist with a bus taken by gated flops of two clocks, the source of which is fed back from a flop of the one: the crossing into that clock has feedback and the other has none, so the verdict it inherits is wrong |
| `BoundarySummaries.FindInstanceClocks` | src/rtl_buddy_cdc/abstract.py:179-286 | the root set and the clock pins are functions of the pin-to-root map alone, and the map is the one the next row describes |
| `BoundarySummaries.PinMapIff` | src/rtl_buddy_cdc/abstract.py:154-286 | the map holds an input or inout pin with root r if and only if it is connected and either its name is on the list and r is its trace through dividers, found or not, or its name looks like a clock and r is its trace without dividers, found and a declared clock or a port typed with one |
| `BoundarySummaries.SummariseSingleClock` | src/rtl_buddy_cdc/abstract.py:406-470 | every port is stamped with one clock, a member of the root set or none when it is empty |
| `BoundarySummaries.SummariseMultiClock` | src/rtl_buddy_cdc/abstract.py:473-537 | each port is stamped with its own domain, an uncaptured input left out |
| `BoundarySummaries.SummariseSubtree` | src/rtl_buddy_cdc/abstract.py:313-403 | the summary is one that the module, its analysis and the pin map allow, and it declines exactly when they say so |
| `BoundarySummaries.SummariesAgree` | src/rtl_buddy_cdc/abstract.py:313-403 | two summaries of one pin map decline alike and differ at most in which of several clocks of one root they stamp; with at most one root they are equal |
| `BoundarySummaries.PickIsArbitrary` | src/rtl_buddy_cdc/abstract.py:420-422 | a block on two synchronous clocks has two different summaries, so the pick the comment rules out is made |
| `BoundarySummaries.SingleDomainIsUniform` | src/rtl_buddy_cdc/abstract.py:430-470 | a single-domain summary has one clock throughout, every output as a source, every data input as a sink and no clock pin as one: what the covering theorem assumes of a block |
| `BoundarySummaries.SingleDomainHolds` | src/rtl_buddy_cdc/abstract.py:406-470 | all that a single-domain summary holds: the root of some clock pin, or none if no root was found, on exactly the output ports and the input ports that are no clock pins, each with its width and what the analysis proved of it, and the analysis' reconvergent inputs |
| `BoundarySummaries.SummaryExistsIff` | src/rtl_buddy_cdc/abstract.py:384-403 | an instance gets a summary if and only if its internals, if analysed, resolved, and its clocks are one domain or its analysed internals have clock roots and no input captured in two |
| `BoundarySummaries.MultiClockDeclinesIff` | src/rtl_buddy_cdc/abstract.py:473-537 | a multi-clock module declines exactly when it has no clock root of its own or some data input is captured in two domains |
| `BoundarySummaries.MultiClockIsPerPort` | src/rtl_buddy_cdc/abstract.py:490-537 | a multi-clock summary has exactly the data outputs as sources and the captured data inputs as sinks, each in the domain the analysis gave that port, with its width and what was proved of it, and no clock of its own |
| `BoundarySummaries.SynchronisedIsProven` | src/rtl_buddy_cdc/compositional.py:130-135 | in a summary of either kind a port counts as synchronised exactly when the analysis proved it so |
| `Composition.ClockOutputs` | src/rtl_buddy_cdc/hierarchy.py:302-320 | the types declined for forwarding a clock are exactly those with an instance that has an offending output |
| `Composition.VisitGeneric` | src/rtl_buddy_cdc/hierarchy.py:363-421 | one instance is served from the cache or summarised once, and every counter and set follows |
| `Composition.ComposeBoundaries` | src/rtl_buddy_cdc/hierarchy.py:182-452 | after the walk every instance is placed, counted and reported as its outcome says |
| `Composition.CacheIsTransparent` | src/rtl_buddy_cdc/hierarchy.py:372-398 | each generic instance has a summary that summarising it afresh allows, and instances of one key have the same |
| `Composition.GivenByInstance` | src/rtl_buddy_cdc/hierarchy.py:326-417 | what every instance ends up with, by its own pins: nothing, and its type declined, if some instance of the type drives a clock; else the macro summary; else what a fresh summary of its module under the clocks found on its own pins may be |
| `Composition.DeclinedExactly` | src/rtl_buddy_cdc/hierarchy.py:327-417 | a module type is declined if and only if some instance of it got no summary, so no instance is lost |
| `Composition.InstancesAccounted` | src/rtl_buddy_cdc/hierarchy.py:326-377 | instances are clock-output declines plus macros summarised plus cache hits plus distinct keys |
| `Composition.ReconvergenceUnsafeInstances` | src/rtl_buddy_cdc/hierarchy.py:455-500 | an instance is unsafe exactly when its internals were not analysed and crossings enter it by two different ports |
| `MasterChains.Resolve` | src/rtl_buddy_cdc/sdc.py:205-226 | terminates on every master map, cyclic ones included, with the root of the recursive definition |
| `MasterChains.RootIsFirstSettled` | src/rtl_buddy_cdc/sdc.py:205-226 | a name resolves to r if and only if r is the first clock of its chain that has no master or lies on a cycle |
| `MasterChains.RootIsIdempotent` | src/rtl_buddy_cdc/sdc.py:205-226 | resolving twice is resolving once, on every master map |
| `MasterChains.RootOfMasterIff` | src/rtl_buddy_cdc/sdc.py:205-226 | a clock and its master resolve alike if and only if the clock is off every cycle or is its own master |
| `ClockGraph.FindCycle` | src/rtl_buddy_cdc/sdc.py:476-494 | the walk from a generated clock finds the cycle its chain runs into, with exactly its members, and nothing when there is none |
| `ClockGraph.ReportMasterCycles` | src/rtl_buddy_cdc/sdc.py:473-502 | every cycle of generated clocks is reported exactly once, by exactly its members, and nothing else is |
| `ClockGraph.NoReportMeansEveryChainEnds` | src/rtl_buddy_cdc/sdc.py:473-502 | with masters on generated clocks only, no report holds exactly when resolving never takes its cycle guard, and then every clock resolves as its master does |
| `ClockGraph.UnmarkedCycleGoesUnreported` | src/rtl_buddy_cdc/sdc.py:477 | two clocks that are each other's master but not marked generated are resolved by the guard and not reported; the reader itself never builds such a pair, since it gives masters to generated clocks only |
| `ClockGraph.RelationsSymmetricIrreflexive` | src/rtl_buddy_cdc/sdc.py:228-297 | both pairwise relations are symmetric and irreflexive, for every specification |
| `ClockGraph.AsyncIff` | src/rtl_buddy_cdc/sdc.py:228-275 | two clocks are asynchronous if and only if they differ and one is the sentinel, or a statement puts their own names in different groups, or their roots differ and a false path joins the names or the roots, or a statement puts the roots in different groups |
| `ClockGraph.UnreachableIff` | src/rtl_buddy_cdc/sdc.py:277-297 | a crossing is unreachable if and only if the roots differ and an exclusive statement puts the two clocks in different groups, each counted to the first group with its name or its root |
| `ClockGraph.DeriveSubSpec` | src/rtl_buddy_cdc/compositional.py:183-244 | the projection keeps the parent's links and partitions, gives each root the pins it arrives on and declares the roots the parent never named |
| `ClockGraph.ProjectionPreservesAnswers` | src/rtl_buddy_cdc/compositional.py:208-210 | inside the subtree `resolve`, `are_async` and `is_unreachable_crossing` answer as in the parent for all names, and a pin is named by the root that arrives on it and by nothing else |
| `ClockGraph.IsSingleClockSubtree` | src/rtl_buddy_cdc/abstract.py:72-110 | the count test and the pairwise loop decide whether all clocks are named and pairwise of one domain |
| `ClockGraph.SingleDomainIff` | src/rtl_buddy_cdc/abstract.py:72-110 | two or more clocks are one domain if and only if all are named, share one root, none is the sentinel and no asynchronous statement separates two |
| `ClockGraph.LoneSentinelIsSingleDomain` | src/rtl_buddy_cdc/abstract.py:82-85 | the sentinel alone passes as a single clock, against the comment |
| `Tokenizer.Tokenize` | src/rtl_buddy_cdc/tcl_tokenizer.py:30-152 | the loop returns what the recursive reading of the text gives |
| `Tokenizer.ReadQuoted` | src/rtl_buddy_cdc/tcl_tokenizer.py:132-147 | the content and reach of a quoted word, escapes undone |
| `Tokenizer.PrintedReadsBack` | src/rtl_buddy_cdc/tcl_tokenizer.py:72-152 | non-empty commands printed in any mix of bare, braced, bracketed and quoted words read back as they were; braced and bracketed words need only close with their last character |
| `Tokenizer.QuotedReadsBack` | src/rtl_buddy_cdc/tcl_tokenizer.py:132-147 | any list of non-empty commands of any strings, each word quoted and escaped, reads back as itself |
| `Tokenizer.TextReadsAsLines` | src/rtl_buddy_cdc/tcl_tokenizer.py:30-152 | any text of lines with indentation, blanks, continued lines, comments and empty lines, the last one ended or not, reads as the words of its lines |
| `Tokenizer.ReadEscapedSome` | src/rtl_buddy_cdc/tcl_tokenizer.py:132-147 | a backslash in quotes stands for the character after it, whichever that is |
| `Tokenizer.UnclosedTakesTheRest` | src/rtl_buddy_cdc/tcl_tokenizer.py:98-147 | a brace, bracket or quote left open takes the rest of the text into its word |
| `ArgSlice.Slice` | src/rtl_buddy_cdc/sdc.py:962-1006 | the loop returns what bucketing word by word gives, unknown flags skipped by the operand heuristic |
| `ArgSlice.RenderedSlicesBack` | src/rtl_buddy_cdc/sdc.py:962-1006 | a tail followed by occurrences of flags in any order slices into that tail and each flag's operands in order |
| `ArgSlice.ParsedSlicesBack` | src/rtl_buddy_cdc/sdc.py:962-1006 | any `Parsed` of the table rendered tail first and flag by flag slices back to itself |
| `ArgSlice.ItemsSliceBack` | src/rtl_buddy_cdc/sdc.py:962-1006 | a command of flags, unknown flags with or without an operand and tail words in any order, perhaps ending in a flag whose operand is missing: each flag collects its operands in order, the tail its words, and nothing else is left |
| `ResetChains.TraceResetSyncChain` | src/rtl_buddy_cdc/reset_domain.py:355-418 | the loop returns the chain of the recursive walk |
| `ResetChains.TraceIff` | src/rtl_buddy_cdc/reset_domain.py:355-418 | a list of flops is the chain of its first one if and only if it is linked Q to D in one clock and one reset name and kind, fed by the constant at its head and within the bound |
| `ResetChains.ChainShape` | src/rtl_buddy_cdc/reset_domain.py:355-418 | a chain is simple, within the bound, and each of its suffixes is the chain of its own first flop |
| `ResetChains.SameDomainIff` | src/rtl_buddy_cdc/reset_domain.py:186-212 | two flops can stand on one chain if and only if they have one clock and their resets, asynchronous or not, one source: the same constant, the same input port, the Q of the same cell, or neither of them any of these |
| `ResetChains.FindResetSynchronizers` | src/rtl_buddy_cdc/reset_domain.py:232-299 | exactly the extra flops and the flops of every long enough chain of an asynchronously reset start; an error exactly below depth one |
| `ResetChains.IterResetSyncChains` | src/rtl_buddy_cdc/reset_domain.py:302-352 | one entry per head: of the chains with that head the longest, of those as long the first, with its constant and its start's polarity |
| `ResetChains.EnumerationAgainstRecognition` | src/rtl_buddy_cdc/reset_domain.py:232-352 | every enumerated flop is recognised, and every recognised one enumerated when no flop feeds the D pins of two |
| `ResetChains.RecognisedIff` | src/rtl_buddy_cdc/reset_domain.py:279-299 | a list of flops counts as the chain of its first one if and only if that one is reset asynchronously, the list is linked and fed by the constant, and it has between `min_depth` and `min_depth + 4` flops |
| `ResetChains.HeadFurtherThanDocumented` | src/rtl_buddy_cdc/reset_domain.py:258-260 | a chain of n stages is recognised exactly for n from `min_depth` to `min_depth + 4`, so the head may be more than `min_depth - 1` hops away |
| `ResetChains.AllAsyncIff` | src/rtl_buddy_cdc/reset_domain.py:414 | every recognised flop is reset asynchronously if and only if on no linked, constant-fed list of accepted length that starts at such a flop one that is feeds from one that is not |
| `ResetChains.ChainMixesResetKinds` | src/rtl_buddy_cdc/reset_domain.py:414 | a netlist, with its driver index, in which a synchronously reset flop heads the chain of an asynchronously reset one, since only name and source kind are compared |
| `ClockNetwork.BackwardCone` | src/rtl_buddy_cdc/clock_network.py:222-251 | skipping known cells or not, the walk collects exactly the cells that drive a net of the backward closure of its start |
| `ClockNetwork.StepsBeyondFanin` | src/rtl_buddy_cdc/clock_network.py:222-251 | one step back through anything but a register is exactly one step of the bounded fan-in walks |
| `ClockNetwork.ClockNetIff` | src/rtl_buddy_cdc/clock_network.py:228-233 | the walk of a flop starts at the one net on `CLK`, or on `C` without it |
| `ClockNetwork.ClockNetworkCells` | src/rtl_buddy_cdc/rules.py:2234-2273 | exactly the cells in the backward closure of some flop's clock net |
| `ClockNetwork.CellToDownstreamFlops` | src/rtl_buddy_cdc/clock_network.py:222-251 | each flop is listed under exactly the cells in the backward closure of its own clock net |
| `ClockNetwork.NetworkBothWays` | src/rtl_buddy_cdc/rules.py:2234-2273 | the cells found in one walk are the key set of the inverse map |
| `PragmaRegions.ScanText` | src/rtl_buddy_cdc/pragma.py:97-142 | the loops and the final close return the fold over the lines, sorted |
| `PragmaRegions.SuppressedIffLastDisables` | src/rtl_buddy_cdc/pragma.py:110-142 | a line is covered for a rule if and only if the last pragma naming the rule at or before it is a disable |
| `PragmaRegions.OneRegionPerOccurrence` | src/rtl_buddy_cdc/pragma.py:121-142 | there is exactly one region per disabled rule occurrence, opened on its line and with its reason |
| `PragmaRegions.RegionsOfOneRuleAreApart` | src/rtl_buddy_cdc/pragma.py:110-142 | two regions of one rule share no line |
| `PragmaRegions.SortIsStable` | src/rtl_buddy_cdc/pragma.py:139-141 | sorting keeps, for every line, the regions starting there in their order, and loses none |
| `PragmaOrder.LineIsInClosingOrder` | src/rtl_buddy_cdc/pragma.py:110-141 | for every file and line the regions starting on the line are those of its disabling rule ids, in the order they are closed, the ones never closed last and in the order written |
| `PragmaOrder.WrittenOrderIff` | src/rtl_buddy_cdc/pragma.py:139-141 | the rule ids of a pragma come out in the order they were written if and only if, along the list, no region is closed before an earlier one |
| `PragmaRegions.OneLineKeepsClosingOrder` | src/rtl_buddy_cdc/pragma.py:139-141 | two rule ids disabled together, the second enabled again: the second region comes first, against the comment |

## Left out

- BoundaryCover.AbstractionNeverUnderReports: crossings wholly inside one block are the standalone pass's to report; a wire that runs through a block joins two nets of the parent into one in the flat design, which the shared net numbers here cannot show.
- BoundaryCover.SingleClockNeverUnderReports: data that enters a block by a pin classified as a clock is outside it.
- ComposedCover.ComposedNeverUnderReports: assumes the port facts; BlockBodies.FoundFactsNeverUnderReport derives them from the modules' cells.
- BlockBodies.FoundFactsNeverUnderReport: assumes that a flop has the same label in the standalone pass and in the flat design, that outside data enters a block by its data input ports, modules with one driver per net, no output tied to another net of the same instance, fan cones within the walks' bound, inout ports that launch as they capture, and macro summaries that are right; a block stamped with one of several synchronous clocks is outside it.
- LaneSoundness.UnreachedKeepsValue: values are two-valued and settled; `x` and `z` propagation and feedback loops of combinational cells are not modelled.
- SyncChain.ChainDominates: assumes that flops drive only `Q` and muxes only `Y`, which holds for the cell families the recogniser accepts.
- Fanin.BackwardFlopFanin: the input ports that `_backward_fanin` also collects are not modelled, only its flops.
- Feedback.VerdictCacheExactIff: a destination counts as gated by its enable pin; the mux in front of D that the rule also accepts is not modelled. On one netlist two destinations may happen to agree.
- Composition.ComposeBoundaries: the standalone pass on a module's cells, the summary of a recognised synchroniser macro and the outputs of an instance that drive a clock are parameters; the sorted record lists and the sets of boundary and macro types are not built.
- BoundarySummaries.FindInstanceClocks: the clock tracer and the clock-like-name test are parameters; pin-target nets of generated clocks reach the model through the tracer only; the constraints and the module's port list are always there, so the fallbacks without them are not modelled.
- ResetChains.IterResetSyncChains: returns the entries by head; sorting them by tail name is not modelled, and polarity comes from a parameter because cell parameters are not part of the netlist here.
- ClockGraph.DeriveSubSpec: clock periods and the sorted order of port lists are not modelled; port lists are sets.
- ClockGraph.IsSingleClockSubtree: the clock list is in any order, not sorted; the answer does not depend on it.
- PragmaRegions.ScanText: starts from parsed pragmas, one per line; the comment grammar, file patterns and reading of files are not modelled.
- Tokenizer.Tokenize: text is a sequence of characters without an encoding; peeling names out of a collection word is not modelled.
- Crossing records carry the reached D nets; their width, the scan-mode tag and the boundary lookup are read off them and not stored.
- `filter_async`, `assign_domains`, inferred clock candidates and `find_clock_combines` apply the modelled relations entry by entry.
- The backward search for a gray-coding cell around the modelled structural test, and the port synchroniser proofs of the standalone pass, are not modelled.
- The bounded forward walk that looks for clock sinks behind a block output is not modelled; it has the shape of the walks that are.
- The rules' own filters on attributes, widths, names and severities, and all messages and reports, are not modelled.
- Elaboration, netlist loading, the external Tcl interpreter, the command line and hint files are not modelled.
