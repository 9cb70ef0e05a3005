/**
 `find_crossings`: the flop-, port- and boundary-sourced walks over one module,
 and what the collected records mean.
 */
module Crossings {
  import opened Netlist
  import opened Graph
  import opened Fanout
  import opened FanoutFilter
  import opened CrossingSearch

  // --- block summaries --------------------------------------------------

  datatype PortBoundary = PortBoundary(port: string, srcClock: Option<string>, synchronised: bool, width: nat,
                                       syncDepth: Option<nat>, userSynchronised: bool)

  // Output ports are virtual sources, input ports virtual sinks.
  datatype BoundarySummary = BoundarySummary(ports: seq<PortBoundary>, clock: Option<string>,
                                             inputPorts: seq<PortBoundary>, internalAnalysed: bool,
                                             reconvergentInputs: set<set<string>>)

  type Boundaries = map<string, BoundarySummary>

  // Instance key first, then module type.
  function BoundaryFor(boundaries: Boundaries, c: Cell): Option<BoundarySummary> {
    if c.name in boundaries then Some(boundaries[c.name])
    else if c.ctype in boundaries then Some(boundaries[c.ctype])
    else None
  }

  const BOUNDARY_SINK_CLK := Const('b')

  // The virtual sink standing for one input pin of a block.
  function SinkFlop(c: Cell, s: BoundarySummary, pb: PortBoundary): FlopDomain {
    FlopDomain(Flop(c.name + "." + pb.port, BOUNDARY_SINK_CLK, OnlyNets(Conn(c, pb.port)), []),
               if pb.srcClock.Some? then pb.srcClock else s.clock)
  }

  function OnlyNets(bits: seq<Bit>): (r: seq<Bit>)
    ensures forall b :: b in r <==> b in bits && b.Net?
  {
    if bits == [] then []
    else (if bits[0].Net? then [bits[0]] else []) + OnlyNets(bits[1..])
  }

  ghost predicate IsSink(m: Module, boundaries: Boundaries, i: nat, j: nat, fd: FlopDomain) {
    && i < |m.cells|
    && BoundaryFor(boundaries, m.cells[i]).Some?
    && var s := BoundaryFor(boundaries, m.cells[i]).value;
       && j < |s.inputPorts|
       && fd == SinkFlop(m.cells[i], s, s.inputPorts[j])
       && fd.flop.d != []
  }

  method BoundarySinkFlops(m: Module, boundaries: Boundaries) returns (sinks: seq<FlopDomain>)
    ensures forall fd :: fd in sinks <==> exists i: nat, j: nat :: IsSink(m, boundaries, i, j, fd)
  {
    sinks := [];
    for i := 0 to |m.cells|
      invariant forall fd :: fd in sinks <==> exists p: nat, j: nat :: p < i && IsSink(m, boundaries, p, j, fd)
    {
      var c := m.cells[i];
      if BoundaryFor(boundaries, c).Some? {
        var s := BoundaryFor(boundaries, c).value;
        ghost var was := sinks;
        for j := 0 to |s.inputPorts|
          invariant forall fd :: fd in sinks <==> fd in was || exists q: nat :: q < j && IsSink(m, boundaries, i, q, fd)
        {
          ghost var prev := sinks;
          var sink := SinkFlop(c, s, s.inputPorts[j]);
          if sink.flop.d != [] {
            sinks := sinks + [sink];
          }
          forall fd
            ensures fd in sinks <==> fd in was || exists q: nat :: q < j + 1 && IsSink(m, boundaries, i, q, fd)
          {
            assert fd in sinks <==> fd in prev || IsSink(m, boundaries, i, j, fd);
          }
        }
      }
    }
  }

  // `domains[name] = fd` on an insertion-ordered dictionary.
  function PutDomain(domains: seq<FlopDomain>, fd: FlopDomain): seq<FlopDomain> {
    if domains == [] then [fd]
    else if domains[0].flop.name == fd.flop.name then [fd] + domains[1..]
    else [domains[0]] + PutDomain(domains[1..], fd)
  }

  function PutAll(domains: seq<FlopDomain>, more: seq<FlopDomain>): seq<FlopDomain>
    decreases more
  {
    if more == [] then domains else PutAll(PutDomain(domains, more[0]), more[1..])
  }

  ghost predicate DistinctNames(domains: seq<FlopDomain>) {
    forall i, j :: 0 <= i < j < |domains| ==> domains[i].flop.name != domains[j].flop.name
  }

  ghost predicate Named(domains: seq<FlopDomain>, name: string) {
    exists x :: x in domains && x.flop.name == name
  }

  lemma {:induction false} PutReplaces(domains: seq<FlopDomain>, fd: FlopDomain)
    requires DistinctNames(domains)
    ensures DistinctNames(PutDomain(domains, fd))
    ensures forall x :: x in PutDomain(domains, fd) <==> x == fd || (x in domains && x.flop.name != fd.flop.name)
  {
    if domains != [] {
      assert domains == [domains[0]] + domains[1..];
      if domains[0].flop.name != fd.flop.name {
        PutReplaces(domains[1..], fd);
      }
    }
  }

  // The last entry of its name.
  ghost predicate IsLastNamed(more: seq<FlopDomain>, x: FlopDomain)
    decreases more
  {
    more != [] && (IsLastNamed(more[1..], x) || (x == more[0] && !Named(more[1..], x.flop.name)))
  }

  lemma {:induction false} IsLastNamedIff(more: seq<FlopDomain>, x: FlopDomain)
    ensures IsLastNamed(more, x) <==>
            exists i :: 0 <= i < |more| && more[i] == x &&
                        forall j :: i < j < |more| ==> more[j].flop.name != x.flop.name
    decreases more
  {
    if more != [] {
      var rest := more[1..];
      IsLastNamedIff(rest, x);
      if IsLastNamed(rest, x) {
        var i :| 0 <= i < |rest| && rest[i] == x && forall j :: i < j < |rest| ==> rest[j].flop.name != x.flop.name;
        assert more[i + 1] == x && forall j :: i + 1 < j < |more| ==> more[j] == rest[j - 1];
      }
      if i :| 0 <= i < |more| && more[i] == x && forall j :: i < j < |more| ==> more[j].flop.name != x.flop.name {
        assert i > 0 ==> rest[i - 1] == x && forall j :: i - 1 < j < |rest| ==> rest[j] == more[j + 1];
        assert forall y :: y in rest ==> exists j :: 1 <= j < |more| && more[j] == y;
      }
    }
  }

  // Adding entries keeps exactly the last entry of every name: a virtual sink takes
  // the place of whatever had its name before, and nothing else is lost.
  lemma {:induction false} PutAllIsUpdate(domains: seq<FlopDomain>, more: seq<FlopDomain>)
    requires DistinctNames(domains)
    ensures DistinctNames(PutAll(domains, more))
    ensures forall x :: x in PutAll(domains, more) <==>
                        IsLastNamed(more, x) || (x in domains && !Named(more, x.flop.name))
    decreases more
  {
    if more != [] {
      var next := PutDomain(domains, more[0]);
      PutReplaces(domains, more[0]);
      PutAllIsUpdate(next, more[1..]);
      forall name: string ensures Named(more, name) <==> more[0].flop.name == name || Named(more[1..], name) {
        assert more == [more[0]] + more[1..];
      }
    }
  }

  // --- sources ----------------------------------------------------------

  datatype Origin = FromFlop(d: nat) | FromPort(name: string) | FromBoundary(cell: nat, port: nat)

  datatype Source = Source(seeds: seq<int>, clock: Option<string>, self: Option<string>, lanes: bool)

  function InputBits(ports: seq<Port>, name: string): Option<seq<Bit>> {
    if ports == [] then None
    else if ports[0].name == name then
      (if ports[0].direction == Input then Some(ports[0].bits) else None)
    else InputBits(ports[1..], name)
  }

  // Where the walk from an origin starts, and which sinks count for it.
  function SourceOf(m: Module, domains: seq<FlopDomain>, portClock: map<string, string>, boundaries: Boundaries,
                    o: Origin): Option<Source>
  {
    match o
    case FromFlop(d) =>
      if d < |domains| && domains[d].clock.Some?
      then Some(Source(NetSeq(domains[d].flop.q), domains[d].clock, Some(domains[d].flop.name), true))
      else None
    case FromPort(name) =>
      if name in portClock && InputBits(m.ports, name).Some?
      then Some(Source(NetSeq(InputBits(m.ports, name).value), Some(portClock[name]), None, true))
      else None
    case FromBoundary(i, j) =>
      if i < |m.cells| && BoundaryFor(boundaries, m.cells[i]).Some? &&
         j < |BoundaryFor(boundaries, m.cells[i]).value.ports|
      then
        var pb := BoundaryFor(boundaries, m.cells[i]).value.ports[j];
        Some(Source(NetSeq(Conn(m.cells[i], pb.port)), pb.srcClock, None, false))
      else None
  }

  type Found = map<Origin, map<nat, Group>>

  // The records of every source satisfying `which`, and no others.
  ghost predicate FoundExact(m: Module, domains: seq<FlopDomain>, portClock: map<string, string>,
                             boundaries: Boundaries, maxHops: nat, which: iset<Origin>, found: Found) {
    && (forall o :: o in found <==> o in which && SourceOf(m, domains, portClock, boundaries, o).Some?)
    && (forall o :: o in found && o in which && SourceOf(m, domains, portClock, boundaries, o).Some? ==>
          RecordExact(m, domains, SourceOf(m, domains, portClock, boundaries, o).value, maxHops, found[o]))
  }

  ghost predicate RecordExact(m: Module, domains: seq<FlopDomain>, s: Source, maxHops: nat, hits: map<nat, Group>) {
    HitsExact(DataEdges(m, s.lanes), SeedSet(s.seeds), domains, s.clock, s.self, maxHops, hits)
  }

  ghost function AllOrigins(): iset<Origin> {
    iset o: Origin | o.FromFlop? || o.FromPort? || o.FromBoundary?
  }

  ghost function FlopOrigins(n: nat): iset<Origin> {
    iset o: Origin | o.FromFlop? && o.d < n
  }

  ghost function PortOrigins(names: set<string>): iset<Origin> {
    iset o: Origin | o.FromPort? && o.name in names
  }

  ghost function BoundaryOrigins(i: nat, j: nat): iset<Origin> {
    iset o: Origin | o.FromBoundary? && (o.cell < i || (o.cell == i && o.port < j))
  }

  // Add the records of one more source.
  lemma FoundGrows(m: Module, domains: seq<FlopDomain>, portClock: map<string, string>, boundaries: Boundaries,
                   maxHops: nat, which: iset<Origin>, found: Found, o: Origin, hits: map<nat, Group>)
    requires FoundExact(m, domains, portClock, boundaries, maxHops, which, found)
    requires SourceOf(m, domains, portClock, boundaries, o).Some?
    requires RecordExact(m, domains, SourceOf(m, domains, portClock, boundaries, o).value, maxHops, hits)
    ensures FoundExact(m, domains, portClock, boundaries, maxHops, which + iset{o}, found[o := hits])
  {
  }

  lemma FoundSkips(m: Module, domains: seq<FlopDomain>, portClock: map<string, string>, boundaries: Boundaries,
                   maxHops: nat, which: iset<Origin>, found: Found, o: Origin)
    requires FoundExact(m, domains, portClock, boundaries, maxHops, which, found)
    requires SourceOf(m, domains, portClock, boundaries, o).None?
    ensures FoundExact(m, domains, portClock, boundaries, maxHops, which + iset{o}, found)
  {
  }

  method WalkSource(m: Module, consumers: Consumers, flopByD: FlopByD, domains: seq<FlopDomain>, s: Source,
                    prune: Prune, maxHops: nat)
    returns (hits: map<nat, Group>)
    requires IsConsumerIndex(m, consumers) && IsFlopByD(domains, flopByD)
    requires PruneOk(DataEdges(m, s.lanes), domains, s.clock, prune, maxHops)
    ensures RecordExact(m, domains, s, maxHops, hits)
  {
    hits := Walk(m, consumers, flopByD, domains, s.seeds, s.clock, s.self, prune, s.lanes, maxHops);
  }

  method FindCrossings(m: Module, flops: seq<FlopDomain>, maxHops: nat, portClock: map<string, string>,
                       boundaries: Boundaries)
    returns (domains: seq<FlopDomain>, sinks: seq<FlopDomain>, found: Found)
    requires ValidModule(m)
    ensures forall fd :: fd in sinks <==> exists i: nat, j: nat :: IsSink(m, boundaries, i, j, fd)
    ensures domains == PutAll(flops, sinks)
    ensures FoundExact(m, domains, portClock, boundaries, maxHops, AllOrigins(), found)
    ensures FlopRecords(m, domains, maxHops, found)
    ensures PortRecords(m, domains, portClock, maxHops, found)
    ensures BlockRecords(m, domains, boundaries, maxHops, found)
  {
    sinks := BoundarySinkFlops(m, boundaries);
    domains := PutAll(flops, sinks);
    var consumers := BuildBitConsumers(m);
    var flopByD := BuildFlopByD(domains);
    found := FlopCrossings(m, consumers, flopByD, domains, maxHops, portClock, boundaries);
    found := PortCrossings(m, consumers, flopByD, domains, maxHops, portClock, boundaries, found);
    found := BoundaryCrossings(m, consumers, flopByD, domains, maxHops, portClock, boundaries, found);
    RecordsByOrigin(m, domains, portClock, boundaries, maxHops, found);
  }

  method FlopCrossings(m: Module, consumers: Consumers, flopByD: FlopByD, domains: seq<FlopDomain>, maxHops: nat,
                       ghost portClock: map<string, string>, ghost boundaries: Boundaries)
    returns (found: Found)
    requires ValidModule(m) && IsConsumerIndex(m, consumers) && IsFlopByD(domains, flopByD)
    ensures FoundExact(m, domains, portClock, boundaries, maxHops, FlopOrigins(|domains|), found)
  {
    found := map[];
    var distTo := MakeFanoutFilter(m, domains, maxHops);
    for d := 0 to |domains|
      invariant FoundExact(m, domains, portClock, boundaries, maxHops, FlopOrigins(d), found)
    {
      var fd := domains[d];
      assert FlopOrigins(d + 1) == FlopOrigins(d) + iset{FromFlop(d)};
      if fd.clock.Some? {
        var s := Source(NetSeq(fd.flop.q), fd.clock, Some(fd.flop.name), true);
        var hits := WalkSource(m, consumers, flopByD, domains, s, Pruned(distTo, fd.clock.value), maxHops);
        FoundGrows(m, domains, portClock, boundaries, maxHops, FlopOrigins(d), found, FromFlop(d), hits);
        found := found[FromFlop(d) := hits];
      } else {
        FoundSkips(m, domains, portClock, boundaries, maxHops, FlopOrigins(d), found, FromFlop(d));
      }
    }
  }

  method PortCrossings(m: Module, consumers: Consumers, flopByD: FlopByD, domains: seq<FlopDomain>, maxHops: nat,
                       portClock: map<string, string>, ghost boundaries: Boundaries, found: Found)
    returns (found': Found)
    requires IsConsumerIndex(m, consumers) && IsFlopByD(domains, flopByD)
    requires FoundExact(m, domains, portClock, boundaries, maxHops, FlopOrigins(|domains|), found)
    ensures FoundExact(m, domains, portClock, boundaries, maxHops,
                       FlopOrigins(|domains|) + PortOrigins(portClock.Keys), found')
  {
    found' := found;
    var todo := portClock.Keys;
    ghost var flops := FlopOrigins(|domains|);
    assert flops == flops + PortOrigins({});
    while todo != {}
      invariant todo <= portClock.Keys
      invariant FoundExact(m, domains, portClock, boundaries, maxHops, flops + PortOrigins(portClock.Keys - todo),
          found')
      decreases |todo|
    {
      var name :| name in todo;
      ghost var which := flops + PortOrigins(portClock.Keys - todo);
      var bits := InputBits(m.ports, name);
      if bits.Some? {
        var s := Source(NetSeq(bits.value), Some(portClock[name]), None, true);
        var hits := WalkSource(m, consumers, flopByD, domains, s, Unpruned, maxHops);
        FoundGrows(m, domains, portClock, boundaries, maxHops, which, found', FromPort(name), hits);
        found' := found'[FromPort(name) := hits];
      } else {
        FoundSkips(m, domains, portClock, boundaries, maxHops, which, found', FromPort(name));
      }
      todo := todo - {name};
      assert which + iset{FromPort(name)} == flops + PortOrigins(portClock.Keys - todo);
    }
    assert portClock.Keys - {} == portClock.Keys;
  }

  method BoundaryCrossings(m: Module, consumers: Consumers, flopByD: FlopByD, domains: seq<FlopDomain>, maxHops: nat,
                           ghost portClock: map<string, string>, boundaries: Boundaries, found: Found)
    returns (found': Found)
    requires IsConsumerIndex(m, consumers) && IsFlopByD(domains, flopByD)
    requires FoundExact(m, domains, portClock, boundaries, maxHops,
                        FlopOrigins(|domains|) + PortOrigins(portClock.Keys), found)
    ensures FoundExact(m, domains, portClock, boundaries, maxHops, AllOrigins(), found')
  {
    found' := found;
    ghost var others := FlopOrigins(|domains|) + PortOrigins(portClock.Keys);
    assert others == others + BoundaryOrigins(0, 0);
    for i := 0 to |m.cells|
      invariant FoundExact(m, domains, portClock, boundaries, maxHops, others + BoundaryOrigins(i, 0), found')
    {
      var c := m.cells[i];
      var summary := BoundaryFor(boundaries, c);
      if summary.Some? {
        var ports := summary.value.ports;
        for j := 0 to |ports|
          invariant FoundExact(m, domains, portClock, boundaries, maxHops, others + BoundaryOrigins(i, j), found')
        {
          var s := Source(NetSeq(Conn(c, ports[j].port)), ports[j].srcClock, None, false);
          var hits := WalkSource(m, consumers, flopByD, domains, s, Unpruned, maxHops);
          FoundGrows(m, domains, portClock, boundaries, maxHops, others + BoundaryOrigins(i, j), found',
                     FromBoundary(i, j), hits);
          found' := found'[FromBoundary(i, j) := hits];
          assert others + BoundaryOrigins(i, j) + iset{FromBoundary(i, j)} == others + BoundaryOrigins(i, j + 1);
        }
        RestHaveNoSource(m, domains, portClock, boundaries, maxHops, others + BoundaryOrigins(i, |ports|),
                         others + BoundaryOrigins(i + 1, 0), found');
      } else {
        RestHaveNoSource(m, domains, portClock, boundaries, maxHops, others + BoundaryOrigins(i, 0),
                         others + BoundaryOrigins(i + 1, 0), found');
      }
    }
    RestHaveNoSource(m, domains, portClock, boundaries, maxHops, others + BoundaryOrigins(|m.cells|, 0),
                     AllOrigins(), found');
  }

  // Origins that are no source of this module add nothing.
  lemma RestHaveNoSource(m: Module, domains: seq<FlopDomain>, portClock: map<string, string>, boundaries: Boundaries,
                         maxHops: nat, which: iset<Origin>, more: iset<Origin>, found: Found)
    requires FoundExact(m, domains, portClock, boundaries, maxHops, which, found)
    requires which <= more
    requires forall o :: o in more && o !in which ==> SourceOf(m, domains, portClock, boundaries, o).None?
    ensures FoundExact(m, domains, portClock, boundaries, maxHops, more, found)
  {
  }

  // --- what the records mean --------------------------------------------

  // The statement the walk refines: some path of at most `maxHops` cells leads
  // from the source to a D net of the sink.
  ghost predicate CrossingPath(m: Module, s: Source, fd: FlopDomain, maxHops: nat, p: seq<int>) {
    && IsPath(DataEdges(m, s.lanes), p) && |p| - 1 <= maxHops
    && p[0] in s.seeds && IsDNet(fd, p[|p| - 1])
  }

  // A pair is reported exactly when its clocks are known and differ and such a path exists.
  lemma ReportedIffPath(m: Module, domains: seq<FlopDomain>, s: Source, maxHops: nat, hits: map<nat, Group>, d: nat)
    requires RecordExact(m, domains, s, maxHops, hits)
    ensures d in hits <==>
              d < |domains| && Foreign(domains[d], s.clock, s.self) &&
              exists p :: CrossingPath(m, s, domains[d], maxHops, p)
  {
    var e := DataEdges(m, s.lanes);
    if d in hits {
      var t :| IsDNet(domains[d], t) && t in Ball(e, SeedSet(s.seeds), maxHops);
      var p := BallHasPath(e, SeedSet(s.seeds), t, maxHops);
      assert CrossingPath(m, s, domains[d], maxHops, p);
    }
    if d < |domains| && Foreign(domains[d], s.clock, s.self) && exists p :: CrossingPath(m, s, domains[d], maxHops, p) {
      var p :| CrossingPath(m, s, domains[d], maxHops, p);
      assert PathBetween(e, SeedSet(s.seeds), p[|p| - 1], maxHops, p);
      BallIsPaths(e, SeedSet(s.seeds), p[|p| - 1], maxHops);
    }
  }

  // `min_hops` is the length of a shortest such path.
  lemma MinHopsIsShortest(m: Module, domains: seq<FlopDomain>, s: Source, maxHops: nat, hits: map<nat, Group>, d: nat)
    requires RecordExact(m, domains, s, maxHops, hits)
    requires d in hits && d < |domains|
    ensures exists p :: CrossingPath(m, s, domains[d], maxHops, p) && |p| - 1 == hits[d].minHops
    ensures forall p :: CrossingPath(m, s, domains[d], maxHops, p) ==> hits[d].minHops <= |p| - 1
  {
    var e := DataEdges(m, s.lanes);
    var seeds := SeedSet(s.seeds);
    assert GroupExact(e, seeds, domains[d], maxHops, hits[d]);
    forall p | CrossingPath(m, s, domains[d], maxHops, p) ensures hits[d].minHops <= |p| - 1 {
      PathNotShorter(e, seeds, domains[d], maxHops, hits[d], p);
    }
    var p := ShortestPath(e, seeds, domains[d], maxHops, hits[d]);
    assert CrossingPath(m, s, domains[d], maxHops, p);
  }

  lemma PathNotShorter(e: Edges, seeds: iset<int>, fd: FlopDomain, maxHops: nat, g: Group, p: seq<int>)
    requires GroupExact(e, seeds, fd, maxHops, g)
    requires IsPath(e, p) && |p| - 1 <= maxHops && p[0] in seeds && IsDNet(fd, p[|p| - 1])
    ensures g.minHops <= |p| - 1
  {
    PathInBall(e, seeds, p);
    var t, n := p[|p| - 1], |p| - 1;
    BallGrows(e, seeds, n, maxHops);
    assert t in g.bits;
    if n < g.minHops {
      BallGrows(e, seeds, n, g.minHops - 1);
    }
  }

  lemma ShortestPath(e: Edges, seeds: iset<int>, fd: FlopDomain, maxHops: nat, g: Group) returns (p: seq<int>)
    requires GroupExact(e, seeds, fd, maxHops, g)
    ensures IsPath(e, p) && |p| - 1 == g.minHops <= maxHops && p[0] in seeds && IsDNet(fd, p[|p| - 1])
  {
    var t :| t in g.bits && DistanceIs(e, seeds, t, g.minHops);
    DistanceWithin(e, seeds, t, g.minHops, maxHops);
    p := BallHasPath(e, seeds, t, g.minHops);
    PathNotShorter(e, seeds, fd, maxHops, g, p);
  }

  lemma DistanceWithin(e: Edges, seeds: iset<int>, t: int, n: nat, maxHops: nat)
    requires DistanceIs(e, seeds, t, n) && t in Ball(e, seeds, maxHops)
    ensures n <= maxHops
  {
    if maxHops < n {
      BallGrows(e, seeds, maxHops, n - 1);
    }
  }

  // --- the records of each kind of origin -------------------------------

  // A data path of at most `maxHops` cells from one of these pins to another.
  ghost predicate Joins(m: Module, lanes: bool, from: seq<Bit>, to: seq<Bit>, maxHops: nat, p: seq<int>) {
    IsPath(DataEdges(m, lanes), p) && |p| - 1 <= maxHops && Net(p[0]) in from && Net(p[|p| - 1]) in to
  }

  ghost predicate Joined(m: Module, lanes: bool, from: seq<Bit>, to: seq<Bit>, maxHops: nat) {
    exists p :: Joins(m, lanes, from, to, maxHops, p)
  }

  // The nets such paths end at, and the length of a shortest one.
  ghost predicate Measures(m: Module, lanes: bool, from: seq<Bit>, to: seq<Bit>, maxHops: nat, g: Group) {
    && (forall t :: t in g.bits <==> Net(t) in to && Joined(m, lanes, from, [Net(t)], maxHops))
    && (exists p :: Joins(m, lanes, from, to, maxHops, p) && |p| - 1 == g.minHops)
    && (forall p :: Joins(m, lanes, from, to, maxHops, p) ==> g.minHops <= |p| - 1)
  }

  ghost predicate Recorded(found: Found, o: Origin, t: nat) {
    o in found && t in found[o]
  }

  // From flop d: lane by lane from its Q, to a flop of another clock.
  ghost predicate FlopCrosses(m: Module, domains: seq<FlopDomain>, maxHops: nat, d: nat, t: nat) {
    && d < |domains| && t < |domains|
    && domains[d].clock.Some? && domains[t].clock.Some? && domains[d].clock != domains[t].clock
    && domains[d].flop.name != domains[t].flop.name
    && Joined(m, true, domains[d].flop.q, domains[t].flop.d, maxHops)
  }

  ghost predicate FlopRecords(m: Module, domains: seq<FlopDomain>, maxHops: nat, found: Found) {
    && (forall d: nat, t: nat :: Recorded(found, FromFlop(d), t) <==> FlopCrosses(m, domains, maxHops, d, t))
    && (forall d: nat, t: nat :: Recorded(found, FromFlop(d), t) && d < |domains| && t < |domains| ==>
          Measures(m, true, domains[d].flop.q, domains[t].flop.d, maxHops, found[FromFlop(d)][t]))
  }

  // The port a name stands for.
  ghost predicate IsPortNamed(m: Module, name: string, k: nat) {
    k < |m.ports| && m.ports[k].name == name && forall j :: 0 <= j < k ==> m.ports[j].name != name
  }

  // From a typed input port: lane by lane from its nets, to a flop not in the port's clock.
  ghost predicate PortCrosses(m: Module, domains: seq<FlopDomain>, portClock: map<string, string>, maxHops: nat,
                              name: string, k: nat, t: nat) {
    && name in portClock && IsPortNamed(m, name, k) && m.ports[k].direction == Input
    && t < |domains| && domains[t].clock.Some? && domains[t].clock.value != portClock[name]
    && Joined(m, true, m.ports[k].bits, domains[t].flop.d, maxHops)
  }

  ghost predicate PortRecords(m: Module, domains: seq<FlopDomain>, portClock: map<string, string>, maxHops: nat,
                              found: Found) {
    && (forall name: string, t: nat :: Recorded(found, FromPort(name), t) <==>
          exists k: nat :: PortCrosses(m, domains, portClock, maxHops, name, k, t))
    && (forall name: string, k: nat, t: nat :: IsPortNamed(m, name, k) ==>
          MeasuredFromPort(m, domains, maxHops, found, name, k, t))
  }

  ghost predicate MeasuredFromPort(m: Module, domains: seq<FlopDomain>, maxHops: nat, found: Found, name: string,
                                   k: nat, t: nat) {
    Recorded(found, FromPort(name), t) && k < |m.ports| && t < |domains| ==>
      Measures(m, true, m.ports[k].bits, domains[t].flop.d, maxHops, found[FromPort(name)][t])
  }

  // The summary of a block: its instance's own, else its type's.
  ghost predicate IsSummaryOf(boundaries: Boundaries, c: Cell, s: BoundarySummary) {
    || (c.name in boundaries && s == boundaries[c.name])
    || (c.name !in boundaries && c.ctype in boundaries && s == boundaries[c.ctype])
  }

  // Output j of the block in cell i.
  ghost predicate IsBlockOutput(m: Module, boundaries: Boundaries, i: nat, j: nat, pb: PortBoundary) {
    i < |m.cells| && exists s :: IsSummaryOf(boundaries, m.cells[i], s) && j < |s.ports| && s.ports[j] == pb
  }

  // From a block output: through all outputs of every cell from the nets on its pin, to a
  // flop of a known clock, if the output has a clock not of that one.
  ghost predicate BlockCrosses(m: Module, domains: seq<FlopDomain>, boundaries: Boundaries, maxHops: nat, i: nat,
                               j: nat, pb: PortBoundary, t: nat) {
    && IsBlockOutput(m, boundaries, i, j, pb)
    && t < |domains| && domains[t].clock.Some? && (pb.srcClock.Some? ==> domains[t].clock != pb.srcClock)
    && Joined(m, false, Conn(m.cells[i], pb.port), domains[t].flop.d, maxHops)
  }

  ghost predicate BlockRecords(m: Module, domains: seq<FlopDomain>, boundaries: Boundaries, maxHops: nat,
                               found: Found) {
    && (forall i: nat, j: nat, t: nat :: Recorded(found, FromBoundary(i, j), t) <==>
          exists pb :: BlockCrosses(m, domains, boundaries, maxHops, i, j, pb, t))
    && (forall i: nat, j: nat, pb, t: nat :: IsBlockOutput(m, boundaries, i, j, pb) ==>
          MeasuredFromBlock(m, domains, maxHops, found, i, j, pb, t))
  }

  ghost predicate MeasuredFromBlock(m: Module, domains: seq<FlopDomain>, maxHops: nat, found: Found, i: nat, j: nat,
                                    pb: PortBoundary, t: nat) {
    Recorded(found, FromBoundary(i, j), t) && i < |m.cells| && t < |domains| ==>
      Measures(m, false, Conn(m.cells[i], pb.port), domains[t].flop.d, maxHops, found[FromBoundary(i, j)][t])
  }

  // The records of a source whose nets are those of `from`.
  lemma RecordsOf(m: Module, domains: seq<FlopDomain>, s: Source, from: seq<Bit>, maxHops: nat,
                  hits: map<nat, Group>, t: nat)
    requires RecordExact(m, domains, s, maxHops, hits)
    requires forall b :: b in s.seeds <==> Net(b) in from
    ensures t in hits <==> t < |domains| && Foreign(domains[t], s.clock, s.self) &&
                           Joined(m, s.lanes, from, domains[t].flop.d, maxHops)
    ensures t in hits && t < |domains| ==> Measures(m, s.lanes, from, domains[t].flop.d, maxHops, hits[t])
  {
    ReportedIffPath(m, domains, s, maxHops, hits, t);
    if t < |domains| {
      forall p ensures CrossingPath(m, s, domains[t], maxHops, p) <==>
                       Joins(m, s.lanes, from, domains[t].flop.d, maxHops, p) {
      }
      if t in hits {
        MinHopsIsShortest(m, domains, s, maxHops, hits, t);
        BitsAreReached(m, domains[t], s, from, maxHops, hits[t]);
      }
    }
  }

  lemma BitsAreReached(m: Module, fd: FlopDomain, s: Source, from: seq<Bit>, maxHops: nat, g: Group)
    requires GroupExact(DataEdges(m, s.lanes), SeedSet(s.seeds), fd, maxHops, g)
    requires forall b :: b in s.seeds <==> Net(b) in from
    ensures forall t :: t in g.bits <==> Net(t) in fd.flop.d && Joined(m, s.lanes, from, [Net(t)], maxHops)
  {
    var e, seeds := DataEdges(m, s.lanes), SeedSet(s.seeds);
    forall t ensures t in Ball(e, seeds, maxHops) <==> Joined(m, s.lanes, from, [Net(t)], maxHops) {
      BallIsPaths(e, seeds, t, maxHops);
      forall p ensures PathBetween(e, seeds, t, maxHops, p) <==> Joins(m, s.lanes, from, [Net(t)], maxHops, p) {
      }
    }
  }

  lemma InputBitsOf(ports: seq<Port>, name: string, k: nat)
    requires k < |ports| && ports[k].name == name && forall j :: 0 <= j < k ==> ports[j].name != name
    ensures InputBits(ports, name) == if ports[k].direction == Input then Some(ports[k].bits) else None
  {
    if k > 0 {
      InputBitsOf(ports[1..], name, k - 1);
    }
  }

  lemma FirstPortNamed(ports: seq<Port>, name: string) returns (k: nat)
    requires InputBits(ports, name).Some?
    ensures k < |ports| && ports[k].name == name && forall j :: 0 <= j < k ==> ports[j].name != name
  {
    if ports[0].name == name {
      k := 0;
    } else {
      var i := FirstPortNamed(ports[1..], name);
      k := i + 1;
    }
  }

  // A flop is recorded for a flop exactly when their clocks are known and differ and a
  // bounded lane-precise path leads from Q to D.
  lemma FlopRecordsRight(m: Module, domains: seq<FlopDomain>, portClock: map<string, string>, boundaries: Boundaries,
                         maxHops: nat, found: Found)
    requires FoundExact(m, domains, portClock, boundaries, maxHops, AllOrigins(), found)
    ensures FlopRecords(m, domains, maxHops, found)
  {
    forall d: nat, t: nat
      ensures Recorded(found, FromFlop(d), t) <==> FlopCrosses(m, domains, maxHops, d, t)
      ensures Recorded(found, FromFlop(d), t) && d < |domains| && t < |domains| ==>
                Measures(m, true, domains[d].flop.q, domains[t].flop.d, maxHops, found[FromFlop(d)][t])
    {
      var s := SourceOf(m, domains, portClock, boundaries, FromFlop(d));
      if FromFlop(d) in found && d < |domains| {
        RecordsOf(m, domains, s.value, domains[d].flop.q, maxHops, found[FromFlop(d)], t);
      }
    }
  }

  lemma PortRecordAt(m: Module, domains: seq<FlopDomain>, portClock: map<string, string>, boundaries: Boundaries,
                     maxHops: nat, found: Found, name: string, k: nat, t: nat)
    requires FoundExact(m, domains, portClock, boundaries, maxHops, AllOrigins(), found)
    requires IsPortNamed(m, name, k)
    ensures Recorded(found, FromPort(name), t) <==> PortCrosses(m, domains, portClock, maxHops, name, k, t)
    ensures MeasuredFromPort(m, domains, maxHops, found, name, k, t)
  {
    InputBitsOf(m.ports, name, k);
    var s := SourceOf(m, domains, portClock, boundaries, FromPort(name));
    if FromPort(name) in found {
      RecordsOf(m, domains, s.value, m.ports[k].bits, maxHops, found[FromPort(name)], t);
    }
  }

  // The same for a typed input port: its nets, and the clock it was typed with.
  lemma PortRecordsRight(m: Module, domains: seq<FlopDomain>, portClock: map<string, string>, boundaries: Boundaries,
                         maxHops: nat, found: Found)
    requires FoundExact(m, domains, portClock, boundaries, maxHops, AllOrigins(), found)
    ensures PortRecords(m, domains, portClock, maxHops, found)
  {
    forall name: string, k: nat, t: nat | IsPortNamed(m, name, k)
      ensures Recorded(found, FromPort(name), t) <==> PortCrosses(m, domains, portClock, maxHops, name, k, t)
      ensures MeasuredFromPort(m, domains, maxHops, found, name, k, t)
    {
      PortRecordAt(m, domains, portClock, boundaries, maxHops, found, name, k, t);
    }
    forall name: string, t: nat | Recorded(found, FromPort(name), t)
      ensures exists k: nat :: PortCrosses(m, domains, portClock, maxHops, name, k, t)
    {
      assert SourceOf(m, domains, portClock, boundaries, FromPort(name)).Some?;
      var k := FirstPortNamed(m.ports, name);
      PortRecordAt(m, domains, portClock, boundaries, maxHops, found, name, k, t);
    }
  }

  lemma BlockRecordAt(m: Module, domains: seq<FlopDomain>, portClock: map<string, string>, boundaries: Boundaries,
                      maxHops: nat, found: Found, i: nat, j: nat, pb: PortBoundary, t: nat)
    requires FoundExact(m, domains, portClock, boundaries, maxHops, AllOrigins(), found)
    requires IsBlockOutput(m, boundaries, i, j, pb)
    ensures Recorded(found, FromBoundary(i, j), t) <==> BlockCrosses(m, domains, boundaries, maxHops, i, j, pb, t)
    ensures MeasuredFromBlock(m, domains, maxHops, found, i, j, pb, t)
  {
    var s := SourceOf(m, domains, portClock, boundaries, FromBoundary(i, j));
    RecordsOf(m, domains, s.value, Conn(m.cells[i], pb.port), maxHops, found[FromBoundary(i, j)], t);
  }

  lemma OutputOfOrigin(m: Module, domains: seq<FlopDomain>, portClock: map<string, string>, boundaries: Boundaries,
                       i: nat, j: nat) returns (pb: PortBoundary)
    requires SourceOf(m, domains, portClock, boundaries, FromBoundary(i, j)).Some?
    ensures IsBlockOutput(m, boundaries, i, j, pb)
  {
    var s := BoundaryFor(boundaries, m.cells[i]).value;
    assert IsSummaryOf(boundaries, m.cells[i], s);
    pb := s.ports[j];
  }

  // And for a block output: the nets on its pin, its own clock, and the coarser edges.
  lemma BlockRecordsRight(m: Module, domains: seq<FlopDomain>, portClock: map<string, string>, boundaries: Boundaries,
                          maxHops: nat, found: Found)
    requires FoundExact(m, domains, portClock, boundaries, maxHops, AllOrigins(), found)
    ensures BlockRecords(m, domains, boundaries, maxHops, found)
  {
    forall i: nat, j: nat, t: nat, pb | IsBlockOutput(m, boundaries, i, j, pb)
      ensures Recorded(found, FromBoundary(i, j), t) <==> BlockCrosses(m, domains, boundaries, maxHops, i, j, pb, t)
      ensures MeasuredFromBlock(m, domains, maxHops, found, i, j, pb, t)
    {
      BlockRecordAt(m, domains, portClock, boundaries, maxHops, found, i, j, pb, t);
    }
    forall i: nat, j: nat, t: nat | Recorded(found, FromBoundary(i, j), t)
      ensures exists pb :: BlockCrosses(m, domains, boundaries, maxHops, i, j, pb, t)
    {
      assert FromBoundary(i, j) in AllOrigins();
      var pb := OutputOfOrigin(m, domains, portClock, boundaries, i, j);
      BlockRecordAt(m, domains, portClock, boundaries, maxHops, found, i, j, pb, t);
    }
  }

  lemma RecordsByOrigin(m: Module, domains: seq<FlopDomain>, portClock: map<string, string>, boundaries: Boundaries,
                        maxHops: nat, found: Found)
    requires FoundExact(m, domains, portClock, boundaries, maxHops, AllOrigins(), found)
    ensures FlopRecords(m, domains, maxHops, found)
    ensures PortRecords(m, domains, portClock, maxHops, found)
    ensures BlockRecords(m, domains, boundaries, maxHops, found)
  {
    FlopRecordsRight(m, domains, portClock, boundaries, maxHops, found);
    PortRecordsRight(m, domains, portClock, boundaries, maxHops, found);
    BlockRecordsRight(m, domains, portClock, boundaries, maxHops, found);
  }

  // Records are determined by the graph: any two exact answers are equal, so
  // walking with and without the pruning test gives the same records.
  lemma RecordsAreUnique(m: Module, domains: seq<FlopDomain>, s: Source, maxHops: nat,
                         a: map<nat, Group>, b: map<nat, Group>)
    requires RecordExact(m, domains, s, maxHops, a) && RecordExact(m, domains, s, maxHops, b)
    ensures a == b
  {
    assert a.Keys == b.Keys;
    forall d: nat | d in a ensures a[d] == b[d] {
      assert d in a.Keys;
      GroupIsUnique(DataEdges(m, s.lanes), SeedSet(s.seeds), domains[d], maxHops, a[d], b[d]);
    }
  }

  lemma GroupIsUnique(e: Edges, seeds: iset<int>, fd: FlopDomain, maxHops: nat, g: Group, h: Group)
    requires GroupExact(e, seeds, fd, maxHops, g) && GroupExact(e, seeds, fd, maxHops, h)
    ensures g == h
  {
    forall t ensures t in g.bits <==> t in h.bits {
      assert t in g.bits <==> IsDNet(fd, t) && t in Ball(e, seeds, maxHops);
      assert t in h.bits <==> IsDNet(fd, t) && t in Ball(e, seeds, maxHops);
    }
    assert g.bits == h.bits;
    MinHopsNotAbove(e, seeds, fd, maxHops, g, h);
    MinHopsNotAbove(e, seeds, fd, maxHops, h, g);
  }

  lemma MinHopsNotAbove(e: Edges, seeds: iset<int>, fd: FlopDomain, maxHops: nat, g: Group, h: Group)
    requires GroupExact(e, seeds, fd, maxHops, g) && GroupExact(e, seeds, fd, maxHops, h)
    ensures g.minHops <= h.minHops
  {
    var p := ShortestPath(e, seeds, fd, maxHops, h);
    PathNotShorter(e, seeds, fd, maxHops, g, p);
  }

  // The flop walk with the distance filter against the same walk without it.
  method WalkBothWays(m: Module, consumers: Consumers, flopByD: FlopByD, domains: seq<FlopDomain>, d: nat, maxHops: nat)
    returns (pruned: map<nat, Group>, plain: map<nat, Group>)
    requires ValidModule(m) && IsConsumerIndex(m, consumers) && IsFlopByD(domains, flopByD)
    requires d < |domains| && domains[d].clock.Some?
    ensures pruned == plain
    ensures RecordExact(
              m, domains,
              Source(NetSeq(domains[d].flop.q), domains[d].clock, Some(domains[d].flop.name), true),
              maxHops, pruned)
  {
    var fd := domains[d];
    var s := Source(NetSeq(fd.flop.q), fd.clock, Some(fd.flop.name), true);
    var distTo := MakeFanoutFilter(m, domains, maxHops);
    pruned := WalkSource(m, consumers, flopByD, domains, s, Pruned(distTo, fd.clock.value), maxHops);
    plain := WalkSource(m, consumers, flopByD, domains, s, Unpruned, maxHops);
    RecordsAreUnique(m, domains, s, maxHops, pruned, plain);
  }
}
