/**
 A design with one multi-clock block, taken through the whole pipeline: the walk
 composes the block's boundary, both designs are searched, and everything the
 covering theorem takes for granted holds.
 */
module OneBlock {
  import opened Netlist
  import opened Graph
  import opened Fanout
  import opened FanoutFilter
  import opened CrossingSearch
  import opened Crossings
  import opened Drivers
  import opened CellWalk
  import opened Fanin
  import opened ClockGraph
  import opened BoundaryCover
  import opened BoundarySummaries
  import opened Composition
  import opened ComposedCover
  import opened BlockBodies
  import opened CoverLimits

  // ---- the block ----------------------------------------------------------

  // Flop q of clock n drives output y, and flop r of clock k captures input x.
  const PAIR_BLOCK := Module(MIX_BLOCK.ports, [Dff("q", 1, Const('0'), 4), Dff("r", 2, Net(3), 6)])

  function PairFacts(): ModuleAnalysis {
    ModuleAnalysis({"n", "k"}, true,
                   map["x" := PortFacts(Some("k"), false, None, false),
                       "y" := PortFacts(Some("n"), false, None, false)], {})
  }

  function PairDomains(): map<nat, string> {
    map[0 := "n", 1 := "k"]
  }

  function PairDrivers(): map<int, Driver> {
    map[4 := Driver(0, "Q"), 6 := Driver(1, "Q")]
  }

  lemma DffConns(name: string, clk: int, d: Bit, q: int)
    ensures var c := Dff(name, clk, d, q);
      Conn(c, "D") == [d] && Conn(c, "Q") == [Net(q)] && Conn(c, "Y") == [] && ValidCell(c) && IsFf(c.ctype)
  {
    var c := Dff(name, clk, d, q);
    assert "D"[0] != "Q"[0] && |"CLK"| == 3;
    assert ValidCell(c);
    ConnIsPin(c, 1);
    ConnIsPin(c, 2);
    NoSuchPin(c, "Y");
  }

  // ---- its flops and nets -------------------------------------------------

  // Net s of the block is this net of the flat design.
  function PairNet(s: int): int {
    if s == 1 then 8
    else if s == 2 then 9
    else if s == 3 then 1
    else if s == 4 then 4
    else if s == 6 then 5
    else if s < 0 then s
    else s + 100
  }

  function PairRenaming(): Renaming {
    (s: int) => PairNet(s)
  }

  lemma PairConns()
    ensures var q, r := PAIR_BLOCK.cells[0], PAIR_BLOCK.cells[1];
      && Conn(q, "D") == [Const('0')] && Conn(q, "Q") == [Net(4)] && Conn(q, "Y") == [] && ValidCell(q) && IsFf(q.ctype)
      && Conn(r, "D") == [Net(3)] && Conn(r, "Q") == [Net(6)] && Conn(r, "Y") == [] && ValidCell(r) && IsFf(r.ctype)
  {
    DffConns("q", 1, Const('0'), 4);
    DffConns("r", 2, Net(3), 6);
  }

  lemma PairOutputs(d: Driver, s: int)
    ensures Outputs(PAIR_BLOCK, d, s) <==> (s == 4 && d == Driver(0, "Q")) || (s == 6 && d == Driver(1, "Q"))
  {
    PairConns();
    if d.cell < 2 {
      assert PAIR_BLOCK.cells[d.cell] == if d.cell == 0 then PAIR_BLOCK.cells[0] else PAIR_BLOCK.cells[1];
    }
  }

  lemma PairIsIndexed()
    ensures IsDriverIndex(PAIR_BLOCK, PairDrivers())
  {
    forall d, s: int ensures Outputs(PAIR_BLOCK, d, s) ==> s in PairDrivers() && d == PairDrivers()[s] {
      PairOutputs(d, s);
    }
    PairOutputs(Driver(0, "Q"), 4);
    PairOutputs(Driver(1, "Q"), 6);
  }

  lemma PairDriven(d: Driver, s: int)
    requires Outputs(PAIR_BLOCK, d, s)
    ensures s in PairDrivers() && d == PairDrivers()[s]
  {
    PairOutputs(d, s);
  }

  lemma PairDrivenApart()
    ensures DrivenApart(PAIR_BLOCK, PairRenaming())
  {
    forall d, s: int, y: int | Outputs(PAIR_BLOCK, d, s) && PairRenaming()(s) == PairRenaming()(y) ensures s == y {
      PairDriven(d, s);
    }
  }

  lemma PairInputNet(port: Port, s: int)
    requires port in PAIR_BLOCK.ports && Enters(port) && Net(s) in port.bits
    ensures s == 1 || s == 2 || s == 3
  {
  }

  lemma PairInputsFree(port: Port, d: Driver, s: int)
    requires port in PAIR_BLOCK.ports && Enters(port) && Net(s) in port.bits
    ensures !Outputs(PAIR_BLOCK, d, s)
  {
    PairInputNet(port, s);
    if Outputs(PAIR_BLOCK, d, s) {
      PairDriven(d, s);
    }
  }

  lemma PairHasNoGates(k: nat)
    requires k < |PAIR_BLOCK.cells|
    ensures !Transit(PAIR_BLOCK.cells[k])
  {
    PairConns();
  }

  lemma PairOneDriver()
    ensures OneDriver(PAIR_BLOCK)
  {
    forall d, e, s: int | Outputs(PAIR_BLOCK, d, s) && Outputs(PAIR_BLOCK, e, s) ensures d == e {
      PairDriven(d, s);
      PairDriven(e, s);
    }
    forall port, d, s: int | port in PAIR_BLOCK.ports && Enters(port) && Net(s) in port.bits
      ensures !Outputs(PAIR_BLOCK, d, s)
    {
      PairInputsFree(port, d, s);
    }
    forall k | 0 <= k < |PAIR_BLOCK.cells| ensures !Transit(PAIR_BLOCK.cells[k]) {
      PairHasNoGates(k);
    }
  }

  lemma PairIsValid()
    ensures ValidModule(PAIR_BLOCK)
  {
    PairConns();
    assert "q"[0] != "r"[0];
  }

  // ---- its port facts -----------------------------------------------------

  lemma NoBackward()
    ensures forall a: int, b: int :: (a, b) !in BackwardEdges(PAIR_BLOCK, PairDrivers())
  {
  }

  lemma NoForward()
    ensures forall a: int, b: int :: (a, b) !in ForwardEdges(PAIR_BLOCK)
  {
    PairConns();
    forall i: nat, a: int, b: int ensures !ForwardStep(PAIR_BLOCK, i, a, b) {
      if i < 2 {
        assert PAIR_BLOCK.cells[i] == if i == 0 then PAIR_BLOCK.cells[0] else PAIR_BLOCK.cells[1];
      }
    }
  }

  lemma {:induction false} NothingFollows(e: Edges, seeds: iset<int>, n: nat)
    requires forall a: int, b: int :: (a, b) !in e
    ensures Ball(e, seeds, n) == seeds
  {
    if n > 0 {
      NothingFollows(e, seeds, n - 1);
    }
  }

  lemma EmptyFits(e: Edges, bits: seq<int>, depth: nat)
    requires forall a: int, b: int :: (a, b) !in e
    ensures Fits(e, bits, depth)
  {
    forall n: nat ensures Ball(e, Start(bits), n) <= Ball(e, Start(bits), depth) {
      NothingFollows(e, Start(bits), n);
      NothingFollows(e, Start(bits), depth);
    }
  }

  // Behind y is flop q, in clock n.
  lemma OutputFound(depth: nat)
    ensures IsFoundOutput(PAIR_BLOCK, PairDrivers(), PairDomains(), depth, PAIR_BLOCK.ports[3], PairFacts().ports["y"])
  {
    var e, bits := BackwardEdges(PAIR_BLOCK, PairDrivers()), NetSeq([Net(4)]);
    NoBackward();
    EmptyFits(e, bits, depth);
    NothingFollows(e, Start(bits), depth);
    OneNet(4);
    forall i: nat ensures FlopBehind(PAIR_BLOCK, PairDrivers(), bits, depth, i) <==> i == 0 {
      assert PairDrivers()[4] == Driver(0, "Q");
    }
    forall c ensures LaunchesAs(PAIR_BLOCK, PairDrivers(), PairDomains(), bits, depth, c) <==> c == Some("n") {
      assert FlopBehind(PAIR_BLOCK, PairDrivers(), bits, depth, 0);
      assert DomainOf(PairDomains(), 0) == Some("n");
    }
    assert PairFacts().ports["y"] == PortFacts(Some("n"), false, None, false);
  }

  // Input x reaches flop r, in clock k.
  lemma InputFound(depth: nat)
    ensures IsFoundInput(PAIR_BLOCK, PairDomains(), depth, PAIR_BLOCK.ports[2], PairFacts().ports["x"])
  {
    var e, bits := ForwardEdges(PAIR_BLOCK), NetSeq([Net(3)]);
    NoForward();
    EmptyFits(e, bits, depth);
    NothingFollows(e, Start(bits), depth);
    OneNet(3);
    PairConns();
    forall i: nat ensures ReachedForward(PAIR_BLOCK, bits, depth, i) <==> i == 1 {
      ReadersOfThree(i);
    }
    forall c ensures CapturesAs(PAIR_BLOCK, PairDomains(), bits, depth, c) <==> c == Some("k") {
      assert ReachedForward(PAIR_BLOCK, bits, depth, 1);
      assert DomainOf(PairDomains(), 1) == Some("k");
    }
    assert "x"[0] != "y"[0] && PairFacts().ports["x"] == PortFacts(Some("k"), false, None, false);
  }

  lemma ReadersOfThree(i: nat)
    ensures ReadsNet(PAIR_BLOCK, i, 3) <==> i == 1
  {
    if i == 1 {
      assert "D" !in NON_READER_PORTS;
      assert DataReads(PAIR_BLOCK, Site(1, 1, 0), 3);
    }
    if s: Site :| s.cell == i && DataReads(PAIR_BLOCK, s, 3) {
      assert PAIR_BLOCK.cells[i].pins[s.pin].bits[s.idx] == Net(3);
    }
  }

  // ---- its summary --------------------------------------------------------

  function PairSummary(): BoundarySummary {
    BoundarySummary([PortBoundary("y", Some("n"), false, 1, None, false)], None,
                    [PortBoundary("x", Some("k"), false, 1, None, false)], true, {})
  }

  lemma PairNames()
    ensures "x" !in MixPins() && "y" !in MixPins() && "x" != "y"
    ensures PairFacts().ports["x"] == PortFacts(Some("k"), false, None, false)
    ensures PairFacts().ports["y"] == PortFacts(Some("n"), false, None, false)
  {
    MixNames();
    assert "x"[0] != "y"[0];
  }

  lemma PairStamps()
    ensures StampPort(Stamps([], []), PAIR_BLOCK.ports[2], MixPins().Keys, PairFacts())
         == Some(Stamps([], PairSummary().inputPorts))
    ensures StampPort(Stamps([], PairSummary().inputPorts), PAIR_BLOCK.ports[3], MixPins().Keys, PairFacts())
         == Some(Stamps(PairSummary().ports, PairSummary().inputPorts))
  {
    PairNames();
    var b := Stamp(PAIR_BLOCK.ports[2], Some("k"), Some(PairFacts().ports["x"]));
    var c := Stamp(PAIR_BLOCK.ports[3], Some("n"), Some(PairFacts().ports["y"]));
    assert [] + [b] == PairSummary().inputPorts && [] + [c] == PairSummary().ports;
  }

  lemma PairMultiClock()
    ensures Describes(PairFacts(), PAIR_BLOCK, MixPins().Keys)
    ensures MultiClockSummary(PAIR_BLOCK, MixPins().Keys, PairFacts()) == Some(PairSummary())
  {
    PairNames();
    PairStamps();
    var ports, pins, a := PAIR_BLOCK.ports, MixPins().Keys, PairFacts();
    assert ports[..4] == ports && ports[..4][..3] == ports[..3] && ports[..3][..2] == ports[..2];
    assert ports[..2][..1] == ports[..1] && ports[..1][..0] == [];
    assert MultiClockStamps(ports[..1], pins, a) == Some(Stamps([], []));
    assert MultiClockStamps(ports[..2], pins, a) == Some(Stamps([], []));
    assert MultiClockStamps(ports[..3], pins, a) == Some(Stamps([], PairSummary().inputPorts));
  }

  // ---- the design ---------------------------------------------------------

  // Flop a of clock m drives input x, and flop d of clock n reads output y.
  const PAIR_Q := Dff("u.q", 8, Const('0'), 4)

  const PAIR_R := Dff("u.r", 9, Net(1), 5)

  const PAIR_FLAT := Module(CLOCK_PORTS, [FLOP_A, PAIR_Q, PAIR_R, FLOP_D])

  const PAIR_TOP := Module(CLOCK_PORTS, [FLOP_A, MIX_INSTANCE, FLOP_D])

  function PairFlops(): seq<FlopDomain> {
    [Flopped("a", 7, Const('0'), 1, "m"), Flopped("u.q", 8, Const('0'), 4, "n"), Flopped("u.r", 9, Net(1), 5, "k"),
     Flopped("d", 8, Net(4), 6, "n")]
  }

  function PairSink(): FlopDomain {
    FlopDomain(Flop("u" + "." + "x", BOUNDARY_SINK_CLK, [Net(1)], []), Some("k"))
  }

  function PairBoundaries(): Boundaries {
    map["u" := PairSummary()]
  }

  ghost function PairDesign(entries: seq<FlopDomain>): Design {
    Design(PAIR_FLAT, [None, Some(1), Some(1), None], PairFlops(), [None, Some(1), Some(1), None],
           PAIR_TOP, entries, PairBoundaries())
  }

  lemma PairBoundary(i: nat)
    requires i < 3
    ensures BoundaryFor(PairBoundaries(), PAIR_TOP.cells[i]) == if i == 1 then Some(PairSummary()) else None
  {
    assert "a"[0] != "u"[0] && "d"[0] != "u"[0] && "$dff"[0] != "u"[0];
  }

  lemma PairSinkIs()
    ensures SinkFlop(MIX_INSTANCE, PairSummary(), PairSummary().inputPorts[0]) == PairSink()
  {
    MixClockConns();
    OneNet(1);
  }

  lemma PairSinks(i: nat, j: nat, fd: FlopDomain)
    ensures IsSink(PAIR_TOP, PairBoundaries(), i, j, fd) <==> i == 1 && j == 0 && fd == PairSink()
  {
    if i < 3 {
      PairBoundary(i);
      PairSinkIs();
    }
  }

  lemma PairPasses(entries: seq<FlopDomain>, i: nat, a: int, b: int)
    ensures !Passes(PairDesign(entries), i, a, b)
  {
  }

  lemma PairReceived(entries: seq<FlopDomain>, x: int, who: Owner)
    ensures ReceivedBy(PairDesign(entries), x, who) <==> (x == 1 && who == Some(1)) || (x == 4 && who == None)
  {
    var g := PairDesign(entries);
    forall i: nat, b ensures !Passes(g, i, x, b) {
      PairPasses(entries, i, x, b);
    }
    assert IsDNet(g.flops[2], 1) && IsDNet(g.flops[3], 4);
  }

  lemma PairLaunched(entries: seq<FlopDomain>, x: int, who: Owner)
    requires LaunchedBy(PairDesign(entries), x, who)
    ensures who == Some(1) ==> x == 4 || x == 5
  {
    forall i: nat, a ensures !Passes(PairDesign(entries), i, a, x) {
      PairPasses(entries, i, a, x);
    }
  }

  // What the search is given: both parent flops and the block's sink, under their names.
  ghost predicate HasEntries(entries: seq<FlopDomain>) {
    && PairFlops()[0] in entries && PairFlops()[3] in entries && PairSink() in entries && DistinctNames(entries)
  }

  lemma PairParentKept(entries: seq<FlopDomain>)
    requires HasEntries(entries)
    ensures ParentKept(PairDesign(entries))
  {
    var g := PairDesign(entries);
    assert g.flat.cells[0] == g.top.cells[0] && g.flat.cells[3] == g.top.cells[2];
    forall i: nat, j: nat, fd | IsSink(g.top, g.boundaries, i, j, fd) ensures fd in g.topDomains {
      PairSinks(i, j, fd);
    }
  }

  lemma PairExits(entries: seq<FlopDomain>)
    ensures ExitsByOutput(PairDesign(entries))
  {
    var g := PairDesign(entries);
    forall c: nat | IsBlock(g, c) ensures c == 1 {
      PairBoundary(c);
    }
    PairBoundary(1);
    MixConns();
    forall x, who | ReceivedBy(g, x, who) && who != Some(1) ensures x == 4 {
      PairReceived(entries, x, who);
    }
    OneExit(g, 1, 0, 4);
  }

  lemma PairFlattens(entries: seq<FlopDomain>)
    requires HasEntries(entries)
    ensures Flattens(PairDesign(entries)) && IsBlock(PairDesign(entries), 1)
    ensures Summary(PairDesign(entries), 1) == PairSummary()
  {
    PairBoundary(1);
    PairParentKept(entries);
    PairExits(entries);
  }

  // ---- its body -----------------------------------------------------------

  lemma CopyOfDff(sub: Module, at: Renaming, k: nat, name: string, clk: int, d: Bit, q: int, copy: string)
    requires k < |sub.cells| && sub.cells[k] == Dff(name, clk, d, q)
    ensures IsCopy(sub, at, k, Dff(copy, at(clk), MapBit(at, d), at(q)))
  {
  }

  lemma CopiedDff(sub: Module, at: Renaming, domains: map<nat, string>, k: nat, name: string, clk: int, d: Bit, q: int,
                  copy: string)
    requires k < |sub.cells| && sub.cells[k] == Dff(name, clk, d, q) && k in domains
    ensures IsCopiedFlop(sub, at, domains, k, Flopped(copy, at(clk), MapBit(at, d), at(q), domains[k]))
  {
    DffConns(name, clk, d, q);
  }

  lemma CopyQ()
    ensures IsCopy(PAIR_BLOCK, PairRenaming(), 0, PAIR_Q) && ValidCell(PAIR_Q)
  {
    CopyOfDff(PAIR_BLOCK, PairRenaming(), 0, "q", 1, Const('0'), 4, "u.q");
    DffConns("u.q", 8, Const('0'), 4);
  }

  lemma CopyR()
    ensures IsCopy(PAIR_BLOCK, PairRenaming(), 1, PAIR_R) && ValidCell(PAIR_R)
  {
    CopyOfDff(PAIR_BLOCK, PairRenaming(), 1, "r", 2, Net(3), 6, "u.r");
    DffConns("u.r", 9, Net(1), 5);
  }

  lemma FlopQ()
    ensures IsCopiedFlop(PAIR_BLOCK, PairRenaming(), PairDomains(), 0, PairFlops()[1])
  {
    CopiedDff(PAIR_BLOCK, PairRenaming(), PairDomains(), 0, "q", 1, Const('0'), 4, "u.q");
  }

  lemma FlopR()
    ensures IsCopiedFlop(PAIR_BLOCK, PairRenaming(), PairDomains(), 1, PairFlops()[2])
  {
    CopiedDff(PAIR_BLOCK, PairRenaming(), PairDomains(), 1, "r", 2, Net(3), 6, "u.r");
  }

  // A port on one net is the instance's pin on that net's image.
  lemma PortImage(port: Port, s: int)
    requires port.bits == [Net(s)] && Conn(MIX_INSTANCE, port.name) == [Net(PairNet(s))]
    ensures IsImage(PairRenaming(), port.bits, Conn(MIX_INSTANCE, port.name))
  {
  }

  lemma PairPortNames()
    ensures PAIR_BLOCK.ports == [Port("clk_a", Input, [Net(1)]), Port("clk_b", Input, [Net(2)]),
                                 Port("x", Input, [Net(3)]), Port("y", Output, [Net(4)])]
  {
  }

  lemma PairPins()
    ensures Conn(MIX_INSTANCE, "clk_a") == [Net(8)] && Conn(MIX_INSTANCE, "clk_b") == [Net(9)]
    ensures Conn(MIX_INSTANCE, "x") == [Net(1)] && Conn(MIX_INSTANCE, "y") == [Net(4)]
  {
    MixClockConns();
    MixConns();
  }

  lemma PairPorts(port: Port)
    requires port in PAIR_BLOCK.ports
    ensures IsImage(PairRenaming(), port.bits, Conn(MIX_INSTANCE, port.name))
  {
    PairPortNames();
    PairPins();
    var s := if port.name == "clk_a" then 1 else if port.name == "clk_b" then 2 else if port.name == "x" then 3 else 4;
    PortImage(port, s);
  }

  lemma PairCellsCopied(entries: seq<FlopDomain>, i: nat)
    requires i < 4 && PairDesign(entries).cellOwner[i] == Some(1)
    ensures ValidCell(PAIR_FLAT.cells[i]) && exists k: nat :: IsCopy(PAIR_BLOCK, PairRenaming(), k, PAIR_FLAT.cells[i])
  {
    CopyQ();
    CopyR();
    assert i == 1 || i == 2;
  }

  lemma PairFlopsCopied(entries: seq<FlopDomain>, f: nat)
    requires f < 4 && PairDesign(entries).flopOwner[f] == Some(1)
    ensures exists k: nat :: IsCopiedFlop(PAIR_BLOCK, PairRenaming(), PairDomains(), k, PairFlops()[f])
  {
    FlopQ();
    FlopR();
    assert f == 1 || f == 2;
  }

  lemma PairBody(entries: seq<FlopDomain>)
    requires IsBlock(PairDesign(entries), 1)
    ensures IsBody(PairDesign(entries), 1, PAIR_BLOCK, PairRenaming(), PairDomains())
  {
    var g, at := PairDesign(entries), PairRenaming();
    PairIsValid();
    PairOneDriver();
    PairDrivenApart();
    forall i | 0 <= i < 4 && g.cellOwner[i] == Some(1)
      ensures ValidCell(g.flat.cells[i]) && exists k: nat :: IsCopy(PAIR_BLOCK, at, k, g.flat.cells[i])
    {
      PairCellsCopied(entries, i);
    }
    forall f | 0 <= f < 4 && g.flopOwner[f] == Some(1)
      ensures exists k: nat :: IsCopiedFlop(PAIR_BLOCK, at, PairDomains(), k, g.flops[f])
    {
      PairFlopsCopied(entries, f);
    }
    forall port | port in PAIR_BLOCK.ports ensures IsImage(at, port.bits, Conn(g.top.cells[1], port.name)) {
      PairPorts(port);
    }
  }

  lemma PairRead(s: int)
    requires ReadInside(PAIR_BLOCK, s)
    ensures s == 3 || s == 4 || s == 6
  {
    var k: nat, p: nat :| k < 2 && ReadsOn(PAIR_BLOCK.cells[k], p, s);
    assert PAIR_BLOCK.cells[k] == if k == 0 then PAIR_BLOCK.cells[0] else PAIR_BLOCK.cells[1];
  }

  // Only x is entered, by its port.
  lemma PairEntries(entries: seq<FlopDomain>)
    requires IsBlock(PairDesign(entries), 1)
    ensures EntersByPorts(PairDesign(entries), 1, PAIR_BLOCK, PairRenaming(), MixPins())
  {
    var g := PairDesign(entries);
    PairNames();
    forall s: int | ReadInside(PAIR_BLOCK, s) && EntersBlock(g, 1, PairRenaming()(s))
      ensures exists port :: OnInputPort(PAIR_BLOCK, MixPins(), port, s)
    {
      PairRead(s);
      PairReceived(entries, PairNet(s), Some(1));
      assert OnInputPort(PAIR_BLOCK, MixPins(), PAIR_BLOCK.ports[2], 3);
    }
  }

  // Net 4 does not enter the block, and nothing else is on y.
  lemma PairThrough(entries: seq<FlopDomain>, x: int, y: int)
    requires IsBlock(PairDesign(entries), 1) && Connects(PairDesign(entries), 1, x, y)
    requires EntersBlock(PairDesign(entries), 1, x)
    ensures !OnPort(PairDesign(entries), 1, PAIR_BLOCK.ports[3], y)
  {
    PairEntered(entries, x);
    NothingInside(entries, x, y);
    XIsNotOnY();
  }

  lemma XIsNotOnY()
    ensures Net(1) !in Conn(MIX_INSTANCE, "y")
  {
    MixConns();
  }

  lemma PairEntered(entries: seq<FlopDomain>, x: int)
    requires EntersBlock(PairDesign(entries), 1, x)
    ensures x == 1
  {
    PairReceived(entries, x, Some(1));
  }

  lemma PairThroughs(entries: seq<FlopDomain>)
    requires IsBlock(PairDesign(entries), 1)
    ensures ThroughsRight(PairDesign(entries), 1, PAIR_BLOCK, MixPins(), PairFacts())
  {
    var g := PairDesign(entries);
    PairDataPorts();
    forall port, x, y |
        port in PAIR_BLOCK.ports && Leaves(port) && port.name !in MixPins() && port.name in PairFacts().ports
      ensures ThroughRight(g, 1, PAIR_BLOCK, MixPins(), PairFacts(), port, x, y)
    {
      if EntersBlock(g, 1, x) && Connects(g, 1, x, y) {
        PairThrough(entries, x, y);
      }
    }
  }

  lemma NothingInside(entries: seq<FlopDomain>, x: int, y: int)
    requires Connects(PairDesign(entries), 1, x, y)
    ensures x == y
  {
    var q :| Inside(PairDesign(entries), 1, q) && q[0] == x && q[|q| - 1] == y;
    if |q| > 1 {
      assert StepInto(PairDesign(entries), Some(1), q, 1);
      var i: nat :| Passes(PairDesign(entries), i, q[0], q[1]);
      PairPasses(entries, i, q[0], q[1]);
    }
  }

  lemma PairIsFound(entries: seq<FlopDomain>, depth: nat)
    requires IsBlock(PairDesign(entries), 1)
    ensures IsFoundBody(PairDesign(entries), 1, PAIR_BLOCK, PairBodyIs(depth), MixPins(), PairFacts())
    ensures ThroughsRight(PairDesign(entries), 1, PAIR_BLOCK, MixPins(), PairFacts())
  {
    PairBody(entries);
    PairIsIndexed();
    PairEntries(entries);
    PairFound(depth);
    PairThroughs(entries);
  }

  lemma PairFound(depth: nat)
    ensures FoundOutputs(PAIR_BLOCK, PairDrivers(), PairDomains(), depth, MixPins(), PairFacts())
    ensures FoundInputs(PAIR_BLOCK, PairDomains(), depth, MixPins(), PairFacts())
  {
    PairNames();
    PairDataPorts();
    OutputFound(depth);
    InputFound(depth);
  }

  function PairBodyIs(depth: nat): Body {
    Body(PairRenaming(), PairDomains(), PairDrivers(), depth)
  }

  lemma PairDataPorts()
    ensures forall port :: port in PAIR_BLOCK.ports && port.name !in MixPins() ==>
        port == PAIR_BLOCK.ports[2] || port == PAIR_BLOCK.ports[3]
  {
    assert MixPins()["clk_a"] == Some("n") && MixPins()["clk_b"] == Some("k");
  }

  // ---- the walk over it ---------------------------------------------------

  // `drivers` is the driver index of the parent, whatever it holds.
  function PairEnv(drivers: map<int, Driver>): Env
    requires forall x :: x in drivers ==> drivers[x].cell < 3
  {
    Env(PAIR_TOP, map["blk" := PAIR_BLOCK], MixParent(drivers),
        (key: Key) => if key == ("blk", MixPins()) then Some(PairFacts()) else None,
        (ctype: string) => false, (i: nat) => None, (i: nat) => {})
  }

  lemma PairKey(drivers: map<int, Driver>)
    requires forall x :: x in drivers ==> drivers[x].cell < 3
    ensures PinRootsOf(MixParent(drivers), MIX_INSTANCE, PAIR_BLOCK) == MixPins()
  {
    MixParentFits(drivers);
    MixPinRoots(MixParent(drivers));
    assert InputNames(PAIR_BLOCK) == InputNames(MIX_BLOCK);
  }

  lemma PairEnvIsValid(drivers: map<int, Driver>)
    requires forall x :: x in drivers ==> drivers[x].cell < 3
    ensures ValidEnv(PairEnv(drivers)) && (forall i: nat :: IsBoundary(PairEnv(drivers), i) <==> i == 1)
  {
    MixParentFits(drivers);
    PairMultiClock();
    assert "$dff"[0] != "blk"[0];
  }

  lemma PairOutcome(drivers: map<int, Driver>)
    requires forall x :: x in drivers ==> drivers[x].cell < 3
    requires ValidEnv(PairEnv(drivers)) && IsBoundary(PairEnv(drivers), 1)
    ensures OutcomeOf(PairEnv(drivers), 1) == Generic(("blk", MixPins()))
    ensures PairEnv(drivers).analyse(("blk", MixPins())) == Some(PairFacts())
  {
    PairKey(drivers);
    assert KeyOf(PairEnv(drivers), 1) == ("blk", MixPins());
    assert !ForwardsClock(PairEnv(drivers), "blk");
  }

  lemma PairIsNotOneDomain(drivers: map<int, Driver>)
    requires forall x :: x in drivers ==> drivers[x].cell < 3
    ensures !IsOneDomain(PairEnv(drivers), ("blk", MixPins()))
  {
    MixSpecIsValid();
    MixNames();
  }

  // The walk gives the block the summary its facts stand for, and nothing else one.
  lemma PairGiven(drivers: map<int, Driver>, st: State)
    requires forall x :: x in drivers ==> drivers[x].cell < 3
    requires ValidEnv(PairEnv(drivers)) && WalkedTo(PairEnv(drivers), st, 3) && IsBoundary(PairEnv(drivers), 1)
    ensures Given(st, 1) == Some(PairSummary())
  {
    var e := PairEnv(drivers);
    PairOutcome(drivers);
    PairIsNotOneDomain(drivers);
    PairMultiClock();
    CacheIsTransparent(e, st, 1, 1);
    assert IsSummary(MixSpec(), PAIR_BLOCK, MixPins(), Some(PairFacts()), Given(st, 1));
  }

  lemma PairComposed(drivers: map<int, Driver>, st: State, entries: seq<FlopDomain>)
    requires forall x :: x in drivers ==> drivers[x].cell < 3
    requires ValidEnv(PairEnv(drivers)) && WalkedTo(PairEnv(drivers), st, 3)
    ensures Composed(PairDesign(entries), PairEnv(drivers), st)
  {
    PairEnvIsValid(drivers);
    PairGiven(drivers, st);
    forall b: nat | b < 3 ensures BoundaryFor(PairBoundaries(), PAIR_TOP.cells[b]) == Given(st, b) {
      PairBoundary(b);
      assert b in st.out ==> IsBoundary(PairEnv(drivers), b);
    }
  }

  lemma PairInstance(drivers: map<int, Driver>, entries: seq<FlopDomain>, depth: nat)
    requires forall x :: x in drivers ==> drivers[x].cell < 3
    requires ValidEnv(PairEnv(drivers)) && IsBlock(PairDesign(entries), 1) && IsBoundary(PairEnv(drivers), 1)
    ensures InstanceFound(PairDesign(entries), PairEnv(drivers), 1, PairBodyIs(depth))
    ensures forall d: nat :: d < 4 ==> DestinationFound(PairDesign(entries), PairEnv(drivers), 1, d)
  {
    PairOutcome(drivers);
    PairIsNotOneDomain(drivers);
    PairIsFound(entries, depth);
  }

  // ---- the search in it ---------------------------------------------------

  // The flops of the parent and the sinks found are the entries of the search.
  lemma PairHasEntries(sinks: seq<FlopDomain>)
    requires forall fd :: fd in sinks <==> exists i: nat, j: nat :: IsSink(PAIR_TOP, PairBoundaries(), i, j, fd)
    ensures HasEntries(PutAll([PairFlops()[0], PairFlops()[3]], sinks))
  {
    var flops := [PairFlops()[0], PairFlops()[3]];
    assert "a"[0] != "d"[0] && "u.x"[0] != "a"[0] && "u.x"[0] != "d"[0] && "u" + "." + "x" == "u.x";
    PairSinks(1, 0, PairSink());
    forall fd ensures fd in sinks <==> fd == PairSink() {
      if i: nat, j: nat :| IsSink(PAIR_TOP, PairBoundaries(), i, j, fd) {
        PairSinks(i, j, fd);
      }
    }
    OnlyOne(sinks, PairSink());
    PutAllIsUpdate(flops, sinks);
  }

  // The last of several equal entries is the last of its name.
  lemma OnlyOne(sinks: seq<FlopDomain>, sink: FlopDomain)
    requires sink in sinks && forall fd :: fd in sinks ==> fd == sink
    ensures IsLastNamed(sinks, sink)
  {
    IsLastNamedIff(sinks, sink);
    assert sinks[|sinks| - 1] in sinks;
  }

  lemma FlatCrossing(maxHops: nat, flatFound: Found, entries: seq<FlopDomain>)
    requires FoundExact(PAIR_FLAT, PairFlops(), map[], map[], maxHops, AllOrigins(), flatFound)
    ensures FlatReports(PairDesign(entries), maxHops, flatFound, 0, 2, [1])
  {
    OneNet(1);
    assert "a"[0] != "u.r"[0] && "m"[0] != "k"[0];
    FlatPathIsReported(PairDesign(entries), maxHops, flatFound, 0, 2, [1]);
  }

  const FANIN_BOUND: nat := 12

  // What the covering theorem asks of the design, of its one block and of the path.
  ghost predicate FitsDesign(drivers: map<int, Driver>, st: State, entries: seq<FlopDomain>, maxHops: nat, found: Found)
    requires forall x :: x in drivers ==> drivers[x].cell < 3
  {
    && Composed(PairDesign(entries), PairEnv(drivers), st) && Flattens(PairDesign(entries))
    && TopExact(PairDesign(entries), map[], maxHops, found)
  }

  ghost predicate FitsBlock(drivers: map<int, Driver>, entries: seq<FlopDomain>)
    requires forall x :: x in drivers ==> drivers[x].cell < 3
  {
    && ValidEnv(PairEnv(drivers)) && IsBlock(PairDesign(entries), 1) && IsBoundary(PairEnv(drivers), 1)
    && InstanceFound(PairDesign(entries), PairEnv(drivers), 1, PairBodyIs(FANIN_BOUND))
    && DestinationFound(PairDesign(entries), PairEnv(drivers), 1, 2)
  }

  ghost predicate FitsPath(entries: seq<FlopDomain>, maxHops: nat, flatFound: Found) {
    FlatReports(PairDesign(entries), maxHops, flatFound, 0, 2, [1]) && CrossesPort(PairDesign(entries), 0, 2, [1])
  }

  lemma PairFitsDesign(drivers: map<int, Driver>, st: State, entries: seq<FlopDomain>, maxHops: nat, found: Found)
    requires forall x :: x in drivers ==> drivers[x].cell < 3
    requires ValidEnv(PairEnv(drivers)) && WalkedTo(PairEnv(drivers), st, 3) && HasEntries(entries)
    requires FoundExact(PAIR_TOP, entries, map[], PairBoundaries(), maxHops, AllOrigins(), found)
    ensures FitsDesign(drivers, st, entries, maxHops, found)
  {
    PairFlattens(entries);
    PairComposed(drivers, st, entries);
  }

  lemma PairFitsBlock(drivers: map<int, Driver>, entries: seq<FlopDomain>)
    requires (forall x :: x in drivers ==> drivers[x].cell < 3) && HasEntries(entries)
    ensures FitsBlock(drivers, entries)
  {
    PairEnvIsValid(drivers);
    PairFlattens(entries);
    PairInstance(drivers, entries, FANIN_BOUND);
  }

  lemma PairFitsPath(entries: seq<FlopDomain>, maxHops: nat, flatFound: Found)
    requires FoundExact(PAIR_FLAT, PairFlops(), map[], map[], maxHops, AllOrigins(), flatFound)
    ensures FitsPath(entries, maxHops, flatFound)
  {
    FlatCrossing(maxHops, flatFound, entries);
  }

  // And what it then promises: the crossing from flop a into the block's flop of clock k
  // leaves a record captured in k.
  lemma PairCovered(drivers: map<int, Driver>, st: State, entries: seq<FlopDomain>, maxHops: nat, flatFound: Found,
                    found: Found)
    returns (o: Origin, t: nat)
    requires forall x :: x in drivers ==> drivers[x].cell < 3
    requires FitsDesign(drivers, st, entries, maxHops, found) && FitsBlock(drivers, entries)
    requires FitsPath(entries, maxHops, flatFound)
    ensures LeavesRecord(PairDesign(entries), map[], found, [1], 1, o, t) && entries[t].clock == Some("k")
  {
    var g, e := PairDesign(entries), PairEnv(drivers);
    PairEnvIsValid(drivers);
    o, t := FoundFactsNeverUnderReport(g, e, st, (b: nat) => PairBodyIs(FANIN_BOUND), map[], maxHops, flatFound, found,
                                       0, 2, [1]);
  }

  lemma DistinctCells(m: Module)
    requires forall i :: 0 <= i < |m.cells| ==> ValidCell(m.cells[i])
    requires forall i, j :: 0 <= i < j < |m.cells| ==> m.cells[i].name != m.cells[j].name
    ensures ValidModule(m)
  {
  }

  lemma CellNames()
    ensures "a" != "u" && "a" != "d" && "u" != "d" && "u.q" != "u.r" && |"u.q"| == |"u.r"| == 3
  {
    assert "a"[0] != "u"[0] && "a"[0] != "d"[0] && "d"[0] != "u"[0] && "u.q"[2] != "u.r"[2];
  }

  lemma PairTopIsValid()
    ensures ValidModule(PAIR_TOP)
  {
    forall i | 0 <= i < 3 ensures ValidCell(PAIR_TOP.cells[i]) {
      DffConns("a", 7, Const('0'), 1);
      DffConns("d", 8, Net(4), 6);
      MixIsValid();
    }
    CellNames();
    DistinctCells(PAIR_TOP);
  }

  lemma MixIsValid()
    ensures ValidCell(MIX_INSTANCE)
  {
  }

  lemma PairFlatCell(i: nat)
    requires i < 4
    ensures ValidCell(PAIR_FLAT.cells[i])
    ensures PAIR_FLAT.cells[i].name == if i == 0 then "a" else if i == 1 then "u.q" else if i == 2 then "u.r" else "d"
  {
    if i == 0 {
      DffConns("a", 7, Const('0'), 1);
    } else if i == 1 {
      DffConns("u.q", 8, Const('0'), 4);
    } else if i == 2 {
      DffConns("u.r", 9, Net(1), 5);
    } else {
      DffConns("d", 8, Net(4), 6);
    }
  }

  lemma PairFlatIsValid()
    ensures ValidModule(PAIR_FLAT)
  {
    CellNames();
    forall i: nat | i < 4
      ensures ValidCell(PAIR_FLAT.cells[i])
      ensures PAIR_FLAT.cells[i].name == if i == 0 then "a" else if i == 1 then "u.q" else if i == 2 then "u.r" else "d"
    {
      PairFlatCell(i);
    }
    DistinctCells(PAIR_FLAT);
  }

  // The pipeline on this design: compose, search both netlists, and the theorem applies.
  method CheckOneBlock(drivers: map<int, Driver>, maxHops: nat)
    returns (st: State, entries: seq<FlopDomain>, found: Found, flatFound: Found)
    requires forall x :: x in drivers ==> drivers[x].cell < 3
    ensures FitsDesign(drivers, st, entries, maxHops, found) && FitsBlock(drivers, entries)
    ensures FitsPath(entries, maxHops, flatFound)
  {
    PairEnvIsValid(drivers);
    PairTopIsValid();
    PairFlatIsValid();
    st := ComposeBoundaries(PairEnv(drivers));
    var sinks;
    entries, sinks, found := FindCrossings(PAIR_TOP, [PairFlops()[0], PairFlops()[3]], maxHops, map[],
        PairBoundaries());
    PairHasEntries(sinks);
    var all, none;
    all, none, flatFound := FindCrossings(PAIR_FLAT, PairFlops(), maxHops, map[], map[]);
    NoBoundariesNoSinks(none);
    PairFitsDesign(drivers, st, entries, maxHops, found);
    PairFitsBlock(drivers, entries);
    PairFitsPath(entries, maxHops, flatFound);
  }

  lemma NoBoundariesNoSinks(none: seq<FlopDomain>)
    requires forall fd :: fd in none <==> exists i: nat, j: nat :: IsSink(PAIR_FLAT, map[], i, j, fd)
    ensures none == []
  {
    FirstIsMember(none);
  }

  lemma FirstIsMember<T>(s: seq<T>)
    ensures s == [] || s[0] in s
  {
  }
}
