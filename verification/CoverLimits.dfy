/**
 Two summaries the boundary walk may hand out that lose a crossing: a block
 whose clock pin nobody recognised, and an output of a multi-clock block that
 mixes a registered value with an input.
 */
module CoverLimits {
  import opened Netlist
  import opened Graph
  import opened Fanout
  import opened FanoutFilter
  import opened CrossingSearch
  import opened Crossings
  import opened ClockGraph
  import opened BoundaryCover
  import opened BoundarySummaries
  import opened BlockBodies
  import opened Drivers
  import opened CellWalk
  import opened Fanin
  import ClockTrace

  // ---- flops and their clocks ---------------------------------------------

  // Three clocks come in on nets 7, 8 and 9.
  const CLOCK_PORTS: seq<Port> := [Port("m", Input, [Net(7)]), Port("n", Input, [Net(8)]), Port("k", Input, [Net(9)])]

  function Dff(name: string, clk: int, d: Bit, q: int): Cell {
    Cell(name, "$dff", [Pin("CLK", [Net(clk)]), Pin("D", [d]), Pin("Q", [Net(q)])])
  }

  function Flopped(name: string, clk: int, d: Bit, q: int, clock: string): FlopDomain {
    FlopDomain(Flop(name, Net(clk), [d], [Net(q)]), Some(clock))
  }

  lemma DffIsFlop(name: string, clk: int, d: Bit, q: int)
    ensures FlopOf(Dff(name, clk, d, q)) == Some(Flop(name, Net(clk), [d], [Net(q)]))
  {
    var c := Dff(name, clk, d, q);
    assert |"CLK"| == 3 && "D"[0] != "Q"[0];
    assert ValidCell(c);
    ConnIsPin(c, 0);
    ConnIsPin(c, 1);
    ConnIsPin(c, 2);
  }

  // The flops of the flat design are its flop cells, each labelled with the port its own
  // clock net comes in by.
  ghost predicate LabelsAreTraced(g: Design) {
    && (forall f {:trigger IsLabelled(g, f)} :: 0 <= f < |g.flops| ==> IsLabelled(g, f))
    && (forall i {:trigger CellIsListed(g, i)} :: 0 <= i < |g.flat.cells| ==> CellIsListed(g, i))
  }

  ghost predicate IsFlopCell(g: Design, f: int)
    requires 0 <= f < |g.flops|
  {
    exists i :: IsCellOf(g, f, i)
  }

  ghost predicate IsListed(g: Design, i: int)
    requires 0 <= i < |g.flat.cells|
  {
    exists f :: 0 <= f < |g.flops| && FlopOf(g.flat.cells[i]) == Some(g.flops[f].flop)
  }

  // The clock net of the flop comes in by the port it is labelled with.
  ghost predicate IsTraced(g: Design, f: int)
    requires 0 <= f < |g.flops|
  {
    var port := PortOfBit(g.flat.ports, g.flops[f].flop.clk);
    g.flops[f].flop.clk.Net? && port.Some? && port.value.direction == Input && g.flops[f].clock == Some(port.value.name)
  }

  // Such a label is what the clock-root tracer finds from the flop, whatever the drivers,
  // the budget and the clock set.
  lemma LabelIsTraced(g: Design, f: nat, c: ClockTrace.Context, depth: nat)
    requires f < |g.flops| && IsTraced(g, f)
    requires c.m == g.flat && c.bitToClock == map[] && depth > 0
    ensures ClockTrace.Trace(ClockTrace.ViewOf(c), g.flops[f].flop.clk, {}, depth) == g.flops[f].clock
  {
    assert ClockTrace.RootAt(c, g.flops[f].flop.clk.id) == g.flops[f].clock;
  }

  // Flop f is flop cell i, on the clock net that comes in by the port it is labelled with.
  lemma FlopIsLabelled(g: Design, f: nat, i: nat, name: string, clk: int, d: Bit, q: int)
    requires f < |g.flops| && f < |g.flopOwner| && i < |g.flat.cells| && i < |g.cellOwner|
    requires g.flat.cells[i] == Dff(name, clk, d, q) && g.cellOwner[i] == g.flopOwner[f]
    requires g.flat.ports == CLOCK_PORTS && 7 <= clk <= 9
    requires g.flops[f] == Flopped(name, clk, d, q, PortName(clk))
    ensures IsLabelled(g, f) && CellIsListed(g, i)
  {
    DffIsFlop(name, clk, d, q);
    ClockPort(clk);
    assert IsCellOf(g, f, i);
  }

  ghost predicate IsCellOf(g: Design, f: int, i: int)
    requires 0 <= f < |g.flops|
  {
    && 0 <= i < |g.flat.cells| && i < |g.cellOwner| && f < |g.flopOwner|
    && FlopOf(g.flat.cells[i]) == Some(g.flops[f].flop) && g.cellOwner[i] == g.flopOwner[f]
  }

  ghost predicate IsLabelled(g: Design, f: int)
    requires 0 <= f < |g.flops|
  {
    IsFlopCell(g, f) && IsTraced(g, f)
  }

  ghost predicate CellIsListed(g: Design, i: int)
    requires 0 <= i < |g.flat.cells|
  {
    FlopOf(g.flat.cells[i]).Some? ==> IsListed(g, i)
  }

  function PortName(x: int): string {
    if x == 7 then "m" else if x == 8 then "n" else "k"
  }

  // The parent's own tracer finds the ports the clock nets come in by.
  ghost predicate TracesPorts(p: Parent) {
    forall divider: bool, x {:trigger p.trace(Net(x), divider)} ::
      7 <= x <= 9 ==> p.trace(Net(x), divider) == Some(PortName(x))
  }

  // And so it labels every flop as the design does.
  ghost predicate LabelsAgree(g: Design, p: Parent) {
    forall f :: 0 <= f < |g.flops| ==> p.trace(g.flops[f].flop.clk, true) == g.flops[f].clock
  }

  // A clock net traces to the port it comes in on.
  lemma ClockNetTraces(c: ClockTrace.Context, x: int, depth: nat)
    requires c.m.ports == CLOCK_PORTS && c.bitToClock == map[] && depth > 0 && 7 <= x <= 9
    ensures ClockTrace.Trace(ClockTrace.ViewOf(c), Net(x), {}, depth)
         == Some(PortName(x))
  {
    ClockPort(x);
    assert ClockTrace.RootAt(c, x) == Some(CLOCK_PORTS[x - 7].name);
  }

  lemma ClockPort(x: int)
    requires 7 <= x <= 9
    ensures PortOfBit(CLOCK_PORTS, Net(x)) == Some(CLOCK_PORTS[x - 7])
  {
    var rest := CLOCK_PORTS[1..];
    assert rest == [CLOCK_PORTS[1], CLOCK_PORTS[2]] && rest[1..] == [CLOCK_PORTS[2]];
    assert PortOfBit(rest[1..], Net(9)) == Some(CLOCK_PORTS[2]);
    assert PortOfBit(rest, Net(8)) == Some(CLOCK_PORTS[1]) && PortOfBit(rest, Net(9)) == Some(CLOCK_PORTS[2]);
  }

  lemma ClockInputs(name: string)
    ensures InputBits(CLOCK_PORTS, name).Some? ==>
        exists x :: 7 <= x <= 9 && InputBits(CLOCK_PORTS, name).value == [Net(x)]
  {
    var rest := CLOCK_PORTS[1..];
    assert rest == [CLOCK_PORTS[1], CLOCK_PORTS[2]] && rest[1..] == [CLOCK_PORTS[2]] && rest[1..][1..] == [];
    assert InputBits(rest[1..][1..], name) == None;
    assert InputBits(rest[1..], name).Some? ==> InputBits(rest[1..], name).value == [Net(9)];
    assert InputBits(rest, name).Some? ==>
        InputBits(rest, name).value == [Net(8)] || InputBits(rest, name).value == [Net(9)];
    assert CLOCK_PORTS[0].bits == [Net(7)];
  }

  // The flat design reports a crossing and the abstracted parent reports nothing at all.
  ghost predicate Hides(g: Design, f: nat, d: nat, p: seq<int>) {
    && Flattens(g)
    && (forall maxHops: nat, flatFound ::
          |p| - 1 <= maxHops && FoundExact(g.flat, g.flops, map[], map[], maxHops, AllOrigins(), flatFound) ==>
          FlatReports(g, maxHops, flatFound, f, d, p))
    && (forall portClock, maxHops: nat, found, o, t ::
          TopExact(g, portClock, maxHops, found) && o in found ==> t !in found[o])
  }

  lemma FlatPathIsReported(g: Design, maxHops: nat, flatFound: Found, f: nat, d: nat, p: seq<int>)
    requires FoundExact(g.flat, g.flops, map[], map[], maxHops, AllOrigins(), flatFound)
    requires ForeignPair(g, f, d) && g.flops[f].flop.name != g.flops[d].flop.name
    requires CrossingPath(g.flat, FlopSourceOf(g.flops[f]), g.flops[d], maxHops, p)
    ensures FlatReports(g, maxHops, flatFound, f, d, p)
  {
    assert FromFlop(f) in AllOrigins();
    assert SourceOf(g.flat, g.flops, map[], map[], FromFlop(f)) == Some(FlopSourceOf(g.flops[f]));
    ReportedIffPath(g.flat, g.flops, FlopSourceOf(g.flops[f]), maxHops, flatFound[FromFlop(f)], d);
  }

  // ---- a block without a clock --------------------------------------------

  // Flop a of clock m feeds block u, whose one flop is clocked from a pin called phi.
  const PHI_BLOCK := Module([Port("phi", Input, [Net(1)]), Port("d", Input, [Net(2)])], [])

  const PHI_INSTANCE := Cell("u", "blk", [Pin("phi", [Net(8)]), Pin("d", [Net(1)])])

  const FLOP_A := Dff("a", 7, Const('0'), 1)

  const FLOP_U := Dff("u.q", 8, Net(1), 2)

  function PhiSummary(): BoundarySummary {
    SingleClockSummary(PHI_BLOCK, {}, None, None)
  }

  ghost function PhiDesign(): Design {
    var a, q := Flopped("a", 7, Const('0'), 1, "m"), Flopped("u.q", 8, Net(1), 2, "n");
    Design(Module(CLOCK_PORTS, [FLOP_A, FLOP_U]), [None, Some(1)], [a, q], [None, Some(1)],
           Module(CLOCK_PORTS, [FLOP_A, PHI_INSTANCE]), [a, PhiSink("phi", 8), PhiSink("d", 1)],
               map["u" := PhiSummary()])
  }

  function PhiSink(port: string, x: int): FlopDomain {
    FlopDomain(Flop("u" + "." + port, BOUNDARY_SINK_CLK, [Net(x)], []), None)
  }

  lemma PhiPorts()
    ensures PhiSummary().ports == [] && PhiSummary().clock == None
    ensures PhiSummary().inputPorts ==
            [PortBoundary("phi", None, false, 1, None, false), PortBoundary("d", None, false, 1, None, false)]
  {
    var ports := PHI_BLOCK.ports;
    assert ports[..1] == [ports[0]] && ports[..1][..0] == [] && ports[..|ports| - 1] == ports[..1];
    assert OutputStamps(ports[..1], None, None) == [];
    assert InputStamps(ports[..1], {}, None, None) == [PortBoundary("phi", None, false, 1, None, false)];
  }

  lemma PhiConns()
    ensures Conn(PHI_INSTANCE, "phi") == [Net(8)] && Conn(PHI_INSTANCE, "d") == [Net(1)]
  {
    assert ValidCell(PHI_INSTANCE);
    ConnIsPin(PHI_INSTANCE, 0);
    ConnIsPin(PHI_INSTANCE, 1);
  }

  lemma OneNet(x: int)
    ensures OnlyNets([Net(x)]) == [Net(x)] && NetSeq([Net(x)]) == [x]
  {
    assert [Net(x)][1..] == [];
  }

  lemma PhiSinkFlop(pb: PortBoundary)
    requires pb.srcClock == None && (pb.port == "phi" || pb.port == "d")
    ensures SinkFlop(PHI_INSTANCE, PhiSummary(), pb) == PhiSink(pb.port, if pb.port == "phi" then 8 else 1)
  {
    PhiPorts();
    PhiConns();
    OneNet(8);
    OneNet(1);
  }

  lemma PhiBoundary(i: nat)
    requires i < 2
    ensures BoundaryFor(PhiDesign().boundaries, PhiDesign().top.cells[i]) == if i == 1 then Some(PhiSummary()) else None
  {
    assert "a" != "u" && "$dff"[0] != "u"[0];
  }

  lemma PhiSinks(i: nat, j: nat, fd: FlopDomain)
    requires IsSink(PhiDesign().top, PhiDesign().boundaries, i, j, fd)
    ensures fd in PhiDesign().topDomains && fd.clock == None
  {
    PhiBoundary(i);
    PhiPorts();
    PhiSinkFlop(PhiSummary().inputPorts[j]);
  }

  // The flat design has no combinational cell.
  lemma PhiPasses(i: nat, a: int, b: int)
    ensures !Passes(PhiDesign(), i, a, b)
  {
  }

  lemma PhiReceived(x: int, who: Owner)
    requires ReceivedBy(PhiDesign(), x, who)
    ensures x == 1 && who == Some(1)
  {
    forall i: nat, b ensures !Passes(PhiDesign(), i, x, b) {
      PhiPasses(i, x, b);
    }
  }

  lemma PhiLaunched(x: int, who: Owner)
    requires LaunchedBy(PhiDesign(), x, who)
    ensures (x == 1 && who == None) || (x == 2 && who == Some(1))
  {
    forall i: nat, a ensures !Passes(PhiDesign(), i, a, x) {
      PhiPasses(i, a, x);
    }
  }

  lemma PhiParentKept()
    ensures ParentKept(PhiDesign())
  {
    var g := PhiDesign();
    assert g.flat.cells[0] == g.top.cells[0] && g.flops[0] == g.topDomains[0];
    forall i: nat, j: nat, fd | IsSink(g.top, g.boundaries, i, j, fd) ensures fd in g.topDomains {
      PhiSinks(i, j, fd);
    }
    assert "a"[0] != "u.phi"[0] && "a"[0] != "u.d"[0] && "u.phi"[2] != "u.d"[2];
  }

  lemma PhiFlattens()
    ensures Flattens(PhiDesign())
  {
    var g := PhiDesign();
    PhiBoundary(1);
    PhiParentKept();
    forall x, b: nat, who ensures !(LaunchedBy(g, x, Some(b)) && ReceivedBy(g, x, who)) {
      if LaunchedBy(g, x, Some(b)) && ReceivedBy(g, x, who) {
        PhiReceived(x, who);
        PhiLaunched(x, Some(b));
      }
    }
  }

  lemma PhiSilent(portClock: map<string, string>, maxHops: nat, found: Found, o: Origin, t: nat)
    requires TopExact(PhiDesign(), portClock, maxHops, found) && o in found
    ensures t !in found[o]
  {
    var g := PhiDesign();
    PhiBoundary(0);
    PhiBoundary(1);
    PhiPorts();
    if 0 < t < 3 {
      ClocklessIsNoSink(g, portClock, maxHops, found, o, t);
    } else {
      NoNetNoRecord(g, portClock, maxHops, found, o, t);
    }
  }

  // A sink without a net on its D pin is never reported.
  lemma NoNetNoRecord(g: Design, portClock: map<string, string>, maxHops: nat, found: Found, o: Origin, t: nat)
    requires TopExact(g, portClock, maxHops, found) && o in found
    requires t < |g.topDomains| ==> forall x :: !IsDNet(g.topDomains[t], x)
    ensures t !in found[o]
  {
    assert o in AllOrigins();
    var s := SourceOf(g.top, g.topDomains, portClock, g.boundaries, o).value;
    ReportedIffPath(g.top, g.topDomains, s, maxHops, found[o], t);
  }

  // No pin of the instance is a clock pin: `phi` is not in the list of names and does
  // not look like a clock.
  lemma PhiPinRoots(p: Parent)
    requires ValidSpec(p.spec) && !p.looksLikeClock("phi") && !p.looksLikeClock("d")
    ensures PinRootsOf(p, PHI_INSTANCE, PHI_BLOCK) == map[]
  {
    assert |"phi"| == 3 && "phi"[0] != "CLK"[0] && "phi"[0] != "clk"[0] && "d"[0] != "C"[0];
    forall pin | pin in InputNames(PHI_BLOCK) ensures PinRoot(p, PHI_INSTANCE, pin).None? {
      assert pin == "phi" || pin == "d";
      assert pin !in CLOCK_PIN_NAMES;
    }
  }

  lemma PhiIsSummary(s: ClockSpec)
    ensures IsSummary(s, PHI_BLOCK, map[], None, Some(PhiSummary()))
  {
    PhiPorts();
    assert ClocksOf(map[]) == InstanceClocks({}, {}, map[]);
  }

  lemma PhiLabel(g: Design, f: nat)
    requires f < 2 && g.flat == Module(CLOCK_PORTS, [FLOP_A, FLOP_U]) && g.cellOwner == g.flopOwner == [None, Some(1)]
    requires g.flops == [Flopped("a", 7, Const('0'), 1, "m"), Flopped("u.q", 8, Net(1), 2, "n")]
    ensures IsLabelled(g, f) && CellIsListed(g, f)
  {
    if f == 0 {
      FlopIsLabelled(g, 0, 0, "a", 7, Const('0'), 1);
    } else {
      FlopIsLabelled(g, 1, 1, "u.q", 8, Net(1), 2);
    }
  }

  lemma PhiLabels()
    ensures LabelsAreTraced(PhiDesign())
  {
    var g := PhiDesign();
    forall f | 0 <= f < |g.flops| ensures IsLabelled(g, f) {
      PhiLabel(g, f);
    }
    forall i | 0 <= i < |g.flat.cells| ensures CellIsListed(g, i) {
      PhiLabel(g, i);
    }
  }

  lemma PhiPath()
    ensures CrossingPath(PhiDesign().flat, FlopSourceOf(PhiDesign().flops[0]), PhiDesign().flops[1], 0, [1])
  {
    OneNet(1);
  }

  lemma PhiHides()
    ensures Hides(PhiDesign(), 0, 1, [1])
  {
    var g := PhiDesign();
    PhiFlattens();
    PhiPath();
    forall maxHops: nat, flatFound | FoundExact(g.flat, g.flops, map[], map[], maxHops, AllOrigins(), flatFound)
      ensures FlatReports(g, maxHops, flatFound, 0, 1, [1])
    {
      assert "a" != "u.q" && "m"[0] != "n"[0];
      FlatPathIsReported(g, maxHops, flatFound, 0, 1, [1]);
    }
    forall portClock, maxHops: nat, found, o, t: nat | TopExact(g, portClock, maxHops, found) && o in found
      ensures t !in found[o]
    {
      PhiSilent(portClock, maxHops, found, o, t);
    }
  }

  lemma PhiLabelsAgree(p: Parent)
    requires TracesPorts(p)
    ensures LabelsAgree(PhiDesign(), p)
  {
    assert p.trace(Net(7), true) == Some("m") && p.trace(Net(8), true) == Some("n");
  }

  // A block whose clock pin is not recognised is summarised without a clock, and
  // the crossing into it that the flat design reports is gone.
  lemma ClocklessBlockHidesCrossing(p: Parent)
    requires ValidSpec(p.spec) && TracesPorts(p) && !p.looksLikeClock("phi") && !p.looksLikeClock("d")
    ensures PinRootsOf(p, PHI_INSTANCE, PHI_BLOCK) == map[]
    ensures IsSummary(p.spec, PHI_BLOCK, map[], None, Some(PhiSummary()))
    ensures IsBlock(PhiDesign(), 1) && Summary(PhiDesign(), 1) == PhiSummary() && PhiSummary().clock == None
    ensures LabelsAreTraced(PhiDesign()) && LabelsAgree(PhiDesign(), p) && Hides(PhiDesign(), 0, 1, [1])
  {
    PhiPinRoots(p);
    PhiIsSummary(p.spec);
    PhiBoundary(1);
    PhiPorts();
    PhiLabels();
    PhiLabelsAgree(p);
    PhiHides();
  }

  // ---- an output that mixes a register and an input -----------------------

  // Block u has flops in clocks n and k; its output y is flop u.q and input x, and
  // x reaches no flop inside.  Flop a of clock m drives x, flop d of clock n reads y.
  const MIX_BLOCK := Module(
    [Port("clk_a", Input, [Net(1)]), Port("clk_b", Input, [Net(2)]), Port("x", Input, [Net(3)]),
        Port("y", Output, [Net(4)])],
    [BODY_Q, BODY_R, BODY_G])

  const BODY_Q := Cell("q", "$dff", [Pin("CLK", [Net(1)]), Pin("D", [Const('0')]), Pin("Q", [Net(5)])])

  const BODY_R := Cell("r", "$dff", [Pin("CLK", [Net(2)]), Pin("D", [Const('0')]), Pin("Q", [Net(6)])])

  const BODY_G := Cell("g", "$and", [Pin("A", [Net(3)]), Pin("B", [Net(5)]), Pin("Y", [Net(4)])])

  const MIX_INSTANCE := Cell("u", "blk", [
    Pin("clk_a", [Net(8)]), Pin("clk_b", [Net(9)]), Pin("x", [Net(1)]), Pin("y", [Net(4)])
  ])

  const FLOP_Q := Dff("u.q", 8, Const('0'), 3)

  const FLOP_R := Dff("u.r", 9, Const('0'), 5)

  const GATE_Y := Cell("u.g", "$and", [Pin("A", [Net(1)]), Pin("B", [Net(3)]), Pin("Y", [Net(4)])])

  const FLOP_D := Dff("d", 8, Net(4), 6)

  function MixPins(): PinMap {
    map["clk_a" := Some("n"), "clk_b" := Some("k")]
  }

  // The launching flop of y is u.q alone, and x is captured by nothing.
  function MixFacts(): ModuleAnalysis {
    ModuleAnalysis({"n", "k"}, true,
                   map["x" := PortFacts(None, false, None, false), "y" := PortFacts(Some("n"), false, None, false)], {})
  }

  function MixSummary(): BoundarySummary {
    BoundarySummary([PortBoundary("y", Some("n"), false, 1, None, false)], None, [], true, {})
  }

  ghost function MixDesign(): Design {
    var a, q := Flopped("a", 7, Const('0'), 1, "m"), Flopped("u.q", 8, Const('0'), 3, "n");
    var r, d := Flopped("u.r", 9, Const('0'), 5, "k"), Flopped("d", 8, Net(4), 6, "n");
    Design(Module(CLOCK_PORTS, [FLOP_A, FLOP_Q, FLOP_R, GATE_Y, FLOP_D]), [None, Some(1), Some(1), Some(1), None],
           [a, q, r, d], [None, Some(1), Some(1), None],
           Module(CLOCK_PORTS, [FLOP_A, MIX_INSTANCE, FLOP_D]), [a, d], map["u" := MixSummary()])
  }

  // A parent in which n and k are declared clocks, and which knows a clock by its name.
  ghost predicate TracesMix(p: Parent) {
    && ValidSpec(p.spec) && "n" in p.spec.clocks && "k" in p.spec.clocks && TracesPorts(p)
    && p.looksLikeClock("clk_a") && p.looksLikeClock("clk_b") && !p.looksLikeClock("x")
  }

  // There is one: the tracer on the parent itself, with two declared clocks and no
  // statement about them.
  function MixSpec(): ClockSpec {
    ClockSpec(map["n" := Clock({}, None, false), "k" := Clock({}, None, false)], ["n", "k"], [], [], {}, map[])
  }

  function MixContext(drivers: map<int, Driver>, divider: bool): ClockTrace.Context
    requires forall x :: x in drivers ==> drivers[x].cell < 3
  {
    ClockTrace.Netlisted(Module(CLOCK_PORTS, [FLOP_A, MIX_INSTANCE, FLOP_D]), drivers, map[], divider, None)
  }

  function MixParent(drivers: map<int, Driver>): Parent
    requires forall x :: x in drivers ==> drivers[x].cell < 3
  {
    Parent(MixSpec(),
           (bit: Bit, divider: bool) => ClockTrace.Trace(ClockTrace.ViewOf(MixContext(drivers, divider)), bit, {}, 16),
           (pin: string) => pin == "clk_a" || pin == "clk_b")
  }

  lemma MixParentFits(drivers: map<int, Driver>)
    requires forall x :: x in drivers ==> drivers[x].cell < 3
    ensures TracesMix(MixParent(drivers)) && !IsSingleDomain(MixSpec(), AsClocks({"n", "k"}))
  {
    MixSpecIsValid();
    forall divider: bool, x | 7 <= x <= 9 ensures MixParent(drivers).trace(Net(x), divider) == Some(PortName(x)) {
      ClockNetTraces(MixContext(drivers, divider), x, 16);
    }
    assert |"x"| != |"clk_a"|;
  }

  lemma MixSpecIsValid()
    ensures ValidSpec(MixSpec()) && !IsSingleDomain(MixSpec(), AsClocks({"n", "k"}))
  {
    assert MixSpec().order[0] == "n" && MixSpec().order[1] == "k" && "n"[0] != "k"[0];
    SeparateClocks(MixSpec(), "n", "k");
  }

  lemma SeparateClocks(s: ClockSpec, a: string, b: string)
    requires MastersOf(s) == map[] && a != b
    ensures !IsSingleDomain(s, AsClocks({a, b}))
  {
    assert Some(a) in AsClocks({a, b}) && Some(b) in AsClocks({a, b});
    assert !SameDomain(s, a, b);
  }

  lemma MixClockConns()
    ensures Conn(MIX_INSTANCE, "clk_a") == [Net(8)] && Conn(MIX_INSTANCE, "clk_b") == [Net(9)]
    ensures Conn(MIX_INSTANCE, "x") == [Net(1)]
  {
    assert ValidCell(MIX_INSTANCE);
    ConnIsPin(MIX_INSTANCE, 0);
    ConnIsPin(MIX_INSTANCE, 1);
    ConnIsPin(MIX_INSTANCE, 2);
  }

  lemma MixPinRoot(p: Parent)
    requires TracesMix(p)
    ensures PinRoot(p, MIX_INSTANCE, "clk_a") == Some(Some("n")) && PinRoot(p, MIX_INSTANCE, "clk_b") == Some(Some("k"))
    ensures PinRoot(p, MIX_INSTANCE, "x") == None
  {
    MixClockConns();
    NotListed("clk_a");
    NotListed("clk_b");
    NotListed("x");
  }

  lemma NotListed(pin: string)
    requires pin == "clk_a" || pin == "clk_b" || pin == "x"
    ensures pin !in CLOCK_PIN_NAMES
  {
    assert |"clk_a"| == |"clk_b"| == |"clk_i"| == 5 && "clk_i"[4] == 'i';
    assert |"clock"| == 5 && "clock"[2] == 'o';
    assert "x"[0] != "C"[0];
  }

  // The clock pins of the instance are the two the summary is keyed by.
  lemma MixPinRoots(p: Parent)
    requires TracesMix(p)
    ensures PinRootsOf(p, MIX_INSTANCE, MIX_BLOCK) == MixPins()
  {
    MixPinRoot(p);
    MixInputNames();
    assert MixPins()["clk_a"] == Some("n") && MixPins()["clk_b"] == Some("k");
    PinRootsAre(p, MIX_INSTANCE, MIX_BLOCK, MixPins());
  }

  lemma PinRootsAre(p: Parent, c: Cell, sub: Module, pins: PinMap)
    requires ValidSpec(p.spec) && pins.Keys <= InputNames(sub)
    requires forall pin :: pin in InputNames(sub) ==>
        PinRoot(p, c, pin) == if pin in pins then Some(pins[pin]) else None
    ensures PinRootsOf(p, c, sub) == pins
  {
  }

  lemma MixInputNames()
    ensures InputNames(MIX_BLOCK) == {"clk_a", "clk_b", "x"}
  {
    var ports := MIX_BLOCK.ports;
    assert ports[0] in ports && ports[1] in ports && ports[2] in ports;
  }

  lemma MixNames()
    ensures "x" !in MixPins() && "y" !in MixPins() && ClocksOf(MixPins()).roots == {"n", "k"}
    ensures MixFacts().ports["x"] == PortFacts(None, false, None, false)
    ensures MixFacts().ports["y"] == PortFacts(Some("n"), false, None, false)
  {
    assert "x"[0] != "clk_a"[0] && "x"[0] != "clk_b"[0] && "y"[0] != "clk_a"[0] && "y"[0] != "clk_b"[0];
    assert "x"[0] != "y"[0] && "clk_a"[4] != "clk_b"[4];
    assert MixPins()["clk_a"] == Some("n") && MixPins()["clk_b"] == Some("k");
  }

  lemma MixStamps()
    ensures StampPort(Stamps([], []), MIX_BLOCK.ports[2], MixPins().Keys, MixFacts()) == Some(Stamps([], []))
    ensures StampPort(Stamps([], []), MIX_BLOCK.ports[3], MixPins().Keys, MixFacts())
         == Some(Stamps(MixSummary().ports, []))
  {
    MixNames();
    var b := Stamp(MIX_BLOCK.ports[3], Some("n"), Some(MixFacts().ports["y"]));
    assert [] + [b] == MixSummary().ports;
  }

  // It is the summary the walk builds from those facts.
  lemma MixIsSummary(s: ClockSpec)
    requires !IsSingleDomain(s, AsClocks({"n", "k"}))
    ensures IsSummary(s, MIX_BLOCK, MixPins(), Some(MixFacts()), Some(MixSummary()))
  {
    MixNames();
    MixMultiClock();
  }

  lemma MixMultiClock()
    ensures Describes(MixFacts(), MIX_BLOCK, MixPins().Keys)
    ensures MultiClockSummary(MIX_BLOCK, MixPins().Keys, MixFacts()) == Some(MixSummary())
  {
    MixNames();
    MixStamps();
    var ports, pins, a := MIX_BLOCK.ports, MixPins().Keys, MixFacts();
    assert ports[..4] == ports && ports[..4][..3] == ports[..3] && ports[..3][..2] == ports[..2];
    assert ports[..2][..1] == ports[..1] && ports[..1][..0] == [];
    assert MultiClockStamps(ports[..1], pins, a) == Some(Stamps([], []));
    assert MultiClockStamps(ports[..2], pins, a) == Some(Stamps([], []));
    assert MultiClockStamps(ports[..3], pins, a) == Some(Stamps([], []));
  }

  lemma MixConns()
    ensures Conn(MIX_INSTANCE, "y") == [Net(4)] && Conn(MIX_INSTANCE, "Y") == []
    ensures Conn(GATE_Y, "A") == [Net(1)] && Conn(GATE_Y, "B") == [Net(3)] && Conn(GATE_Y, "Y") == [Net(4)]
  {
    assert ValidCell(MIX_INSTANCE) && ValidCell(GATE_Y);
    ConnIsPin(MIX_INSTANCE, 3);
    ConnIsPin(GATE_Y, 0);
    ConnIsPin(GATE_Y, 1);
    ConnIsPin(GATE_Y, 2);
    assert forall i :: 0 <= i < 4 ==> MIX_INSTANCE.pins[i].port[0] != "Y"[0];
  }

  lemma OneTarget(c: Cell, port: string, idx: nat)
    requires |Conn(c, "Y")| == 1
    ensures LaneTargets(c, port, idx) == Conn(c, "Y")
  {
  }

  lemma GateIsPassed()
    ensures Transit(GATE_Y) && forall port, idx :: LaneTargets(GATE_Y, port, idx) == [Net(4)]
  {
    forall port, idx ensures LaneTargets(GATE_Y, port, idx) == [Net(4)] {
      MixConns();
      OneTarget(GATE_Y, port, idx);
    }
    assert GATE_Y.ctype[1] == 'a';
    assert forall p :: p in GATE_LEVEL_FF_PREFIXES ==> p[1] == '_';
  }

  // Of the flat cells only the gate is passed through.
  lemma FlopsAreNotPassed()
    ensures forall i :: 0 <= i < 5 && i != 3 ==> !Transit(MixDesign().flat.cells[i])
    ensures !Transit(FLOP_A) && !Transit(FLOP_D)
  {
  }

  lemma MixBoundary(i: nat)
    requires i < 3
    ensures BoundaryFor(MixDesign().boundaries, MixDesign().top.cells[i]) == if i == 1 then Some(MixSummary()) else None
  {
    assert "a"[0] != "u"[0] && "d"[0] != "u"[0] && "$dff"[0] != "u"[0];
  }

  lemma MixPasses(i: nat, a: int, b: int)
    requires Passes(MixDesign(), i, a, b)
    ensures i == 3 && b == 4 && (a == 1 || a == 3 || a == 4)
  {
    var s: Site :| s.cell == i && Feeds(MixDesign().flat, true, s, a, b);
    FlopsAreNotPassed();
    assert i == 3;
    GatePasses(MixDesign().flat, s, a, b);
  }

  lemma GatePasses(m: Module, s: Site, a: int, b: int)
    requires Feeds(m, true, s, a, b) && m.cells[s.cell] == GATE_Y
    ensures b == 4 && (a == 1 || a == 3 || a == 4)
  {
    GateIsPassed();
    assert GATE_Y.pins[s.pin].bits[s.idx] == Net(a);
  }

  lemma MixReceived(x: int, who: Owner)
    requires ReceivedBy(MixDesign(), x, who) && who != Some(1)
    ensures x == 4
  {
    forall i: nat, b | Passes(MixDesign(), i, x, b) ensures i == 3 {
      MixPasses(i, x, b);
    }
  }

  lemma MixParentKept()
    ensures ParentKept(MixDesign())
  {
    var g := MixDesign();
    assert g.flat.cells[0] == g.top.cells[0] && g.flat.cells[4] == g.top.cells[2];
    assert g.flops[0] == g.topDomains[0] && g.flops[3] == g.topDomains[1] && "a"[0] != "d"[0];
    forall i: nat, j: nat, fd ensures !IsSink(g.top, g.boundaries, i, j, fd) {
      if i < 3 {
        MixBoundary(i);
      }
    }
  }

  lemma OneExit(g: Design, b: nat, j: nat, x: int)
    requires IsBlock(g, b) && OnOutput(g, b, j, x)
    requires forall c: nat :: IsBlock(g, c) ==> c == b
    requires forall y, who :: ReceivedBy(g, y, who) && who != Some(b) ==> y == x
    ensures ExitsByOutput(g)
  {
  }

  lemma MixExits()
    ensures ExitsByOutput(MixDesign())
  {
    var g := MixDesign();
    forall c: nat | IsBlock(g, c) ensures c == 1 {
      MixBoundary(c);
    }
    MixBoundary(1);
    MixConns();
    forall x, who | ReceivedBy(g, x, who) && who != Some(1) ensures x == 4 {
      MixReceived(x, who);
    }
    OneExit(g, 1, 0, 4);
  }

  lemma MixFlattens()
    ensures Flattens(MixDesign())
  {
    MixBoundary(1);
    MixParentKept();
    MixExits();
  }

  // No net leads on to another in the abstracted parent.
  lemma MixStops(lanes: bool, a: int, b: int)
    ensures (a, b) !in DataEdges(MixDesign().top, lanes)
  {
    if (a, b) in DataEdges(MixDesign().top, lanes) {
      var s :| Feeds(MixDesign().top, lanes, s, a, b);
      FlopsAreNotPassed();
      assert s.cell == 1;
      MixTargets(MIX_INSTANCE.pins[s.pin].port, s.idx);
    }
  }

  lemma MixTargets(port: string, idx: nat)
    ensures LaneTargets(MIX_INSTANCE, port, idx) == [] && CellOutputs(MIX_INSTANCE) == []
  {
    MixConns();
  }

  // The sources that count for flop d are flop a and the clock ports.
  lemma MixSource(portClock: map<string, string>, o: Origin)
    requires SourceOf(MixDesign().top, MixDesign().topDomains, portClock, map["u" := MixSummary()], o).Some?
    ensures var s := SourceOf(MixDesign().top, MixDesign().topDomains, portClock, map["u" := MixSummary()], o).value;
            Foreign(MixDesign().topDomains[1], s.clock, s.self) ==> 4 !in s.seeds
  {
    OneNet(1);
    if o.FromBoundary? && o.cell < 3 {
      MixBoundary(o.cell);
    }
    if o.FromPort? {
      ClockInputs(o.name);
    }
  }

  lemma MixSilent(portClock: map<string, string>, maxHops: nat, found: Found, o: Origin, t: nat)
    requires TopExact(MixDesign(), portClock, maxHops, found) && o in found
    ensures t !in found[o]
  {
    var g := MixDesign();
    if t != 1 {
      NoNetNoRecord(g, portClock, maxHops, found, o, t);
    } else {
      assert o in AllOrigins();
      var s := SourceOf(g.top, g.topDomains, portClock, g.boundaries, o).value;
      ReportedIffPath(g.top, g.topDomains, s, maxHops, found[o], t);
      MixSource(portClock, o);
      if 4 !in s.seeds {
        forall p ensures !CrossingPath(g.top, s, g.topDomains[1], maxHops, p) {
          NoPathFromElsewhere(s, maxHops, p);
        }
      }
    }
  }

  lemma NoPathFromElsewhere(s: Source, maxHops: nat, p: seq<int>)
    requires 4 !in s.seeds
    ensures !CrossingPath(MixDesign().top, s, MixDesign().topDomains[1], maxHops, p)
  {
    if CrossingPath(MixDesign().top, s, MixDesign().topDomains[1], maxHops, p) {
      assert p[0] in s.seeds;
      if |p| > 1 {
        assert (p[0], p[0 + 1]) in DataEdges(MixDesign().top, s.lanes);
        MixStops(s.lanes, p[0], p[1]);
      }
    }
  }

  lemma MixLabel(f: nat)
    requires f < 4
    ensures IsLabelled(MixDesign(), f) && CellIsListed(MixDesign(), if f == 3 then 4 else f)
  {
    var g := MixDesign();
    if f == 0 {
      FlopIsLabelled(g, 0, 0, "a", 7, Const('0'), 1);
    } else if f == 1 {
      FlopIsLabelled(g, 1, 1, "u.q", 8, Const('0'), 3);
    } else if f == 2 {
      FlopIsLabelled(g, 2, 2, "u.r", 9, Const('0'), 5);
    } else {
      FlopIsLabelled(g, 3, 4, "d", 8, Net(4), 6);
    }
  }

  lemma MixLabels()
    ensures LabelsAreTraced(MixDesign())
  {
    var g := MixDesign();
    forall f | 0 <= f < |g.flops| ensures IsLabelled(g, f) {
      MixLabel(f);
    }
    forall i | 0 <= i < |g.flat.cells| ensures CellIsListed(g, i) {
      if i == 3 {
        GateIsNotListed(g);
      } else {
        MixLabel(if i == 4 then 3 else i);
      }
    }
  }

  lemma GateIsNotListed(g: Design)
    requires 3 < |g.flat.cells| && g.flat.cells[3] == GATE_Y
    ensures CellIsListed(g, 3)
  {
    GateIsPassed();
  }

  lemma MixHides()
    ensures Hides(MixDesign(), 0, 3, [1, 4])
  {
    var g := MixDesign();
    MixFlattens();
    MixPath();
    forall maxHops: nat, flatFound |
        1 <= maxHops && FoundExact(g.flat, g.flops, map[], map[], maxHops, AllOrigins(), flatFound)
      ensures FlatReports(g, maxHops, flatFound, 0, 3, [1, 4])
    {
      assert "a"[0] != "d"[0] && "m"[0] != "n"[0];
      FlatPathIsReported(g, maxHops, flatFound, 0, 3, [1, 4]);
    }
    forall portClock, maxHops: nat, found, o, t: nat | TopExact(g, portClock, maxHops, found) && o in found
      ensures t !in found[o]
    {
      MixSilent(portClock, maxHops, found, o, t);
    }
  }

  lemma MixLabelsAgree(p: Parent)
    requires TracesPorts(p)
    ensures LabelsAgree(MixDesign(), p)
  {
    assert p.trace(Net(7), true) == Some("m") && p.trace(Net(8), true) == Some("n") &&
        p.trace(Net(9), true) == Some("k");
  }

  // The output is stamped with the clock of its register, so what the input feeds
  // through to it arrives in that clock unseen.
  lemma MixedFeedThroughHidesCrossing(p: Parent)
    requires TracesMix(p) && !IsSingleDomain(p.spec, AsClocks({"n", "k"}))
    ensures PinRootsOf(p, MIX_INSTANCE, MIX_BLOCK) == MixPins()
    ensures IsSummary(p.spec, MIX_BLOCK, MixPins(), Some(MixFacts()), Some(MixSummary()))
    ensures IsBlock(MixDesign(), 1) && Summary(MixDesign(), 1) == MixSummary()
    ensures LabelsAreTraced(MixDesign()) && LabelsAgree(MixDesign(), p) && Hides(MixDesign(), 0, 3, [1, 4])
  {
    MixPinRoots(p);
    MixIsSummary(p.spec);
    MixBoundary(1);
    MixLabels();
    MixLabelsAgree(p);
    MixHides();
  }

  lemma GateEdge(m: Module, i: nat)
    requires i < |m.cells| && m.cells[i] == GATE_Y
    ensures (1, 4) in DataEdges(m, true)
  {
    GateIsPassed();
    assert Feeds(m, true, Site(i, 0, 0), 1, 4);
  }

  lemma MixPath()
    ensures CrossingPath(MixDesign().flat, FlopSourceOf(MixDesign().flops[0]), MixDesign().flops[3], 1, [1, 4])
  {
    OneNet(1);
    GateEdge(MixDesign().flat, 3);
  }

  // ---- those facts are what the standalone pass finds ---------------------

  lemma BodyConns()
    ensures Conn(BODY_Q, "Q") == [Net(5)] && Conn(BODY_Q, "Y") == []
    ensures Conn(BODY_R, "Q") == [Net(6)] && Conn(BODY_R, "Y") == []
    ensures Conn(BODY_G, "Y") == [Net(4)] && Conn(BODY_G, "Q") == []
  {
    LastPin(BODY_Q, "Y");
    LastPin(BODY_R, "Y");
    LastPin(BODY_G, "Q");
  }

  // Of three pins the last is the output, and a fourth name is on none.
  lemma LastPin(c: Cell, other: string)
    requires |c.pins| == 3 && c.pins[0].port != c.pins[2].port && c.pins[1].port != c.pins[2].port
    requires forall i :: 0 <= i < 3 ==> c.pins[i].port != other
    ensures Conn(c, c.pins[2].port) == c.pins[2].bits && Conn(c, other) == []
  {
    var rest := c.pins[1..];
    assert rest[1..] == [c.pins[2]];
    assert ConnFrom(rest, c.pins[2].port) == ConnFrom(rest[1..], c.pins[2].port);
    NoSuchPin(c, other);
  }

  lemma NoSuchPin(c: Cell, port: string)
    requires forall i :: 0 <= i < |c.pins| ==> c.pins[i].port != port
    ensures Conn(c, port) == []
  {
  }

  predicate BodyEntry(d: Driver, b: int) {
    (b == 5 && d == Driver(0, "Q")) || (b == 6 && d == Driver(1, "Q")) || (b == 4 && d == Driver(2, "Y"))
  }

  lemma BodyOutputs(d: Driver, b: int)
    ensures Outputs(MIX_BLOCK, d, b) <==> BodyEntry(d, b)
  {
    BodyConns();
    if d.cell < 3 {
      var c := MIX_BLOCK.cells[d.cell];
      assert c == if d.cell == 0 then BODY_Q else if d.cell == 1 then BODY_R else BODY_G;
    }
  }

  lemma BodyDrivers(drivers: map<int, Driver>)
    requires IsDriverIndex(MIX_BLOCK, drivers)
    ensures 4 in drivers && drivers[4] == Driver(2, "Y") && 5 in drivers && drivers[5] == Driver(0, "Q") &&
        3 !in drivers
    ensures forall b: int :: b in drivers && b != 4 ==> drivers[b].port == "Q"
  {
    BodyOutputs(Driver(2, "Y"), 4);
    BodyOutputs(Driver(0, "Q"), 5);
    forall b: int | b in drivers
      ensures BodyEntry(drivers[b], b)
    {
      assert IsEntry(MIX_BLOCK, drivers, b);
      BodyOutputs(drivers[b], b);
    }
  }

  // Behind output y, within any bound, is flop q alone.
  lemma BehindOutput(drivers: map<int, Driver>, maxDepth: nat, i: nat)
    requires IsDriverIndex(MIX_BLOCK, drivers) && maxDepth > 0
    ensures FlopBehind(MIX_BLOCK, drivers, [4], maxDepth, i) <==> i == 0
  {
    var e := BackwardEdges(MIX_BLOCK, drivers);
    BodyDrivers(drivers);
    forall a: int, b: int ensures (a, b) in e <==> a == 4 && (b == 3 || b == 5) {
      GateInputs(b);
    }
    ClosedSetBounds(e, Start([4]), iset{3, 4, 5}, maxDepth);
    assert 4 in Ball(e, Start([4]), 0);
    BallStep(e, Start([4]), 0, 4, 5);
    BallGrows(e, Start([4]), 1, maxDepth);
  }

  lemma GateInputs(b: int)
    ensures InputOf(MIX_BLOCK, 2, b) <==> b == 3 || b == 5
  {
    var pins := BODY_G.pins;
    assert pins[0].port[0] == 'A' && pins[1].port[0] == 'B' && pins[2].port == "Y";
    assert Net(3) in pins[0].bits && Net(5) in pins[1].bits;
  }

  lemma GateStep(i: nat, a: int, b: int)
    requires ForwardStep(MIX_BLOCK, i, a, b) && (a == 3 || a == 4)
    ensures b == 4
  {
    BodyReaders(i, a);
    BodyConns();
  }

  // Input x reaches the gate and the net it drives.
  lemma ForwardStays(maxDepth: nat)
    ensures Ball(ForwardEdges(MIX_BLOCK), Start([3]), maxDepth) <= iset{3, 4}
  {
    var e := ForwardEdges(MIX_BLOCK);
    forall a, b | a in iset{3, 4} && (a, b) in e ensures b in iset{3, 4} {
      var k :| ForwardStep(MIX_BLOCK, k, a, b);
      GateStep(k, a, b);
    }
    ClosedSetBounds(e, Start([3]), iset{3, 4}, maxDepth);
  }

  // And no flop.
  lemma ReachedFromInput(maxDepth: nat, i: nat)
    requires ReachedForward(MIX_BLOCK, [3], maxDepth, i)
    ensures i == 2
  {
    var b :| b in Ball(ForwardEdges(MIX_BLOCK), Start([3]), maxDepth) && ReadsNet(MIX_BLOCK, i, b);
    ForwardStays(maxDepth);
    BodyReaders(i, b);
  }

  lemma BodyReaders(i: nat, b: int)
    requires ReadsNet(MIX_BLOCK, i, b) && (b == 3 || b == 4)
    ensures i == 2 && b == 3
  {
    var s: Site :| s.cell == i && DataReads(MIX_BLOCK, s, b);
    assert MIX_BLOCK.cells[i].pins[s.pin].bits[s.idx] == Net(b);
  }

  // The facts of both ports, from the block's cells, for every bound on the walks.
  lemma MixFactsAreFound(drivers: map<int, Driver>, maxDepth: nat)
    requires IsDriverIndex(MIX_BLOCK, drivers) && maxDepth > 0
    ensures var domains: map<nat, string> := map[0 := "n", 1 := "k"];
      && Collapses(CaptureDomains(MIX_BLOCK, domains, [3], maxDepth), MixFacts().ports["x"])
      && Collapses(LaunchDomains(MIX_BLOCK, drivers, domains, [4], maxDepth), MixFacts().ports["y"])
  {
    var domains: map<nat, string> := map[0 := "n", 1 := "k"];
    MixNames();
    BodyGateIsNoFlop();
    forall c ensures LaunchesAs(MIX_BLOCK, drivers, domains, [4], maxDepth, c) <==> c == Some("n") {
      assert DomainOf(domains, 0) == Some("n");
      BehindOutput(drivers, maxDepth, 0);
      if i: nat :| FlopBehind(MIX_BLOCK, drivers, [4], maxDepth, i) && c == DomainOf(domains, i) {
        BehindOutput(drivers, maxDepth, i);
      }
    }
    forall c ensures !CapturesAs(MIX_BLOCK, domains, [3], maxDepth, c) {
      if i: nat :| ReachedForward(MIX_BLOCK, [3], maxDepth, i) && i < 3 && IsFf(MIX_BLOCK.cells[i].ctype) {
        ReachedFromInput(maxDepth, i);
      }
    }
  }

  lemma BodyGateIsNoFlop()
    ensures !IsFf(BODY_G.ctype)
  {
    assert BODY_G.ctype[1] == 'a';
    assert forall p :: p in GATE_LEVEL_FF_PREFIXES ==> p[1] == '_';
  }
}
