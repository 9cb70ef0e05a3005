/**
 The covering theorem for the boundary walk: the summaries it hands out stamp
 their ports as the theorem asks, and the two shapes where a summary the walk
 may hand out loses a crossing.
 */
module ComposedCover {
  import opened Netlist
  import opened Graph
  import opened Fanout
  import opened FanoutFilter
  import opened CrossingSearch
  import opened Crossings
  import opened ClockGraph
  import opened BoundaryCover
  import opened BoundarySummaries
  import opened Composition

  // The blocks of the design are the instances the walk summarised, as it summarised them.
  ghost predicate Composed(g: Design, e: Env, st: State) {
    && g.top == e.top && ValidEnv(e) && WalkedTo(e, st, |e.top.cells|)
    && forall b {:trigger Given(st, b)} :: 0 <= b < |g.top.cells| ==>
        BoundaryFor(g.boundaries, g.top.cells[b]) == Given(st, b)
  }

  ghost predicate OnPort(g: Design, b: nat, port: Port, x: int)
    requires IsBlock(g, b)
  {
    Net(x) in Conn(g.top.cells[b], port.name)
  }

  // A net other than a traced clock, on an input port of the module.
  ghost predicate OnDataInput(g: Design, b: nat, sub: Module, pins: PinMap, x: int)
    requires IsBlock(g, b)
  {
    exists port :: port in sub.ports && Enters(port) && port.name !in pins && OnPort(g, b, port, x)
  }

  // ---- blocks of one clock ------------------------------------------------

  // The flops of the block that have a known clock have its root, and data enters
  // by input ports.
  ghost predicate OneRoot(g: Design, b: nat, sub: Module, pins: PinMap)
    requires IsBlock(g, b)
  {
    var roots := ClocksOf(pins).roots;
    && |roots| <= 1
    && (roots != {} ==> forall f ::
          0 <= f < |g.flopOwner| && f < |g.flops| && g.flopOwner[f] == Some(b) && g.flops[f].clock.Some? ==>
          g.flops[f].clock.value in roots)
    && (forall x {:trigger EntersBlock(g, b, x)} :: EntersBlock(g, b, x) ==> OnDataInput(g, b, sub, pins, x))
  }

  lemma OneRootIsSingleClock(g: Design, b: nat, s: ClockSpec, sub: Module, pins: PinMap, a: Option<ModuleAnalysis>)
    requires IsBlock(g, b) && IsSummary(s, sub, pins, a, Some(Summary(g, b)))
    requires IsSingleDomain(s, AsClocks(ClocksOf(pins).roots)) && OneRoot(g, b, sub, pins)
    ensures SingleClock(g, b) && (Summary(g, b).clock.Some? <==> ClocksOf(pins).roots != {})
  {
    var r, roots := Summary(g, b), ClocksOf(pins).roots;
    SingleDomainIsUniform(s, sub, pins, a, Some(r));
    forall x | EntersBlock(g, b, x) ensures exists j: nat :: OnInput(g, b, j, x) {
      var port :| port in sub.ports && Enters(port) && port.name !in pins && OnPort(g, b, port, x);
      var pb :| pb in r.inputPorts && pb.port == port.name;
      var j: nat :| j < |r.inputPorts| && r.inputPorts[j] == pb;
      assert OnInput(g, b, j, x);
    }
    forall f | 0 <= f < |g.flopOwner| && f < |g.flops| && g.flopOwner[f] == Some(b) && g.flops[f].clock.Some? &&
        r.clock.Some?
      ensures r.clock == g.flops[f].clock
    {
      AtMostOne(roots, r.clock.value, g.flops[f].clock.value);
    }
  }

  // ---- blocks of several clocks -------------------------------------------

  // What the standalone pass says of a port is true of the flat cells: the clock
  // of an output is that of the flops behind it and of the inputs fed through to it.
  ghost predicate LaunchRight(g: Design, b: nat, pins: PinMap, a: ModuleAnalysis, port: Port, f: nat, x: int, y: int)
    requires IsBlock(g, b) && port.name in a.ports
  {
    && f < |g.flops| && f < |g.flopOwner| && g.flopOwner[f] == Some(b) && g.flops[f].clock.Some?
    && Net(x) in g.flops[f].flop.q && Connects(g, b, x, y) && OnPort(g, b, port, y)
    ==> a.ports[port.name].clock.None? || a.ports[port.name].clock == g.flops[f].clock
  }

  ghost predicate ThroughRight(g: Design, b: nat, sub: Module, pins: PinMap, a: ModuleAnalysis, port: Port, x: int,
                               y: int)
    requires IsBlock(g, b) && port.name in a.ports
  {
    && EntersBlock(g, b, x) && Connects(g, b, x, y) && OnPort(g, b, port, y) && a.ports[port.name].clock.Some?
    ==> InputIn(g, b, sub, pins, a, x, a.ports[port.name].clock)
  }

  // Net x is on a data input the standalone pass attributed to `clock`.
  ghost predicate InputIn(g: Design, b: nat, sub: Module, pins: PinMap, a: ModuleAnalysis, x: int,
                          clock: Option<string>)
    requires IsBlock(g, b)
  {
    exists port :: port in sub.ports && IsAttributed(port, pins, a, clock) && OnPort(g, b, port, x)
  }

  predicate IsAttributed(port: Port, pins: PinMap, a: ModuleAnalysis, clock: Option<string>) {
    Enters(port) && port.name !in pins && port.name in a.ports && a.ports[port.name].clock == clock
  }

  ghost predicate PortsRight(g: Design, b: nat, sub: Module, pins: PinMap, a: ModuleAnalysis)
    requires IsBlock(g, b)
  {
    && (forall port, f: nat, x, y {:trigger LaunchRight(g, b, pins, a, port, f, x, y)} ::
          port in sub.ports && Leaves(port) && port.name !in pins && port.name in a.ports ==>
          LaunchRight(g, b, pins, a, port, f, x, y))
    && (forall port, x, y {:trigger ThroughRight(g, b, sub, pins, a, port, x, y)} ::
          port in sub.ports && Leaves(port) && port.name !in pins && port.name in a.ports ==>
          ThroughRight(g, b, sub, pins, a, port, x, y))
  }

  // The port a stamped output of a multi-clock summary comes from.
  lemma StampedOutput(g: Design, b: nat, sub: Module, pins: PinMap, a: ModuleAnalysis, j: nat) returns (port: Port)
    requires IsBlock(g, b) && Describes(a, sub, pins.Keys)
    requires MultiClockSummary(sub, pins.Keys, a) == Some(Summary(g, b)) && j < |Summary(g, b).ports|
    ensures port in sub.ports && Leaves(port) && port.name !in pins && port.name in a.ports
    ensures Summary(g, b).ports[j].port == port.name && LaunchClock(g, b, j) == a.ports[port.name].clock
  {
    MultiClockIsPerPort(sub, pins.Keys, a);
    var pb := Summary(g, b).ports[j];
    assert PerPort(pb, sub.ports, pins.Keys, a, false);
    port :| port in sub.ports && StampedAs(pb, port, pins.Keys, a, false);
  }

  // An input attributed to a clock is a sink in that clock.
  lemma AttributedIsCaptured(g: Design, b: nat, sub: Module, pins: PinMap, a: ModuleAnalysis, x: int,
                             clock: Option<string>)
    requires IsBlock(g, b) && Describes(a, sub, pins.Keys)
    requires MultiClockSummary(sub, pins.Keys, a) == Some(Summary(g, b))
    requires clock.Some? && InputIn(g, b, sub, pins, a, x, clock)
    ensures CapturedIn(g, b, x, clock)
  {
    MultiClockIsPerPort(sub, pins.Keys, a);
    var port :| port in sub.ports && IsAttributed(port, pins, a, clock) && OnPort(g, b, port, x);
    var pb := Stamp(port, clock, Some(a.ports[port.name]));
    assert StampedAs(pb, port, pins.Keys, a, true);
    assert PerPort(pb, sub.ports, pins.Keys, a, true);
    var j: nat :| j < |Summary(g, b).inputPorts| && Summary(g, b).inputPorts[j] == pb;
    assert OnInput(g, b, j, x) && CaptureClock(g, b, j) == clock;
  }

  // And there are no other sinks.
  lemma CapturedIsAttributed(g: Design, b: nat, sub: Module, pins: PinMap, a: ModuleAnalysis, x: int,
                             clock: Option<string>)
    requires IsBlock(g, b) && Describes(a, sub, pins.Keys)
    requires MultiClockSummary(sub, pins.Keys, a) == Some(Summary(g, b))
    requires clock.Some? && CapturedIn(g, b, x, clock)
    ensures InputIn(g, b, sub, pins, a, x, clock)
  {
    MultiClockIsPerPort(sub, pins.Keys, a);
    var j: nat :| OnInput(g, b, j, x) && CaptureClock(g, b, j) == clock;
    var pb := Summary(g, b).inputPorts[j];
    assert PerPort(pb, sub.ports, pins.Keys, a, true);
    var port :| port in sub.ports && StampedAs(pb, port, pins.Keys, a, true);
    assert IsAttributed(port, pins, a, clock) && OnPort(g, b, port, x);
  }

  // What a path leaves at a multi-clock block, from the standalone pass alone: a record
  // if and only if some input it enters by was attributed to the destination's clock or
  // the output it leaves by was not.  An input nothing captures is thus covered by an
  // output without a clock or of another clock, and by no output of that clock.
  lemma MultiClockAcrossIff(g: Design, portClock: map<string, string>, maxHops: nat, found: Found,
                            f: nat, d: nat, p: seq<int>, own: seq<Owner>, h: nat, i: nat, j: nat, t: nat, b: nat,
                            q: nat, sub: Module, pins: PinMap, a: ModuleAnalysis)
    returns (output: Port)
    requires SinkAt(g, portClock, maxHops, found, f, d, p, own, j, t)
    requires h < i <= j && FirstOfItsClock(g, d, p, own, h)
    requires own[h] != Some(b) && own[h + 1] == Some(b) && own[i] == Some(b) && IsBlock(g, b)
    requires OnOutput(g, b, q, p[i]) && forall k :: i < k <= j ==> own[k].None?
    requires Describes(a, sub, pins.Keys) && MultiClockSummary(sub, pins.Keys, a) == Some(Summary(g, b))
    ensures output in sub.ports && Leaves(output) && output.name !in pins && output.name in a.ports
    ensures OnPort(g, b, output, p[i])
    ensures ReportedAcross(g, portClock, found, p, h, b, q, t, g.flops[d].clock)
       <==> InputIn(g, b, sub, pins, a, p[h], g.flops[d].clock) || a.ports[output.name].clock != g.flops[d].clock
  {
    var clock := g.flops[d].clock;
    output := StampedOutput(g, b, sub, pins, a, q);
    AcrossReportedIff(g, portClock, maxHops, found, f, d, p, own, h, i, j, t, b, q);
    if CapturedIn(g, b, p[h], clock) {
      CapturedIsAttributed(g, b, sub, pins, a, p[h], clock);
    }
    if InputIn(g, b, sub, pins, a, p[h], clock) {
      AttributedIsCaptured(g, b, sub, pins, a, p[h], clock);
    }
  }

  lemma PortsRightIsStamped(g: Design, b: nat, sub: Module, pins: PinMap, a: ModuleAnalysis)
    requires IsBlock(g, b) && Describes(a, sub, pins.Keys)
    requires MultiClockSummary(sub, pins.Keys, a) == Some(Summary(g, b)) && PortsRight(g, b, sub, pins, a)
    ensures BlockStamped(g, b)
  {
    forall f: nat, j: nat, x, y ensures LaunchStamped(g, b, f, j, x, y) {
      if OnOutput(g, b, j, y) {
        var port := StampedOutput(g, b, sub, pins, a, j);
        assert LaunchRight(g, b, pins, a, port, f, x, y);
      }
    }
    forall j: nat, x, y ensures ThroughStamped(g, b, j, x, y) {
      if EntersBlock(g, b, x) && Connects(g, b, x, y) && OnOutput(g, b, j, y) && LaunchClock(g, b, j).Some? {
        var port := StampedOutput(g, b, sub, pins, a, j);
        assert ThroughRight(g, b, sub, pins, a, port, x, y);
        AttributedIsCaptured(g, b, sub, pins, a, x, LaunchClock(g, b, j));
      }
    }
  }

  // ---- every summary the walk hands out -----------------------------------

  ghost predicate IsOneDomain(e: Env, key: Key) {
    IsSingleDomain(e.parent.spec, AsClocks(ClocksOf(key.1).roots))
  }

  // What the walk takes for granted of an instance it summarised.
  ghost predicate InstanceRight(g: Design, e: Env, b: nat)
    requires ValidEnv(e) && IsBlock(g, b) && IsBoundary(e, b)
  {
    match OutcomeOf(e, b)
    case ClockOutput => true
    case Primitive(s) => BlockStamped(g, b)
    case Generic(key) =>
      if IsOneDomain(e, key) then OneRoot(g, b, e.blackboxes[key.0], key.1)
      else e.analyse(key).Some? ==> PortsRight(g, b, e.blackboxes[key.0], key.1, e.analyse(key).value)
  }

  // And of the flop data ends at: its block found a clock, or attributed the
  // input to the flop's own.
  ghost predicate DestinationRight(g: Design, e: Env, b: nat, d: nat)
    requires ValidEnv(e) && IsBlock(g, b) && IsBoundary(e, b) && d < |g.flops|
  {
    match OutcomeOf(e, b)
    case ClockOutput => true
    case Primitive(s) => CaptureStamped(g, d)
    case Generic(key) =>
      if IsOneDomain(e, key) then ClocksOf(key.1).roots != {}
      else e.analyse(key).Some? ==> CaptureRight(g, b, e.blackboxes[key.0], key.1, e.analyse(key).value, d)
  }

  ghost predicate CaptureRight(g: Design, b: nat, sub: Module, pins: PinMap, a: ModuleAnalysis, d: nat)
    requires IsBlock(g, b) && d < |g.flops|
  {
    forall x, y {:trigger Connects(g, b, x, y)} ::
      EntersBlock(g, b, x) && Connects(g, b, x, y) && IsDNet(g.flops[d], y)
      ==> InputIn(g, b, sub, pins, a, x, g.flops[d].clock)
  }

  lemma BlockIsBoundary(g: Design, e: Env, st: State, b: nat)
    requires Composed(g, e, st) && IsBlock(g, b)
    ensures IsBoundary(e, b) && b in st.out && Summary(g, b) == st.out[b] && !OutcomeOf(e, b).ClockOutput?
  {
    assert BoundaryFor(g.boundaries, g.top.cells[b]) == Given(st, b);
    assert Placed(e, st, b);
  }

  // A generic instance that was placed has what summarising it afresh may give.
  lemma GenericSummary(g: Design, e: Env, st: State, b: nat)
    requires Composed(g, e, st) && IsBlock(g, b) && IsBoundary(e, b) && OutcomeOf(e, b).Generic?
    ensures var key := OutcomeOf(e, b).key;
      key.0 in e.blackboxes && IsSummary(e.parent.spec, e.blackboxes[key.0], key.1, e.analyse(key), Some(Summary(g, b)))
  {
    BlockIsBoundary(g, e, st, b);
    CacheIsTransparent(e, st, b, b);
  }

  lemma InstanceIsStamped(g: Design, e: Env, st: State, b: nat)
    requires Composed(g, e, st) && IsBlock(g, b) && IsBoundary(e, b) && InstanceRight(g, e, b)
    ensures BlockStamped(g, b)
  {
    BlockIsBoundary(g, e, st, b);
    if OutcomeOf(e, b).Generic? {
      var key := OutcomeOf(e, b).key;
      var sub, a := e.blackboxes[key.0], e.analyse(key);
      GenericSummary(g, e, st, b);
      if IsOneDomain(e, key) {
        OneRootIsSingleClock(g, b, e.parent.spec, sub, key.1, a);
        SingleClockIsStamped(g, b);
      } else {
        PortsRightIsStamped(g, b, sub, key.1, a.value);
      }
    }
  }

  lemma DestinationIsStamped(g: Design, e: Env, st: State, b: nat, d: nat)
    requires Composed(g, e, st) && IsBlock(g, b) && IsBoundary(e, b) && InstanceRight(g, e, b)
    requires d < |g.flops| && d < |g.flopOwner| && g.flopOwner[d] == Some(b) && g.flops[d].clock.Some?
    requires DestinationRight(g, e, b, d)
    ensures CaptureStamped(g, d)
  {
    BlockIsBoundary(g, e, st, b);
    if OutcomeOf(e, b).Generic? {
      var key := OutcomeOf(e, b).key;
      var sub, a := e.blackboxes[key.0], e.analyse(key);
      GenericSummary(g, e, st, b);
      if IsOneDomain(e, key) {
        OneRootIsSingleClock(g, b, e.parent.spec, sub, key.1, a);
        ClockFoundIsCapture(g, d, b);
      } else {
        forall x, y | EntersBlock(g, b, x) && Connects(g, b, x, y) && IsDNet(g.flops[d], y)
          ensures CapturedIn(g, b, x, g.flops[d].clock)
        {
          AttributedIsCaptured(g, b, sub, key.1, a.value, x, g.flops[d].clock);
        }
      }
    }
  }

  // The boundaries the walk composes never hide a crossing between two flops that
  // do not share a block, be the blocks of one clock or of several.
  lemma ComposedNeverUnderReports(g: Design, e: Env, st: State, portClock: map<string, string>, maxHops: nat,
                                  flatFound: Found, found: Found, f: nat, d: nat, p: seq<int>)
    returns (o: Origin, t: nat)
    requires Composed(g, e, st) && Flattens(g) && TopExact(g, portClock, maxHops, found)
    requires forall b: nat :: IsBlock(g, b) && IsBoundary(e, b) ==> InstanceRight(g, e, b)
    requires FlatReports(g, maxHops, flatFound, f, d, p) && CrossesPort(g, f, d, p)
    requires forall b: nat :: g.flopOwner[d] == Some(b) && IsBlock(g, b) && IsBoundary(e, b) ==>
        DestinationRight(g, e, b, d)
    ensures LeavesRecord(g, portClock, found, p, |p|, o, t) && g.topDomains[t].clock == g.flops[d].clock
  {
    forall b: nat | IsBlock(g, b) ensures BlockStamped(g, b) {
      BlockIsBoundary(g, e, st, b);
      InstanceIsStamped(g, e, st, b);
    }
    FlatPairIsForeign(g, maxHops, flatFound, f, d, p);
    if g.flopOwner[d].Some? {
      var b := g.flopOwner[d].value;
      assert IsBlock(g, b);
      BlockIsBoundary(g, e, st, b);
      DestinationIsStamped(g, e, st, b, d);
    }
    o, t := AbstractionNeverUnderReports(g, portClock, maxHops, flatFound, found, f, d, p);
  }
}
