/**
 Summarising one block instance: which of its pins carry clocks, and the port
 boundary its module and that clock map give it.  The summary depends on nothing
 else, up to which of several synchronous clocks stamps a single-domain block.
 */
module BoundarySummaries {
  import opened Netlist
  import opened ClockGraph
  import opened Crossings
  import MasterChains
  import BoundaryCover

  const CLOCK_PIN_NAMES: set<string> := { "CLK", "clk", "C", "clock", "clk_i" }

  datatype PortFacts = PortFacts(clock: Option<string>, ambiguous: bool, syncDepth: Option<nat>, userSynchronised: bool)

  predicate Synchronised(f: PortFacts) {
    f.userSynchronised || (f.syncDepth.Some? && f.syncDepth.value >= 2)
  }

  // What the standalone pass found inside a module that kept its cells.
  datatype ModuleAnalysis = ModuleAnalysis(
    clockRoots: set<string>,
    resolved: bool,
    ports: map<string, PortFacts>,
    reconvergentInputs: set<set<string>>
  )

  // Clock pins with the root found for each, the cache key of a summary.
  type PinMap = map<string, Option<string>>

  // The parent's tracer, with and without clock dividers, and the constraints.
  datatype Parent = Parent(spec: ClockSpec, trace: (Bit, bool) -> Option<string>, looksLikeClock: string -> bool)

  // ---- the clocks of an instance ----------------------------------------

  predicate IsKnownClock(s: ClockSpec, root: string)
    requires ValidSpec(s)
  {
    || root in s.clocks
    || (var clk := ClockForPort(s, root); clk.Some? && clk.value != UNCONSTRAINED_SENTINEL && clk.value in s.clocks)
  }

  // Nothing when the pin carries no clock; an inner None for an untraceable one.
  function PinRoot(p: Parent, c: Cell, pin: string): Option<Option<string>>
    requires ValidSpec(p.spec)
  {
    var bits := Conn(c, pin);
    if bits == [] then None
    else if pin in CLOCK_PIN_NAMES then Some(p.trace(bits[0], true))
    else if p.looksLikeClock(pin) then
      var root := p.trace(bits[0], false);
      if root.Some? && IsKnownClock(p.spec, root.value) then Some(root) else None
    else None
  }

  predicate Enters(port: Port) {
    port.direction == Input || port.direction == Inout
  }

  predicate Leaves(port: Port) {
    port.direction == Output || port.direction == Inout
  }

  function InputNames(sub: Module): set<string> {
    set port | port in sub.ports && Enters(port) :: port.name
  }

  function PinRootsOf(p: Parent, c: Cell, sub: Module): PinMap
    requires ValidSpec(p.spec)
  {
    map pin | pin in InputNames(sub) && PinRoot(p, c, pin).Some? :: PinRoot(p, c, pin).value
  }

  datatype InstanceClocks = InstanceClocks(roots: set<string>, clockPins: set<string>, pinRoots: PinMap)

  // The pin map alone fixes the root set and the clock pins.
  function ClocksOf(pins: PinMap): InstanceClocks {
    InstanceClocks(set pin | pin in pins && pins[pin].Some? :: pins[pin].value, pins.Keys, pins)
  }

  // Adding one clock pin to the pins found before it.
  function WithPin(ic: InstanceClocks, pin: string, root: Option<string>): InstanceClocks {
    InstanceClocks(if root.Some? then ic.roots + {root.value} else ic.roots,
                   ic.clockPins + {pin}, ic.pinRoots[pin := root])
  }

  lemma WithPinIsClocksOf(pins: PinMap, pin: string, root: Option<string>)
    requires pin in pins ==> pins[pin] == root
    ensures WithPin(ClocksOf(pins), pin, root) == ClocksOf(pins[pin := root])
  {
    var after := pins[pin := root];
    forall r
      ensures r in WithPin(ClocksOf(pins), pin, root).roots <==> r in ClocksOf(after).roots
    {
      if root == Some(r) {
        assert after[pin] == Some(r);
      }
      if r in ClocksOf(pins).roots {
        var q :| q in pins && pins[q] == Some(r);
        assert after[q] == Some(r);
      }
      if r in ClocksOf(after).roots {
        var q :| q in after && after[q] == Some(r);
        assert q == pin || q in pins;
      }
    }
  }

  // What one more port of the module adds.
  lemma OnePortMore(p: Parent, c: Cell, ports: seq<Port>, k: nat)
    requires ValidSpec(p.spec) && k < |ports|
    ensures var before := PinRootsOf(p, c, Module(ports[..k], []));
      var after := PinRootsOf(p, c, Module(ports[..k + 1], []));
      var root := PinRoot(p, c, ports[k].name);
      if Enters(ports[k]) && root.Some?
      then after == before[ports[k].name := root.value]
        && (ports[k].name in before ==> before[ports[k].name] == root.value)
      else after == before
  {
    assert ports[..k + 1] == ports[..k] + [ports[k]];
    assert InputNames(Module(ports[..k + 1], []))
        == InputNames(Module(ports[..k], [])) + if Enters(ports[k]) then {ports[k].name} else {};
  }

  method ClassifyPin(p: Parent, c: Cell, pin: string) returns (r: Option<Option<string>>)
    requires ValidSpec(p.spec)
    ensures r == PinRoot(p, c, pin)
  {
    var bits := Conn(c, pin);
    if bits == [] {
      return None;
    }
    if pin in CLOCK_PIN_NAMES {
      var root := p.trace(bits[0], true);
      return Some(root);
    }
    if p.looksLikeClock(pin) {
      var root := p.trace(bits[0], false);
      if root.Some? && IsKnownClock(p.spec, root.value) {
        return Some(root);
      }
    }
    return None;
  }

  method FindInstanceClocks(p: Parent, c: Cell, sub: Module) returns (ic: InstanceClocks)
    requires ValidSpec(p.spec)
    ensures ic == ClocksOf(PinRootsOf(p, c, sub))
    ensures forall pin, root :: pin in ic.pinRoots && ic.pinRoots[pin] == root <==> CarriesClock(p, c, sub, pin, root)
  {
    ic := InstanceClocks({}, {}, map[]);
    for k := 0 to |sub.ports|
      invariant ic == ClocksOf(PinRootsOf(p, c, Module(sub.ports[..k], [])))
    {
      var port := sub.ports[k];
      ghost var before := PinRootsOf(p, c, Module(sub.ports[..k], []));
      OnePortMore(p, c, sub.ports, k);
      if Enters(port) {
        var root := ClassifyPin(p, c, port.name);
        if root.Some? {
          WithPinIsClocksOf(before, port.name, root.value);
          ic := WithPin(ic, port.name, root.value);
        }
      }
    }
    assert sub.ports[..|sub.ports|] == sub.ports;
    assert InputNames(Module(sub.ports, [])) == InputNames(sub);
    forall pin, root
      ensures pin in ic.pinRoots && ic.pinRoots[pin] == root <==> CarriesClock(p, c, sub, pin, root)
    {
      PinMapIff(p, c, sub, pin, root);
    }
  }

  // The root is a clock of the constraints, or a port typed with one: by its delay
  // statement, or else by the first clock that lists it.
  ghost predicate NamesClock(s: ClockSpec, root: string)
    requires ValidSpec(s)
  {
    || root in s.clocks
    || (root in s.portClock && s.portClock[root] in s.clocks && s.portClock[root] != "<unconstrained>")
    || (root !in s.portClock && exists i: nat :: IsFirstOwner(s, root, i) && s.order[i] != "<unconstrained>")
  }

  ghost predicate IsFirstOwner(s: ClockSpec, port: string, i: nat)
    requires ValidSpec(s)
  {
    && i < |s.order| && port in s.clocks[s.order[i]].ports
    && forall j :: 0 <= j < i ==> port !in s.clocks[s.order[j]].ports
  }

  // A connected input or inout pin carries a clock with this root: by an allow-listed
  // name, whatever the trace through dividers finds; by a clock-like name, a known clock
  // found without going through one.
  ghost predicate CarriesClock(p: Parent, c: Cell, sub: Module, pin: string, root: Option<string>)
    requires ValidSpec(p.spec)
  {
    && (exists port :: port in sub.ports && port.name == pin && port.direction != Output)
    && Conn(c, pin) != []
    && if pin in {"CLK", "clk", "C", "clock", "clk_i"} then root == p.trace(Conn(c, pin)[0], true)
       else p.looksLikeClock(pin) && root == p.trace(Conn(c, pin)[0], false) && root.Some? &&
            NamesClock(p.spec, root.value)
  }

  lemma {:induction false} OwnerIsFirst(clocks: map<string, Clock>, order: seq<string>, port: string) returns (i: nat)
    requires forall name :: name in order ==> name in clocks
    requires FirstOwner(clocks, order, port).Some?
    ensures i < |order| && FirstOwner(clocks, order, port) == Some(order[i]) && port in clocks[order[i]].ports
    ensures forall j :: 0 <= j < i ==> port !in clocks[order[j]].ports
  {
    if port in clocks[order[0]].ports {
      i := 0;
    } else {
      var k := OwnerIsFirst(clocks, order[1..], port);
      i := k + 1;
    }
  }

  lemma KnownIffNamed(s: ClockSpec, root: string)
    requires ValidSpec(s)
    ensures IsKnownClock(s, root) <==> NamesClock(s, root)
  {
    if root !in s.portClock && ClockForPort(s, root).Some? {
      var i := OwnerIsFirst(s.clocks, s.order, root);
      assert IsFirstOwner(s, root, i);
      forall j: nat | IsFirstOwner(s, root, j) ensures i == j {
      }
    }
  }

  // Exactly which pins are found to carry a clock, and the root found for each.
  lemma PinMapIff(p: Parent, c: Cell, sub: Module, pin: string, root: Option<string>)
    requires ValidSpec(p.spec)
    ensures pin in PinRootsOf(p, c, sub) && PinRootsOf(p, c, sub)[pin] == root <==> CarriesClock(p, c, sub, pin, root)
  {
    if root.Some? {
      KnownIffNamed(p.spec, root.value);
    }
    assert pin in InputNames(sub) <==>
           exists port :: port in sub.ports && port.name == pin && port.direction != Output;
  }

  // ---- one domain for the whole block -----------------------------------

  function Stamp(port: Port, clk: Option<string>, facts: Option<PortFacts>): PortBoundary {
    match facts
    case None => PortBoundary(port.name, clk, false, |port.bits|, None, false)
    case Some(f) => PortBoundary(port.name, clk, Synchronised(f), |port.bits|, f.syncDepth, f.userSynchronised)
  }

  function FactsOf(a: Option<ModuleAnalysis>, port: string): Option<PortFacts> {
    if a.Some? && port in a.value.ports then Some(a.value.ports[port]) else None
  }

  function OutputStamps(ports: seq<Port>, clk: Option<string>, a: Option<ModuleAnalysis>): seq<PortBoundary> {
    if ports == [] then []
    else
      var last := ports[|ports| - 1];
      OutputStamps(ports[..|ports| - 1], clk, a)
      + if Leaves(last) then [Stamp(last, clk, FactsOf(a, last.name))] else []
  }

  function InputStamps(ports: seq<Port>, clockPins: set<string>, clk: Option<string>,
                       a: Option<ModuleAnalysis>): seq<PortBoundary> {
    if ports == [] then []
    else
      var last := ports[|ports| - 1];
      InputStamps(ports[..|ports| - 1], clockPins, clk, a)
      + if Enters(last) && last.name !in clockPins then [Stamp(last, clk, FactsOf(a, last.name))] else []
  }

  function SingleClockSummary(sub: Module, clockPins: set<string>, clk: Option<string>,
                              a: Option<ModuleAnalysis>): BoundarySummary {
    BoundarySummary(OutputStamps(sub.ports, clk, a), clk, InputStamps(sub.ports, clockPins, clk, a),
                    a.Some?, if a.Some? then a.value.reconvergentInputs else {})
  }

  // The clock is any member of the root set.
  predicate PickedFrom(roots: set<string>, clk: Option<string>) {
    if roots == {} then clk == None else clk.Some? && clk.value in roots
  }

  ghost predicate IsSingleClockSummary(sub: Module, ic: InstanceClocks, a: Option<ModuleAnalysis>, s: BoundarySummary) {
    PickedFrom(ic.roots, s.clock) && s == SingleClockSummary(sub, ic.clockPins, s.clock, a)
  }

  method SummariseSingleClock(sub: Module, ic: InstanceClocks, a: Option<ModuleAnalysis>) returns (s: BoundarySummary)
    ensures IsSingleClockSummary(sub, ic, a, s)
  {
    var clk: Option<string> := None;
    if ic.roots != {} {
      var first :| first in ic.roots;
      clk := Some(first);
    }
    var ports: seq<PortBoundary>, inputPorts: seq<PortBoundary> := [], [];
    for k := 0 to |sub.ports|
      invariant ports == OutputStamps(sub.ports[..k], clk, a)
      invariant inputPorts == InputStamps(sub.ports[..k], ic.clockPins, clk, a)
    {
      var port := sub.ports[k];
      assert sub.ports[..k + 1][..k] == sub.ports[..k];
      var facts := FactsOf(a, port.name);
      if Leaves(port) {
        ports := ports + [Stamp(port, clk, facts)];
      }
      if Enters(port) && port.name !in ic.clockPins {
        inputPorts := inputPorts + [Stamp(port, clk, facts)];
      }
    }
    assert sub.ports[..|sub.ports|] == sub.ports;
    s := BoundarySummary(ports, clk, inputPorts, a.Some?, if a.Some? then a.value.reconvergentInputs else {});
  }

  // ---- one domain per port ----------------------------------------------

  // The ports below k as per-port boundaries, unless an input is ambiguous.
  datatype Stamps = Stamps(ports: seq<PortBoundary>, inputPorts: seq<PortBoundary>)

  predicate Describes(a: ModuleAnalysis, sub: Module, clockPins: set<string>) {
    forall port :: port in sub.ports && port.name !in clockPins ==> port.name in a.ports
  }

  function MultiClockStamps(ports: seq<Port>, clockPins: set<string>, a: ModuleAnalysis): Option<Stamps>
    requires forall port :: port in ports && port.name !in clockPins ==> port.name in a.ports
  {
    if ports == [] then Some(Stamps([], []))
    else
      var n := |ports| - 1;
      assert forall port :: port in ports[..n] ==> port in ports;
      match MultiClockStamps(ports[..n], clockPins, a) {
        case None => None
        case Some(st) => StampPort(st, ports[n], clockPins, a)
      }
  }

  function StampPort(st: Stamps, port: Port, clockPins: set<string>, a: ModuleAnalysis): Option<Stamps>
    requires port.name !in clockPins ==> port.name in a.ports
  {
    if port.name in clockPins then Some(st)
    else
      var f := a.ports[port.name];
      if Enters(port) && f.ambiguous then None
      else
        var b := Stamp(port, f.clock, Some(f));
        Some(Stamps(
          if Leaves(port) then st.ports + [b] else st.ports,
          if Enters(port) && f.clock.Some? then st.inputPorts + [b] else st.inputPorts))
  }

  function MultiClockSummary(sub: Module, clockPins: set<string>, a: ModuleAnalysis): Option<BoundarySummary>
    requires Describes(a, sub, clockPins)
  {
    if a.clockRoots == {} then None
    else match MultiClockStamps(sub.ports, clockPins, a) {
      case None => None
      case Some(st) => Some(BoundarySummary(st.ports, None, st.inputPorts, true, a.reconvergentInputs))
    }
  }

  lemma {:induction false} AmbiguousSticks(ports: seq<Port>, k: nat, clockPins: set<string>, a: ModuleAnalysis)
    requires forall port :: port in ports && port.name !in clockPins ==> port.name in a.ports
    requires k <= |ports|
    requires (forall port :: port in ports[..k] ==> port in ports) ==> MultiClockStamps(ports[..k], clockPins, a).None?
    ensures MultiClockStamps(ports, clockPins, a).None?
    decreases |ports|
  {
    if k == |ports| {
      assert ports[..k] == ports;
    } else {
      var n := |ports| - 1;
      assert ports[..n][..k] == ports[..k];
      AmbiguousSticks(ports[..n], k, clockPins, a);
    }
  }

  method SummariseMultiClock(sub: Module, ic: InstanceClocks, a: ModuleAnalysis) returns (s: Option<BoundarySummary>)
    requires Describes(a, sub, ic.clockPins)
    ensures s == MultiClockSummary(sub, ic.clockPins, a)
  {
    if a.clockRoots == {} {
      return None;
    }
    var ports: seq<PortBoundary>, inputPorts: seq<PortBoundary> := [], [];
    for k := 0 to |sub.ports|
      invariant forall port :: port in sub.ports[..k] ==> port in sub.ports
      invariant MultiClockStamps(sub.ports[..k], ic.clockPins, a) == Some(Stamps(ports, inputPorts))
    {
      var port := sub.ports[k];
      assert sub.ports[..k + 1][..k] == sub.ports[..k] && sub.ports[..k + 1][k] == port;
      assert MultiClockStamps(sub.ports[..k + 1], ic.clockPins, a) ==
          StampPort(Stamps(ports, inputPorts), port, ic.clockPins, a);
      if port.name in ic.clockPins {
        continue;
      }
      var f := a.ports[port.name];
      if Leaves(port) {
        ports := ports + [Stamp(port, f.clock, Some(f))];
      }
      if Enters(port) {
        if f.ambiguous {
          AmbiguousSticks(sub.ports, k + 1, ic.clockPins, a);
          return None;
        }
        if f.clock.None? {
          continue;
        }
        inputPorts := inputPorts + [Stamp(port, f.clock, Some(f))];
      }
    }
    assert sub.ports[..|sub.ports|] == sub.ports;
    return Some(BoundarySummary(ports, None, inputPorts, true, a.reconvergentInputs));
  }

  // ---- summarising an instance ------------------------------------------

  function AsClocks(roots: set<string>): set<Option<string>> {
    set r | r in roots :: Some(r)
  }

  // A fresh summary for one pin map; only the pick of a clock is left open.
  ghost predicate IsSummary(s: ClockSpec, sub: Module, pins: PinMap, a: Option<ModuleAnalysis>,
                            r: Option<BoundarySummary>) {
    var ic := ClocksOf(pins);
    var single := IsSingleDomain(s, AsClocks(ic.roots));
    if a.Some? && !a.value.resolved then r == None
    else if single then r.Some? && IsSingleClockSummary(sub, ic, a, r.value)
    else if a.None? then r == None
    else Describes(a.value, sub, ic.clockPins) && r == MultiClockSummary(sub, ic.clockPins, a.value)
  }

  method SummariseSubtree(p: Parent, c: Cell, sub: Module, a: Option<ModuleAnalysis>)
    returns (r: Option<BoundarySummary>)
    requires ValidSpec(p.spec)
    requires a.Some? ==> Describes(a.value, sub, PinRootsOf(p, c, sub).Keys)
    ensures IsSummary(p.spec, sub, PinRootsOf(p, c, sub), a, r)
  {
    var ic := FindInstanceClocks(p, c, sub);
    var single := IsSingleClockSubtree(p.spec, AsClocks(ic.roots));
    if a.None? {
      if !single {
        return None;
      }
      var s := SummariseSingleClock(sub, ic, None);
      return Some(s);
    }
    if !a.value.resolved {
      return None;
    }
    if single {
      var s := SummariseSingleClock(sub, ic, a);
      return Some(s);
    }
    r := SummariseMultiClock(sub, ic, a.value);
  }

  // Two fresh summaries of one pin map decline alike and differ at most in which
  // of several synchronous clocks they stamp.
  lemma SummariesAgree(s: ClockSpec, sub: Module, pins: PinMap, a: Option<ModuleAnalysis>,
                       r: Option<BoundarySummary>, q: Option<BoundarySummary>)
    requires IsSummary(s, sub, pins, a, r) && IsSummary(s, sub, pins, a, q)
    ensures r.None? <==> q.None?
    ensures r.Some? && r != q ==>
      && r.value.clock.Some? && q.value.clock.Some? && r.value.clock != q.value.clock
      && MasterChains.Root(MastersOf(s), r.value.clock.value) == MasterChains.Root(MastersOf(s), q.value.clock.value)
      && !AreAsync(s, r.value.clock.value, q.value.clock.value)
    ensures |ClocksOf(pins).roots| <= 1 ==> r == q
  {
    var roots := ClocksOf(pins).roots;
    if r.Some? && r != q {
      var x, y := r.value.clock, q.value.clock;
      assert IsSingleDomain(s, AsClocks(roots));
      assert x.Some? && y.Some? && x in AsClocks(roots) && y in AsClocks(roots);
      assert SameDomain(s, x.value, y.value);
      if |roots| <= 1 {
        AtMostOne(roots, x.value, y.value);
      }
    }
  }

  // The pick is real: a block on two synchronous clocks has two fresh summaries.
  lemma PickIsArbitrary(s: ClockSpec, sub: Module, pins: PinMap, x: string, y: string)
    returns (r: BoundarySummary, q: BoundarySummary)
    requires IsSingleDomain(s, AsClocks(ClocksOf(pins).roots))
    requires x in ClocksOf(pins).roots && y in ClocksOf(pins).roots && x != y
    ensures r != q && IsSummary(s, sub, pins, None, Some(r)) && IsSummary(s, sub, pins, None, Some(q))
  {
    r := SingleClockSummary(sub, ClocksOf(pins).clockPins, Some(x), None);
    q := SingleClockSummary(sub, ClocksOf(pins).clockPins, Some(y), None);
  }

  // ---- what a summary says of its ports ---------------------------------

  // The boundary of one port: its name and width, a clock, and what was proved of it
  // inside, which is nothing when there was no analysis of it.
  predicate Tells(b: PortBoundary, port: Port, clk: Option<string>, a: Option<ModuleAnalysis>) {
    && b.port == port.name && b.width == |port.bits| && b.srcClock == clk
    && if a.Some? && port.name in a.value.ports then
         var f := a.value.ports[port.name];
         && b.syncDepth == f.syncDepth && b.userSynchronised == f.userSynchronised
         && (b.synchronised <==> f.userSynchronised || (f.syncDepth.Some? && f.syncDepth.value >= 2))
       else b.syncDepth.None? && !b.userSynchronised && !b.synchronised
  }

  lemma StampTells(b: PortBoundary, port: Port, clk: Option<string>, a: Option<ModuleAnalysis>)
    ensures b == Stamp(port, clk, FactsOf(a, port.name)) <==> Tells(b, port, clk, a)
  {
  }

  ghost predicate IsSource(b: PortBoundary, ports: seq<Port>, clk: Option<string>, a: Option<ModuleAnalysis>) {
    exists port :: port in ports && port.direction != Input && Tells(b, port, clk, a)
  }

  ghost predicate IsVirtualSink(b: PortBoundary, ports: seq<Port>, clockPins: set<string>, clk: Option<string>,
                                a: Option<ModuleAnalysis>) {
    exists port :: port in ports && port.direction != Output && port.name !in clockPins && Tells(b, port, clk, a)
  }

  lemma {:induction false} SourcesAre(ports: seq<Port>, clk: Option<string>, a: Option<ModuleAnalysis>, b: PortBoundary)
    ensures b in OutputStamps(ports, clk, a) <==> IsSource(b, ports, clk, a)
  {
    if ports != [] {
      var n := |ports| - 1;
      SourcesAre(ports[..n], clk, a, b);
      StampTells(b, ports[n], clk, a);
      assert forall port :: port in ports <==> port in ports[..n] || port == ports[n];
    }
  }

  lemma {:induction false} SinksAre(ports: seq<Port>, clockPins: set<string>, clk: Option<string>,
                                    a: Option<ModuleAnalysis>, b: PortBoundary)
    ensures b in InputStamps(ports, clockPins, clk, a) <==> IsVirtualSink(b, ports, clockPins, clk, a)
  {
    if ports != [] {
      var n := |ports| - 1;
      SinksAre(ports[..n], clockPins, clk, a, b);
      StampTells(b, ports[n], clk, a);
      assert forall port :: port in ports <==> port in ports[..n] || port == ports[n];
    }
  }

  // Everything a single-domain summary holds: the clock of some pin, or none if no root was
  // found, on every output and on every input that is no clock pin, with what is proved of each.
  lemma SingleDomainHolds(s: ClockSpec, sub: Module, pins: PinMap, a: Option<ModuleAnalysis>, r: BoundarySummary)
    requires IsSummary(s, sub, pins, a, Some(r)) && IsSingleDomain(s, AsClocks(ClocksOf(pins).roots))
    ensures if r.clock.None? then forall pin :: pin in pins ==> pins[pin].None?
            else exists pin :: pin in pins && pins[pin] == r.clock
    ensures forall b :: b in r.ports <==> IsSource(b, sub.ports, r.clock, a)
    ensures forall b :: b in r.inputPorts <==> IsVirtualSink(b, sub.ports, pins.Keys, r.clock, a)
    ensures r.internalAnalysed == a.Some?
    ensures r.reconvergentInputs == if a.Some? then a.value.reconvergentInputs else {}
  {
    forall b
      ensures b in r.ports <==> IsSource(b, sub.ports, r.clock, a)
      ensures b in r.inputPorts <==> IsVirtualSink(b, sub.ports, pins.Keys, r.clock, a)
    {
      SourcesAre(sub.ports, r.clock, a, b);
      SinksAre(sub.ports, pins.Keys, r.clock, a, b);
    }
    forall pin | pin in pins && pins[pin].Some? ensures pins[pin].value in ClocksOf(pins).roots {
    }
  }

  // When there is a summary at all: never with internals that did not resolve, else for one
  // domain always, and for several with analysed internals that have clocks and no input
  // captured in two.
  lemma SummaryExistsIff(s: ClockSpec, sub: Module, pins: PinMap, a: Option<ModuleAnalysis>, r: Option<BoundarySummary>)
    requires IsSummary(s, sub, pins, a, r)
    ensures r.Some? <==>
      && (a.Some? ==> a.value.resolved)
      && (|| IsSingleDomain(s, AsClocks(ClocksOf(pins).roots))
          || (a.Some? && a.value.clockRoots != {} && forall port :: port in sub.ports ==>
                !AmbiguousInput(port, pins.Keys, a.value)))
  {
    if a.Some? && a.value.resolved && !IsSingleDomain(s, AsClocks(ClocksOf(pins).roots)) {
      MultiClockDeclinesIff(sub, pins.Keys, a.value);
    }
  }

  // ---- what a single-domain summary covers ------------------------------

  lemma {:induction false} OutputStampsCover(ports: seq<Port>, clk: Option<string>, a: Option<ModuleAnalysis>)
    ensures forall b :: b in OutputStamps(ports, clk, a) ==> b.srcClock == clk
    ensures forall port :: port in ports && Leaves(port) ==>
        Stamp(port, clk, FactsOf(a, port.name)) in OutputStamps(ports, clk, a)
  {
    if ports != [] {
      OutputStampsCover(ports[..|ports| - 1], clk, a);
      assert ports == ports[..|ports| - 1] + [ports[|ports| - 1]];
    }
  }

  lemma {:induction false} InputStampsCover(ports: seq<Port>, clockPins: set<string>, clk: Option<string>,
                                            a: Option<ModuleAnalysis>)
    ensures forall b :: b in InputStamps(ports, clockPins, clk, a) ==> b.srcClock == clk && b.port !in clockPins
    ensures forall port :: port in ports && Enters(port) && port.name !in clockPins ==>
      Stamp(port, clk, FactsOf(a, port.name)) in InputStamps(ports, clockPins, clk, a)
  {
    if ports != [] {
      InputStampsCover(ports[..|ports| - 1], clockPins, clk, a);
      assert ports == ports[..|ports| - 1] + [ports[|ports| - 1]];
    }
  }

  // A single-domain block is stamped with one clock throughout: every output is
  // a source, every data input a sink and no clock pin is.
  lemma SingleDomainIsUniform(s: ClockSpec, sub: Module, pins: PinMap, a: Option<ModuleAnalysis>,
                              r: Option<BoundarySummary>)
    requires IsSummary(s, sub, pins, a, r) && r.Some? && IsSingleDomain(s, AsClocks(ClocksOf(pins).roots))
    ensures BoundaryCover.Uniform(r.value)
    ensures forall port :: port in sub.ports && Leaves(port) ==> exists b :: b in r.value.ports && b.port == port.name
    ensures forall port :: port in sub.ports && Enters(port) ==>
      (port.name !in pins <==> exists b :: b in r.value.inputPorts && b.port == port.name)
  {
    var clk, clockPins := r.value.clock, ClocksOf(pins).clockPins;
    OutputStampsCover(sub.ports, clk, a);
    InputStampsCover(sub.ports, clockPins, clk, a);
    forall port | port in sub.ports && Leaves(port)
      ensures exists b :: b in r.value.ports && b.port == port.name
    {
      assert Stamp(port, clk, FactsOf(a, port.name)).port == port.name;
    }
    forall port | port in sub.ports && Enters(port) && port.name !in pins
      ensures exists b :: b in r.value.inputPorts && b.port == port.name
    {
      assert Stamp(port, clk, FactsOf(a, port.name)).port == port.name;
    }
  }

  // A multi-clock module is summarised exactly when it has clocks of its own and
  // no data input of it is captured in two domains.
  lemma MultiClockDeclinesIff(sub: Module, clockPins: set<string>, a: ModuleAnalysis)
    requires Describes(a, sub, clockPins)
    ensures MultiClockSummary(sub, clockPins, a).None? <==>
      a.clockRoots == {} || exists port :: port in sub.ports && AmbiguousInput(port, clockPins, a)
  {
    MultiClockStampsNoneIff(sub.ports, clockPins, a);
  }

  predicate AmbiguousInput(port: Port, clockPins: set<string>, a: ModuleAnalysis) {
    Enters(port) && port.name !in clockPins && port.name in a.ports && a.ports[port.name].ambiguous
  }

  lemma {:induction false} MultiClockStampsNoneIff(ports: seq<Port>, clockPins: set<string>, a: ModuleAnalysis)
    requires forall port :: port in ports && port.name !in clockPins ==> port.name in a.ports
    ensures MultiClockStamps(ports, clockPins, a).None? <==>
        exists port :: port in ports && AmbiguousInput(port, clockPins, a)
  {
    if ports != [] {
      var n := |ports| - 1;
      assert forall port :: port in ports <==> port in ports[..n] || port == ports[n];
      MultiClockStampsNoneIff(ports[..n], clockPins, a);
      if MultiClockStamps(ports[..n], clockPins, a).Some? {
        assert MultiClockStamps(ports, clockPins, a).None? <==> AmbiguousInput(ports[n], clockPins, a);
      }
    }
  }

  // The boundary a multi-clock summary has for one port.
  ghost predicate PerPort(b: PortBoundary, ports: seq<Port>, clockPins: set<string>, a: ModuleAnalysis, input: bool) {
    exists port :: port in ports && StampedAs(b, port, clockPins, a, input)
  }

  predicate StampedAs(b: PortBoundary, port: Port, clockPins: set<string>, a: ModuleAnalysis, input: bool) {
    && port.name !in clockPins && port.name in a.ports
    && (if input then Enters(port) && a.ports[port.name].clock.Some? else Leaves(port))
    && Tells(b, port, a.ports[port.name].clock, Some(a))
  }

  lemma {:induction false} MultiClockStampsCover(ports: seq<Port>, clockPins: set<string>, a: ModuleAnalysis)
    requires forall port :: port in ports && port.name !in clockPins ==> port.name in a.ports
    requires MultiClockStamps(ports, clockPins, a).Some?
    ensures var st := MultiClockStamps(ports, clockPins, a).value;
      && (forall b :: b in st.ports <==> PerPort(b, ports, clockPins, a, false))
      && (forall b :: b in st.inputPorts <==> PerPort(b, ports, clockPins, a, true))
  {
    if ports != [] {
      var n := |ports| - 1;
      assert forall port :: port in ports[..n] ==> port in ports;
      MultiClockStampsCover(ports[..n], clockPins, a);
      if ports[n].name !in clockPins {
        var f := a.ports[ports[n].name];
        forall b ensures b == Stamp(ports[n], f.clock, Some(f)) <==> Tells(b, ports[n], f.clock, Some(a)) {
          StampTells(b, ports[n], f.clock, Some(a));
        }
      }
      forall b, input: bool
        ensures PerPort(b, ports, clockPins, a, input)
           <==> PerPort(b, ports[..n], clockPins, a, input) || StampedAs(b, ports[n], clockPins, a, input)
      {
        OnePortLonger(b, ports, clockPins, a, input);
      }
    }
  }

  lemma OnePortLonger(b: PortBoundary, ports: seq<Port>, clockPins: set<string>, a: ModuleAnalysis, input: bool)
    requires ports != []
    ensures PerPort(b, ports, clockPins, a, input)
       <==> PerPort(b, ports[..|ports| - 1], clockPins, a, input)
            || StampedAs(b, ports[|ports| - 1], clockPins, a, input)
  {
    var n := |ports| - 1;
    assert ports == ports[..n] + [ports[n]];
    if PerPort(b, ports, clockPins, a, input) {
      var port :| port in ports && StampedAs(b, port, clockPins, a, input);
      assert port in ports[..n] || port == ports[n];
    }
    if PerPort(b, ports[..n], clockPins, a, input) {
      var port :| port in ports[..n] && StampedAs(b, port, clockPins, a, input);
      assert port in ports;
    }
  }

  // A multi-clock summary has exactly the data outputs as sources and the captured
  // data inputs as sinks, each in the domain its own analysis gave it.
  lemma MultiClockIsPerPort(sub: Module, clockPins: set<string>, a: ModuleAnalysis)
    requires Describes(a, sub, clockPins) && MultiClockSummary(sub, clockPins, a).Some?
    ensures forall b :: b in MultiClockSummary(sub, clockPins, a).value.ports <==>
        PerPort(b, sub.ports, clockPins, a, false)
    ensures forall b :: b in MultiClockSummary(sub, clockPins, a).value.inputPorts <==>
        PerPort(b, sub.ports, clockPins, a, true)
    ensures var r := MultiClockSummary(sub, clockPins, a).value;
      r.clock.None? && r.internalAnalysed && r.reconvergentInputs == a.reconvergentInputs
  {
    MultiClockStampsCover(sub.ports, clockPins, a);
  }

  // The analysis proved the port synchronised.
  predicate Proven(b: PortBoundary, a: Option<ModuleAnalysis>) {
    && a.Some? && b.port in a.value.ports
    && var f := a.value.ports[b.port];
       f.userSynchronised || (f.syncDepth.Some? && f.syncDepth.value >= 2)
  }

  lemma {:induction false} OutputStampsProven(ports: seq<Port>, clk: Option<string>, a: Option<ModuleAnalysis>)
    ensures forall b :: b in OutputStamps(ports, clk, a) ==> (b.synchronised <==> Proven(b, a))
  {
    if ports != [] {
      OutputStampsProven(ports[..|ports| - 1], clk, a);
    }
  }

  lemma {:induction false} InputStampsProven(ports: seq<Port>, clockPins: set<string>, clk: Option<string>,
                                             a: Option<ModuleAnalysis>)
    ensures forall b :: b in InputStamps(ports, clockPins, clk, a) ==> (b.synchronised <==> Proven(b, a))
  {
    if ports != [] {
      InputStampsProven(ports[..|ports| - 1], clockPins, clk, a);
    }
  }

  // No summary, of either kind, calls a port synchronised without the proof.
  lemma SynchronisedIsProven(s: ClockSpec, sub: Module, pins: PinMap, a: Option<ModuleAnalysis>, r: BoundarySummary)
    requires IsSummary(s, sub, pins, a, Some(r))
    ensures forall b :: b in r.ports || b in r.inputPorts ==> (b.synchronised <==> Proven(b, a))
  {
    var clockPins := ClocksOf(pins).clockPins;
    if IsSingleDomain(s, AsClocks(ClocksOf(pins).roots)) {
      OutputStampsProven(sub.ports, r.clock, a);
      InputStampsProven(sub.ports, clockPins, r.clock, a);
    } else {
      MultiClockIsPerPort(sub, clockPins, a.value);
    }
  }
}
