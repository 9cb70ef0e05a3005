/**
 The clock-root tracer: a depth-bounded recursive walk from a CLK net back to
 an input port or a generated-clock net, with a path-local visited set and a
 decline where two declared clocks combine.
 */
module ClockTrace {
  import opened Netlist
  import opened Drivers

  const BUFFER_TYPES: set<string> := { "$not", "$logic_not", "$buf", "$pos", "$reduce_bool", "$_BUF_", "$_NOT_" }
  const GATE_TYPES: set<string> := { "$and", "$or", "$logic_and", "$logic_or", "$xor", "$xnor" }
  const MUX_TYPES: set<string> := { "$mux", "$pmux" }

  // --- the tracer -------------------------------------------------------

  // `identity` maps a raw root to its declared clock; `None` when the caller has no clock set.
  datatype Netlisted = Netlisted(
    m: Module,
    drivers: map<int, Driver>,
    bitToClock: map<int, string>,
    allowDivider: bool,
    identity: Option<string -> Option<string>>
  )

  // Every driver is a cell of the netlist.
  type Context = c: Netlisted | forall b :: b in c.drivers ==> c.drivers[b].cell < |c.m.cells|
    witness Netlisted(Module([], []), map[], map[], false, None)

  // What a net resolves to without looking behind it.
  function RootAt(c: Context, b: int): Option<string> {
    if b in c.bitToClock then Some(c.bitToClock[b])
    else
      var port := PortOfBit(c.m.ports, Net(b));
      if port.Some? && port.value.direction == Input then Some(port.value.name) else None
  }

  datatype Step =
    | Through(bit: Bit)                 // buffer, or a flop's own clock pin
    | Combine(legs: seq<Bit>)           // gate or latch
    | Select(legs: seq<Bit>, s: seq<Bit>)  // mux
    | Dead

  function FirstBits(c: Cell, ports: seq<string>): seq<Bit> {
    if ports == [] then []
    else (if Conn(c, ports[0]) != [] then [Conn(c, ports[0])[0]] else []) + FirstBits(c, ports[1..])
  }

  // How the walk continues behind a driven net.
  function StepAt(c: Context, b: int): Step {
    if b !in c.drivers then Dead
    else
      var d := c.drivers[b];
      var cell := c.m.cells[d.cell];
      if cell.ctype in BUFFER_TYPES then
        (if Conn(cell, "A") != [] then Through(Conn(cell, "A")[0]) else Dead)
      else if cell.ctype in GATE_TYPES then Combine(FirstBits(cell, ["A", "B"]))
      else if cell.ctype in MUX_TYPES then Select(FirstBits(cell, ["A", "B"]), Conn(cell, "S"))
      else if c.allowDivider && IsFf(cell.ctype) && d.port == "Q" && FlopClkPin(cell) != [] then
        Through(FlopClkPin(cell)[0])
      else if c.allowDivider && IsLatch(cell.ctype) && d.port == "Q" then Combine(FirstBits(cell, ["D", "EN", "E"]))
      else Dead
  }

  function Distinct(roots: seq<string>): (r: seq<string>)
    ensures forall x :: x in r <==> x in roots
    ensures roots != [] ==> r != [] && r[0] == roots[0]
  {
    if roots == [] then [] else [roots[0]] + Without(Distinct(roots[1..]), roots[0])
  }

  function Without(xs: seq<string>, x: string): (r: seq<string>)
    ensures forall y :: y in r <==> y in xs && y != x
  {
    if xs == [] then [] else (if xs[0] == x then [] else [xs[0]]) + Without(xs[1..], x)
  }

  // Declared clocks among the roots.
  function Declared(roots: seq<string>, identity: string -> Option<string>): (r: set<string>)
    ensures forall id :: id in r <==> exists x :: x in roots && identity(x) == Some(id)
  {
    set x | x in roots && identity(x).Some? :: identity(x).value
  }

  function FirstDeclared(roots: seq<string>, identity: string -> Option<string>): (r: Option<string>)
    ensures r.Some? ==> r.value in roots
    ensures r.None? ==> forall x :: x in roots ==> identity(x).None?
  {
    if roots == [] then None
    else if identity(roots[0]).Some? then Some(roots[0])
    else FirstDeclared(roots[1..], identity)
  }

  // `_pick_combining_root`
  function Pick(roots: seq<string>, identity: Option<string -> Option<string>>): Option<string> {
    var distinct := Distinct(roots);
    if distinct == [] then None
    else if identity.None? then Some(distinct[0])
    else if |Declared(distinct, identity.value)| >= 2 then None
    else if FirstDeclared(distinct, identity.value).Some? then FirstDeclared(distinct, identity.value)
    else Some(distinct[0])
  }

  function Opt(x: Option<string>): seq<string> {
    match x case None => [] case Some(v) => [v]
  }

  // The netlist as the walk sees it: a root or a step behind every net, and the
  // cell the recorders name.
  datatype View = View(
    root: int -> Option<string>,
    step: int -> Step,
    cell: int -> nat,
    identity: Option<string -> Option<string>>
  )

  function ViewOf(c: Context): View {
    View((b: int) => RootAt(c, b), (b: int) => StepAt(c, b),
         (b: int) => if b in c.drivers then c.drivers[b].cell else 0, c.identity)
  }

  function Trace(v: View, bit: Bit, seen: set<int>, depth: nat): Option<string>
    decreases depth, 0
  {
    if bit.Const? || depth == 0 || bit.id in seen then None
    else if v.root(bit.id).Some? then v.root(bit.id)
    else Behind(v, v.step(bit.id), seen + {bit.id}, depth - 1)
  }

  function Width(step: Step): nat {
    match step
    case Combine(legs) => |legs|
    case Select(legs, s) => |legs|
    case _ => 0
  }

  // What a step leads to, with the budget left behind it.
  function Behind(v: View, step: Step, seen: set<int>, depth: nat): Option<string>
    decreases depth, 2 + Width(step)
  {
    match step
    case Through(a) => Trace(v, a, seen, depth)
    case Combine(legs) => Pick(LegRoots(v, legs, seen, depth), v.identity)
    case Select(legs, s) => FirstRoot(v, legs, seen, depth)
    case Dead => None
  }

  function LegRoots(v: View, legs: seq<Bit>, seen: set<int>, depth: nat): seq<string>
    decreases depth, 1 + |legs|
  {
    if legs == [] then [] else Opt(Trace(v, legs[0], seen, depth)) + LegRoots(v, legs[1..], seen, depth)
  }

  function FirstRoot(v: View, legs: seq<Bit>, seen: set<int>, depth: nat): Option<string>
    decreases depth, 1 + |legs|
  {
    if legs == [] then None
    else
      var r := Trace(v, legs[0], seen, depth);
      if r.Some? then r else FirstRoot(v, legs[1..], seen, depth)
  }

  // --- soundness --------------------------------------------------------

  // Net a's driver is a clock cell with net b on the leg the walk may follow.
  ghost predicate ClockEdge(v: View, a: int, b: int) {
    LeadsTo(v.step(a), Net(b))
  }

  ghost predicate LeadsTo(step: Step, bit: Bit) {
    match step
    case Through(x) => x == bit
    case Combine(legs) => bit in legs
    case Select(legs, s) => bit in legs
    case Dead => false
  }

  // A simple chain of clock cells from `bit` to a net that is the root `r`.
  ghost predicate RootPath(v: View, bit: int, seen: set<int>, depth: nat, r: string, p: seq<int>)
  {
    && 0 < |p| <= depth && p[0] == bit
    && (forall i :: 0 <= i < |p| - 1 ==> ClockEdge(v, p[i], p[i + 1]) && v.root(p[i]).None?)
    && (forall i, j :: 0 <= i < j < |p| ==> p[i] != p[j])
    && (forall i :: 0 <= i < |p| ==> p[i] !in seen)
    && v.root(p[|p| - 1]) == Some(r)
  }

  lemma ExtendRootPath(v: View, a: int, b: int, seen: set<int>, depth: nat, r: string, p: seq<int>)
    requires depth > 0 && a !in seen
    requires ClockEdge(v, a, b) && v.root(a).None?
    requires RootPath(v, b, seen + {a}, depth - 1, r, p)
    ensures RootPath(v, a, seen, depth, r, [a] + p)
  {
    var q := [a] + p;
    forall i | 0 <= i < |q| - 1 ensures ClockEdge(v, q[i], q[i + 1]) && v.root(q[i]).None? {
      if i > 0 {
        assert q[i] == p[i - 1] && q[i + 1] == p[i - 1 + 1];
      }
    }
    forall i | 0 <= i < |p| ensures p[i] != a && p[i] !in seen {
      assert p[i] !in seen + {a};
    }
  }

  // A resolved root is reached by at most depth - 1 clock cells along a simple path,
  // none of them declining.
  lemma {:induction false} TraceIsRootPath(v: View, bit: Bit, seen: set<int>, depth: nat) returns (p: seq<int>)
    requires Trace(v, bit, seen, depth).Some?
    ensures bit.Net? && RootPath(v, bit.id, seen, depth, Trace(v, bit, seen, depth).value, p)
    ensures !MeetsDecline(v, p, seen, depth)
    decreases depth, 0
  {
    var b := bit.id;
    var r := Trace(v, bit, seen, depth).value;
    if v.root(b).Some? {
      p := [b];
    } else {
      var leg := LegTaken(v, v.step(b), seen + {b}, depth - 1);
      var q := TraceIsRootPath(v, leg, seen + {b}, depth - 1);
      assert ClockEdge(v, b, leg.id);
      ExtendRootPath(v, b, leg.id, seen, depth, r, q);
      p := [b] + q;
      NoDeclineBehindStep(v, b, seen, depth);
      assert p[1..] == q;
    }
  }

  // The leg whose root the step resolves to.
  lemma LegTaken(v: View, step: Step, seen: set<int>, depth: nat) returns (leg: Bit)
    requires Behind(v, step, seen, depth).Some?
    ensures LeadsTo(step, leg) && Trace(v, leg, seen, depth) == Behind(v, step, seen, depth)
  {
    match step {
      case Through(a) => leg := a;
      case Combine(legs) => leg := LegOf(v, legs, seen, depth, Behind(v, step, seen, depth).value);
      case Select(legs, s) => leg := FirstLeg(v, legs, seen, depth);
    }
  }

  // Every collected root is some leg's root.
  lemma {:induction false} LegOf(v: View, legs: seq<Bit>, seen: set<int>, depth: nat, r: string) returns (leg: Bit)
    requires r in LegRoots(v, legs, seen, depth)
    ensures leg in legs && Trace(v, leg, seen, depth) == Some(r)
    decreases legs
  {
    if Trace(v, legs[0], seen, depth) == Some(r) {
      leg := legs[0];
    } else {
      leg := LegOf(v, legs[1..], seen, depth, r);
    }
  }

  lemma {:induction false} FirstLeg(v: View, legs: seq<Bit>, seen: set<int>, depth: nat) returns (leg: Bit)
    requires FirstRoot(v, legs, seen, depth).Some?
    ensures leg in legs && Trace(v, leg, seen, depth) == FirstRoot(v, legs, seen, depth)
    decreases legs
  {
    if Trace(v, legs[0], seen, depth).Some? {
      leg := legs[0];
    } else {
      leg := FirstLeg(v, legs[1..], seen, depth);
    }
  }

  // --- recorders --------------------------------------------------------

  datatype Decline = Decline(cell: nat, bit: int, clocks: set<string>)

  datatype Control = Control(cell: nat, bits: seq<Bit>)

  // A trace with both recorders attached.
  datatype Traced = Traced(root: Option<string>, declines: seq<Decline>, controls: seq<Control>)

  function PlainEvent(root: Option<string>): Traced {
    Traced(root, [], [])
  }

  // Events of exploring every leg in turn.
  datatype Legs = Legs(roots: seq<Option<string>>, declines: seq<Decline>, controls: seq<Control>)

  function TraceRecorded(v: View, bit: Bit, seen: set<int>, depth: nat): Traced
    decreases depth, 0
  {
    if bit.Const? || depth == 0 || bit.id in seen then PlainEvent(None)
    else if v.root(bit.id).Some? then PlainEvent(v.root(bit.id))
    else BehindRecorded(v, bit.id, v.step(bit.id), seen + {bit.id}, depth - 1)
  }

  function BehindRecorded(v: View, b: int, step: Step, seen: set<int>, depth: nat): Traced
    decreases depth, 2 + Width(step)
  {
    match step
    case Through(a) => TraceRecorded(v, a, seen, depth)
    case Combine(legs) => Combined(v, b, legs, LegsRecorded(v, legs, seen, depth))
    case Select(legs, s) => FirstRecorded(v, b, legs, s, seen, depth)
    case Dead => PlainEvent(None)
  }

  function SomeRoots(roots: seq<Option<string>>): seq<string> {
    if roots == [] then [] else Opt(roots[0]) + SomeRoots(roots[1..])
  }

  // Bits of the legs that did not carry the picked clock.
  function OtherLegs(legs: seq<Bit>, roots: seq<Option<string>>, picked: string): seq<Bit>
    requires |legs| == |roots|
  {
    if legs == [] then []
    else (if roots[0] != Some(picked) then [legs[0]] else []) + OtherLegs(legs[1..], roots[1..], picked)
  }

  // The tracer declines: at least two declared clocks meet.
  predicate Declines(roots: seq<string>, identity: Option<string -> Option<string>>) {
    identity.Some? && |Declared(Distinct(roots), identity.value)| >= 2
  }

  function Combined(v: View, b: int, legs: seq<Bit>, l: Legs): Traced
    requires |l.roots| == |legs|
  {
    var roots := SomeRoots(l.roots);
    var picked := Pick(roots, v.identity);
    var cell := v.cell(b);
    Traced(picked,
           l.declines + (if Declines(roots, v.identity)
                         then [Decline(cell, b, Declared(Distinct(roots), v.identity.value))] else []),
           l.controls + (if picked.Some? && OtherLegs(legs, l.roots, picked.value) != []
                         then [Control(cell, OtherLegs(legs, l.roots, picked.value))] else []))
  }

  function LegsRecorded(v: View, legs: seq<Bit>, seen: set<int>, depth: nat): (l: Legs)
    ensures |l.roots| == |legs|
    decreases depth, 1 + |legs|
  {
    if legs == [] then Legs([], [], [])
    else
      var t := TraceRecorded(v, legs[0], seen, depth);
      var rest := LegsRecorded(v, legs[1..], seen, depth);
      Legs([t.root] + rest.roots, t.declines + rest.declines, t.controls + rest.controls)
  }

  function FirstRecorded(v: View, b: int, legs: seq<Bit>, s: seq<Bit>, seen: set<int>, depth: nat): Traced
    decreases depth, 1 + |legs|
  {
    if legs == [] then PlainEvent(None)
    else
      var t := TraceRecorded(v, legs[0], seen, depth);
      if t.root.Some? then
        Traced(t.root, t.declines, t.controls + (if s != [] then [Control(v.cell(b), s)] else []))
      else
        var rest := FirstRecorded(v, b, legs[1..], s, seen, depth);
        Traced(rest.root, t.declines + rest.declines, t.controls + rest.controls)
  }

  // Attaching the recorders never changes the answer.
  lemma {:induction false} RecordersAreInert(v: View, bit: Bit, seen: set<int>, depth: nat)
    ensures TraceRecorded(v, bit, seen, depth).root == Trace(v, bit, seen, depth)
    decreases depth, 0
  {
    if bit.Net? && depth > 0 && bit.id !in seen && v.root(bit.id).None? {
      BehindIsInert(v, bit.id, v.step(bit.id), seen + {bit.id}, depth - 1);
    }
  }

  lemma {:induction false} BehindIsInert(v: View, b: int, step: Step, seen: set<int>, depth: nat)
    ensures BehindRecorded(v, b, step, seen, depth).root == Behind(v, step, seen, depth)
    decreases depth, 2 + Width(step)
  {
    match step {
      case Through(a) => RecordersAreInert(v, a, seen, depth);
      case Combine(legs) => LegsAreInert(v, legs, seen, depth);
      case Select(legs, s) => FirstIsInert(v, b, legs, s, seen, depth);
      case Dead =>
    }
  }

  lemma {:induction false} LegsAreInert(v: View, legs: seq<Bit>, seen: set<int>, depth: nat)
    ensures SomeRoots(LegsRecorded(v, legs, seen, depth).roots) == LegRoots(v, legs, seen, depth)
    decreases depth, 1 + |legs|
  {
    if legs != [] {
      RecordersAreInert(v, legs[0], seen, depth);
      LegsAreInert(v, legs[1..], seen, depth);
      var t := TraceRecorded(v, legs[0], seen, depth);
      var rest := LegsRecorded(v, legs[1..], seen, depth);
      assert ([t.root] + rest.roots)[1..] == rest.roots;
    }
  }

  lemma {:induction false} FirstIsInert(v: View, b: int, legs: seq<Bit>, s: seq<Bit>, seen: set<int>, depth: nat)
    ensures FirstRecorded(v, b, legs, s, seen, depth).root == FirstRoot(v, legs, seen, depth)
    decreases depth, 1 + |legs|
  {
    if legs != [] {
      RecordersAreInert(v, legs[0], seen, depth);
      FirstIsInert(v, b, legs[1..], s, seen, depth);
    }
  }

  // --- deeper budgets ---------------------------------------------------

  // A combining cell resolves exactly when some leg does and at most one declared clock meets there.
  lemma PickResolvesIff(roots: seq<string>, identity: Option<string -> Option<string>>)
    ensures Pick(roots, identity).Some? <==> roots != [] && !Declines(roots, identity)
  {
  }

  // A leg that resolves or declines makes its gate collect a root or a decline.
  lemma {:induction false} LegContributes(v: View, legs: seq<Bit>, leg: Bit, seen: set<int>, depth: nat)
    requires leg in legs && ResolvesOrDeclines(v, leg, seen, depth)
    ensures LegRoots(v, legs, seen, depth) != [] || LegsRecorded(v, legs, seen, depth).declines != []
    decreases legs
  {
    if leg != legs[0] {
      LegContributes(v, legs[1..], leg, seen, depth);
    }
  }

  lemma {:induction false} FirstContributes(v: View, b: int, legs: seq<Bit>, leg: Bit, s: seq<Bit>, seen: set<int>,
                                            depth: nat)
    requires leg in legs && ResolvesOrDeclines(v, leg, seen, depth)
    ensures FirstRoot(v, legs, seen, depth).Some? || FirstRecorded(v, b, legs, s, seen, depth).declines != []
    decreases legs
  {
    RecordersAreInert(v, legs[0], seen, depth);
    if leg != legs[0] {
      FirstContributes(v, b, legs[1..], leg, s, seen, depth);
    }
  }

  ghost predicate ResolvesOrDeclines(v: View, bit: Bit, seen: set<int>, depth: nat) {
    Trace(v, bit, seen, depth).Some? || TraceRecorded(v, bit, seen, depth).declines != []
  }

  lemma BehindContributes(v: View, b: int, step: Step, leg: Bit, seen: set<int>, depth: nat)
    requires LeadsTo(step, leg) && ResolvesOrDeclines(v, leg, seen, depth)
    ensures Behind(v, step, seen, depth).Some? || BehindRecorded(v, b, step, seen, depth).declines != []
  {
    match step {
      case Through(a) =>
      case Combine(legs) =>
        LegContributes(v, legs, leg, seen, depth);
        CombinedResolvesOrDeclines(v, b, legs, seen, depth);
      case Select(legs, s) => FirstContributes(v, b, legs, leg, s, seen, depth);
    }
  }

  lemma CombinedResolvesOrDeclines(v: View, b: int, legs: seq<Bit>, seen: set<int>, depth: nat)
    requires LegRoots(v, legs, seen, depth) != [] || LegsRecorded(v, legs, seen, depth).declines != []
    ensures Pick(LegRoots(v, legs, seen, depth), v.identity).Some? ||
            Combined(v, b, legs, LegsRecorded(v, legs, seen, depth)).declines != []
  {
    LegsAreInert(v, legs, seen, depth);
    PickResolvesIff(LegRoots(v, legs, seen, depth), v.identity);
  }

  // A net joined to a root within the budget resolves, unless the walk records a
  // decline.
  lemma {:induction false} PathResolvesOrDeclines(v: View, b: int, seen: set<int>, depth: nat, r: string, p: seq<int>)
    requires RootPath(v, b, seen, depth, r, p)
    ensures ResolvesOrDeclines(v, Net(b), seen, depth)
    decreases depth
  {
    if |p| > 1 {
      assert ClockEdge(v, p[0], p[1]);
      RestIsRootPath(v, b, seen, depth, r, p);
      PathResolvesOrDeclines(v, p[1], seen + {b}, depth - 1, r, p[1..]);
      BehindContributes(v, b, v.step(b), Net(p[1]), seen + {b}, depth - 1);
    }
  }

  lemma RestIsRootPath(v: View, b: int, seen: set<int>, depth: nat, r: string, p: seq<int>)
    requires RootPath(v, b, seen, depth, r, p) && |p| > 1
    ensures RootPath(v, p[1], seen + {b}, depth - 1, r, p[1..])
  {
    var q := p[1..];
    forall i | 0 <= i < |q| ensures q[i] !in seen + {b} {
      assert p[0] != p[i + 1];
    }
    forall i | 0 <= i < |q| - 1 ensures ClockEdge(v, q[i], q[i + 1]) && v.root(q[i]).None? {
      assert q[i] == p[i + 1] && q[i + 1] == p[i + 1 + 1];
    }
  }

  // With a larger budget a resolved net stays resolved, unless the deeper walk
  // records a decline.
  lemma DeeperResolvesOrDeclines(v: View, bit: Bit, seen: set<int>, d: nat, d': nat)
    requires d <= d' && Trace(v, bit, seen, d).Some?
    ensures ResolvesOrDeclines(v, bit, seen, d')
  {
    var p := TraceIsRootPath(v, bit, seen, d);
    var r := Trace(v, bit, seen, d).value;
    assert RootPath(v, bit.id, seen, d', r, p);
    PathResolvesOrDeclines(v, bit.id, seen, d', r, p);
  }

  // Without a clock set nothing declines, so a deeper budget never resolves fewer nets.
  lemma {:induction false} NoIdentityNoDecline(v: View, bit: Bit, seen: set<int>, depth: nat)
    requires v.identity.None?
    ensures TraceRecorded(v, bit, seen, depth).declines == []
    decreases depth, 0
  {
    if bit.Net? && depth > 0 && bit.id !in seen && v.root(bit.id).None? {
      NoDeclineBehind(v, bit.id, v.step(bit.id), seen + {bit.id}, depth - 1);
    }
  }

  lemma {:induction false} NoDeclineBehind(v: View, b: int, step: Step, seen: set<int>, depth: nat)
    requires v.identity.None?
    ensures BehindRecorded(v, b, step, seen, depth).declines == []
    decreases depth, 2 + Width(step)
  {
    match step {
      case Through(a) => NoIdentityNoDecline(v, a, seen, depth);
      case Combine(legs) => NoDeclineInLegs(v, legs, seen, depth);
      case Select(legs, s) => NoDeclineInFirst(v, b, legs, s, seen, depth);
      case Dead =>
    }
  }

  lemma {:induction false} NoDeclineInLegs(v: View, legs: seq<Bit>, seen: set<int>, depth: nat)
    requires v.identity.None?
    ensures LegsRecorded(v, legs, seen, depth).declines == []
    decreases depth, 1 + |legs|
  {
    if legs != [] {
      NoIdentityNoDecline(v, legs[0], seen, depth);
      NoDeclineInLegs(v, legs[1..], seen, depth);
    }
  }

  lemma {:induction false} NoDeclineInFirst(v: View, b: int, legs: seq<Bit>, s: seq<Bit>, seen: set<int>, depth: nat)
    requires v.identity.None?
    ensures FirstRecorded(v, b, legs, s, seen, depth).declines == []
    decreases depth, 1 + |legs|
  {
    if legs != [] {
      NoIdentityNoDecline(v, legs[0], seen, depth);
      NoDeclineInFirst(v, b, legs[1..], s, seen, depth);
    }
  }

  // Without a clock set a net resolves exactly when a simple path of clock cells
  // within the budget joins it to a root.
  lemma ResolvesIffRootPath(v: View, b: int, seen: set<int>, depth: nat)
    requires v.identity.None?
    ensures Trace(v, Net(b), seen, depth).Some? <==> exists r, p :: RootPath(v, b, seen, depth, r, p)
  {
    if Trace(v, Net(b), seen, depth).Some? {
      var p := TraceIsRootPath(v, Net(b), seen, depth);
    }
    if r, p :| RootPath(v, b, seen, depth, r, p) {
      PathResolvesOrDeclines(v, b, seen, depth, r, p);
      NoIdentityNoDecline(v, Net(b), seen, depth);
    }
  }

  lemma DeeperResolvesWithoutIdentity(v: View, bit: Bit, seen: set<int>, d: nat, d': nat)
    requires v.identity.None? && d <= d'
    requires Trace(v, bit, seen, d).Some?
    ensures Trace(v, bit, seen, d').Some?
  {
    DeeperResolvesOrDeclines(v, bit, seen, d, d');
    NoIdentityNoDecline(v, bit, seen, d');
  }

  // --- exactly when a net resolves --------------------------------------

  // Net b is behind a gate or latch whose legs bring two declared clocks together.
  ghost predicate DeclinesAt(v: View, b: int, seen: set<int>, depth: nat) {
    depth > 0 && v.step(b).Combine? && Declines(LegRoots(v, v.step(b).legs, seen + {b}, depth - 1), v.identity)
  }

  // Some net of the path before its root is declined at, as the walk along it gets there.
  ghost predicate MeetsDecline(v: View, p: seq<int>, seen: set<int>, depth: nat)
    decreases |p|
  {
    |p| > 1 && depth > 0 && (DeclinesAt(v, p[0], seen, depth) || MeetsDecline(v, p[1..], seen + {p[0]}, depth - 1))
  }

  lemma {:induction false} CollectedLeg(v: View, legs: seq<Bit>, leg: Bit, seen: set<int>, depth: nat)
    requires leg in legs && Trace(v, leg, seen, depth).Some?
    ensures LegRoots(v, legs, seen, depth) != [] && FirstRoot(v, legs, seen, depth).Some?
    decreases legs
  {
    if leg != legs[0] {
      CollectedLeg(v, legs[1..], leg, seen, depth);
    }
  }

  // A step whose leg resolves does so too, unless it declines.
  lemma LegResolvesStep(v: View, b: int, leg: Bit, seen: set<int>, depth: nat)
    requires LeadsTo(v.step(b), leg) && Trace(v, leg, seen + {b}, depth).Some? && !DeclinesAt(v, b, seen, depth + 1)
    ensures Behind(v, v.step(b), seen + {b}, depth).Some?
  {
    match v.step(b) {
      case Through(a) =>
      case Combine(legs) =>
        CollectedLeg(v, legs, leg, seen + {b}, depth);
        PickResolvesIff(LegRoots(v, legs, seen + {b}, depth), v.identity);
      case Select(legs, s) => CollectedLeg(v, legs, leg, seen + {b}, depth);
    }
  }

  lemma {:induction false} OpenPathResolves(v: View, b: int, seen: set<int>, depth: nat, r: string, p: seq<int>)
    requires RootPath(v, b, seen, depth, r, p) && !MeetsDecline(v, p, seen, depth)
    ensures Trace(v, Net(b), seen, depth).Some?
    decreases depth
  {
    if |p| > 1 {
      assert ClockEdge(v, p[0], p[1]);
      RestIsRootPath(v, b, seen, depth, r, p);
      OpenPathResolves(v, p[1], seen + {b}, depth - 1, r, p[1..]);
      LegResolvesStep(v, b, Net(p[1]), seen, depth - 1);
    }
  }

  lemma NoDeclineBehindStep(v: View, b: int, seen: set<int>, depth: nat)
    requires depth > 0 && Behind(v, v.step(b), seen + {b}, depth - 1).Some?
    ensures !DeclinesAt(v, b, seen, depth)
  {
  }

  // For every netlist, clock set and budget: a net resolves exactly when some path
  // within the budget reaches a root without meeting a decline.
  lemma ResolvesIffOpenPath(v: View, b: int, seen: set<int>, depth: nat)
    ensures Trace(v, Net(b), seen, depth).Some? <==>
            exists r, p :: RootPath(v, b, seen, depth, r, p) && !MeetsDecline(v, p, seen, depth)
  {
    if Trace(v, Net(b), seen, depth).Some? {
      var p := TraceIsRootPath(v, Net(b), seen, depth);
    }
    if r, p :| RootPath(v, b, seen, depth, r, p) && !MeetsDecline(v, p, seen, depth) {
      OpenPathResolves(v, b, seen, depth, r, p);
    }
  }

  // A net resolved at one budget is lost at a larger one exactly when every path to
  // a root within the larger budget, of which there are some, meets a decline.
  lemma DeeperLosesIff(v: View, b: int, seen: set<int>, d: nat, d': nat)
    requires d <= d' && Trace(v, Net(b), seen, d).Some?
    ensures exists r, p :: RootPath(v, b, seen, d', r, p)
    ensures Trace(v, Net(b), seen, d').None? <==>
            forall r, p :: RootPath(v, b, seen, d', r, p) ==> MeetsDecline(v, p, seen, d')
  {
    var p := TraceIsRootPath(v, Net(b), seen, d);
    assert RootPath(v, b, seen, d', Trace(v, Net(b), seen, d).value, p);
    ResolvesIffOpenPath(v, b, seen, d');
  }

  // --- the documentation's claim fails ----------------------------------

  // gclk = ck1 & buf(ck2): two cells of budget see only ck1, three see both.
  const TWO_CLOCK_GATE := Module(
    [Port("ck1", Input, [Net(1)]), Port("ck2", Input, [Net(2)])],
    [Cell("b", "$buf", [Pin("A", [Net(2)]), Pin("Y", [Net(3)])]),
     Cell("g", "$and", [Pin("A", [Net(1)]), Pin("B", [Net(3)]), Pin("Y", [Net(4)])])])

  function TwoClockContext(): Context {
    Netlisted(TWO_CLOCK_GATE, map[3 := Driver(0, "Y"), 4 := Driver(1, "Y")], map[], true, Some((r: string) => Some(r)))
  }

  lemma TwoClockConns()
    ensures var b, g := TWO_CLOCK_GATE.cells[0], TWO_CLOCK_GATE.cells[1];
            && Conn(b, "A") == [Net(2)] && Conn(b, "Y") == [Net(3)] && Conn(b, "Q") == []
            && Conn(g, "A") == [Net(1)] && Conn(g, "B") == [Net(3)] && Conn(g, "Y") == [Net(4)] && Conn(g, "Q") == []
  {
    var b, g := TWO_CLOCK_GATE.cells[0], TWO_CLOCK_GATE.cells[1];
    assert ValidCell(b) && ValidCell(g);
    ConnIsPin(b, 0);
    ConnIsPin(b, 1);
    ConnIsPin(g, 0);
    ConnIsPin(g, 1);
    ConnIsPin(g, 2);
  }

  lemma TwoClockOutputs(d: Driver, b: int)
    requires Outputs(TWO_CLOCK_GATE, d, b)
    ensures (b == 3 && d == Driver(0, "Y")) || (b == 4 && d == Driver(1, "Y"))
  {
    TwoClockConns();
    assert d.cell == 0 || d.cell == 1;
  }

  lemma TwoClockDrivers()
    ensures IsDriverIndex(TWO_CLOCK_GATE, TwoClockContext().drivers)
  {
    var ds := TwoClockContext().drivers;
    assert Outputs(TWO_CLOCK_GATE, ds[3], 3) && Outputs(TWO_CLOCK_GATE, ds[4], 4) by {
      TwoClockConns();
    }
    forall b: int, d | Outputs(TWO_CLOCK_GATE, d, b)
      ensures b in ds && d == ds[b]
    {
      TwoClockOutputs(d, b);
    }
  }

  lemma TwoClockRoots()
    ensures RootAt(TwoClockContext(), 1) == Some("ck1") && RootAt(TwoClockContext(), 2) == Some("ck2")
    ensures RootAt(TwoClockContext(), 3) == None && RootAt(TwoClockContext(), 4) == None
  {
    var ports := TWO_CLOCK_GATE.ports;
    assert ports[1..] == [ports[1]];
    assert ports[1..][1..] == [];
    forall x: Bit ensures PortOfBit(ports[1..], x) == if x == Net(2) then Some(ports[1]) else None {
      assert PortOfBit(ports[1..][1..], x) == None;
    }
    forall x: Bit ensures PortOfBit(ports, x) == if x == Net(1) then Some(ports[0]) else PortOfBit(ports[1..], x) {
    }
  }

  lemma TwoClockSteps()
    ensures StepAt(TwoClockContext(), 3) == Through(Net(2))
    ensures StepAt(TwoClockContext(), 4) == Combine([Net(1), Net(3)])
  {
    TwoClockConns();
    var g := TWO_CLOCK_GATE.cells[1];
    assert ["A", "B"][1..] == ["B"] && ["B"][1..] == [];
    assert FirstBits(g, []) == [];
    assert FirstBits(g, ["B"]) == [Net(3)];
    assert FirstBits(g, ["A", "B"]) == [Net(1), Net(3)];
  }

  // The walk's view of that netlist.
  ghost predicate SeesTwoClockGate(v: View) {
    && v.root(1) == Some("ck1") && v.root(2) == Some("ck2") && v.root(3) == None && v.root(4) == None
    && v.step(3) == Through(Net(2)) && v.step(4) == Combine([Net(1), Net(3)])
  }

  // The buffered leg: out of reach of one cell of budget, within reach of two.
  lemma BufferedLeg(v: View)
    requires SeesTwoClockGate(v)
    ensures Trace(v, Net(3), {4}, 1) == None && Trace(v, Net(3), {4}, 2) == Some("ck2")
  {
    assert {4} + {3} == {4, 3};
    assert Trace(v, Net(2), {4, 3}, 1) == Some("ck2");
    assert Trace(v, Net(2), {4, 3}, 0) == None;
  }

  lemma TwoLegRoots(v: View, x: Bit, y: Bit, seen: set<int>, depth: nat)
    ensures LegRoots(v, [x, y], seen, depth) == Opt(Trace(v, x, seen, depth)) + Opt(Trace(v, y, seen, depth))
  {
    assert [x, y][1..] == [y] && [y][1..] == [];
    assert LegRoots(v, [y], seen, depth) == Opt(Trace(v, y, seen, depth)) + LegRoots(v, [], seen, depth);
  }

  // What the two legs of the gate resolve to with one and with two cells of budget.
  lemma TwoClockLegs(v: View)
    requires SeesTwoClockGate(v)
    ensures LegRoots(v, [Net(1), Net(3)], {4}, 1) == ["ck1"]
    ensures LegRoots(v, [Net(1), Net(3)], {4}, 2) == ["ck1", "ck2"]
  {
    BufferedLeg(v);
    TwoLegRoots(v, Net(1), Net(3), {4}, 1);
    TwoLegRoots(v, Net(1), Net(3), {4}, 2);
  }

  lemma BothClocksDecline(identity: string -> Option<string>)
    requires identity("ck1") == Some("ck1") && identity("ck2") == Some("ck2")
    ensures Pick(["ck1", "ck2"], Some(identity)) == None
  {
    var both := Declared(Distinct(["ck1", "ck2"]), identity);
    assert "ck1"[2] != "ck2"[2];
    CardinalityAtLeastTwo(both, "ck1", "ck2");
  }

  lemma GateTrace(v: View, b: int, legs: seq<Bit>, seen: set<int>, depth: nat)
    requires depth > 0 && b !in seen && v.root(b).None? && v.step(b) == Combine(legs)
    ensures Trace(v, Net(b), seen, depth) == Pick(LegRoots(v, legs, seen + {b}, depth - 1), v.identity)
  {
  }

  // The claim "a larger trace depth never resolves fewer flops" is false once clocks are declared.
  lemma DeeperBudgetCanLoseTheRoot()
    ensures IsDriverIndex(TWO_CLOCK_GATE, TwoClockContext().drivers)
    ensures Trace(ViewOf(TwoClockContext()), Net(4), {}, 2) == Some("ck1")
    ensures Trace(ViewOf(TwoClockContext()), Net(4), {}, 3) == None
  {
    var v := ViewOf(TwoClockContext());
    assert SeesTwoClockGate(v) by {
      TwoClockSteps();
      TwoClockRoots();
    }
    TwoClockDrivers();
    TwoClockLegs(v);
    assert {} + {4} == {4};
    GateTrace(v, 4, [Net(1), Net(3)], {}, 2);
    GateTrace(v, 4, [Net(1), Net(3)], {}, 3);
    OnlyRootPicked("ck1", v.identity.value);
    BothClocksDecline(v.identity.value);
  }

  lemma OnlyRootPicked(r: string, identity: string -> Option<string>)
    ensures Pick([r], Some(identity)) == Some(r)
  {
    CardinalityAtMostOne([r], identity);
    var distinct := Distinct([r]);
    assert forall x :: x in distinct ==> x == r;
  }

  lemma CardinalityAtLeastTwo(s: set<string>, a: string, b: string)
    requires a in s && b in s && a != b
    ensures |s| >= 2
  {
    assert |s| == |s - {a}| + 1 && b in s - {a};
    assert |s - {a}| > 0;
  }

  lemma CardinalityAtMostOne(roots: seq<string>, identity: string -> Option<string>)
    requires |roots| == 1
    ensures |Declared(Distinct(roots), identity)| <= 1
  {
    var r := roots[0];
    var s := Declared(Distinct(roots), identity);
    assert forall x :: x in Distinct(roots) ==> x == r;
    if identity(r).Some? {
      assert s == {identity(r).value} || s == {};
    } else {
      assert s == {};
    }
  }
}
