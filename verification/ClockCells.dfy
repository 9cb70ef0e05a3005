/**
 What each kind of clock cell passes on, told by its pins alone, and exactly which
 declines and steering inputs the recorders of a trace are given.
 */
module ClockCells {
  import opened Netlist
  import opened Drivers
  import opened ClockTrace

  type Identity = Option<string -> Option<string>>

  // --- the root behind one cell -----------------------------------------

  // What the first bit on a pin resolves to, coming from net b.
  ghost function PinRoot(c: Context, cell: Cell, pin: string, b: int, seen: set<int>, depth: nat): Option<string> {
    if Conn(cell, pin) == [] || depth == 0 then None
    else Trace(ViewOf(c), Conn(cell, pin)[0], seen + {b}, depth - 1)
  }

  // The pins one after the other.
  ghost function PinRoots(c: Context, cell: Cell, pins: seq<string>, b: int, seen: set<int>,
                          depth: nat): (r: seq<Option<string>>)
    ensures |r| == |pins| && forall i :: 0 <= i < |r| ==> r[i] == PinRoot(c, cell, pins[i], b, seen, depth)
  {
    if pins == [] then []
    else [PinRoot(c, cell, pins[0], b, seen, depth)] + PinRoots(c, cell, pins[1..], b, seen, depth)
  }

  ghost predicate IsDeclared(identity: Identity, root: Option<string>) {
    root.Some? && identity.Some? && identity.value(root.value).Some?
  }

  // Two legs bring different declared clocks.
  ghost predicate Mixes(identity: Identity, roots: seq<Option<string>>) {
    exists i, j :: 0 <= i < |roots| && 0 <= j < |roots| && IsDeclared(identity, roots[i]) &&
                   IsDeclared(identity, roots[j]) &&
                   identity.value(roots[i].value) != identity.value(roots[j].value)
  }

  // The first leg with a declared clock, or the first that resolves if none has one.
  ghost predicate IsPicked(identity: Identity, roots: seq<Option<string>>, i: nat) {
    && i < |roots| && roots[i].Some?
    && if exists k :: 0 <= k < |roots| && IsDeclared(identity, roots[k]) then
         IsDeclared(identity, roots[i]) && forall k :: 0 <= k < i ==> !IsDeclared(identity, roots[k])
       else forall k :: 0 <= k < i ==> roots[k].None?
  }

  ghost predicate CombinesTo(identity: Identity, roots: seq<Option<string>>, r: string) {
    !Mixes(identity, roots) && exists i: nat :: IsPicked(identity, roots, i) && roots[i] == Some(r)
  }

  // Dropping an undeclared root does not move the first declared one.
  lemma {:induction false} FirstDeclaredWithout(roots: seq<string>, x: string, identity: string -> Option<string>)
    requires identity(x).None?
    ensures FirstDeclared(Without(roots, x), identity) == FirstDeclared(roots, identity)
  {
    if roots != [] {
      FirstDeclaredWithout(roots[1..], x, identity);
      if roots[0] == x {
        assert Without(roots, x) == Without(roots[1..], x);
      } else {
        FirstDeclaredPut(roots[0], Without(roots[1..], x), identity);
      }
    }
  }

  lemma FirstDeclaredPut(x: string, rest: seq<string>, identity: string -> Option<string>)
    ensures FirstDeclared([x] + rest, identity) == if identity(x).Some? then Some(x) else FirstDeclared(rest, identity)
  {
    assert ([x] + rest)[1..] == rest;
  }

  lemma {:induction false} FirstDeclaredDistinct(roots: seq<string>, identity: string -> Option<string>)
    ensures FirstDeclared(Distinct(roots), identity) == FirstDeclared(roots, identity)
  {
    if roots != [] {
      var rest := Distinct(roots[1..]);
      FirstDeclaredPut(roots[0], Without(rest, roots[0]), identity);
      FirstDeclaredDistinct(roots[1..], identity);
      if identity(roots[0]).None? {
        FirstDeclaredWithout(rest, roots[0], identity);
      }
    }
  }

  lemma {:induction false} ResolvedRoots(roots: seq<Option<string>>)
    ensures forall x :: x in SomeRoots(roots) <==> Some(x) in roots
    ensures SomeRoots(roots) == [] <==> forall i :: 0 <= i < |roots| ==> roots[i].None?
  {
    if roots != [] {
      ResolvedRoots(roots[1..]);
      assert roots == [roots[0]] + roots[1..];
    }
  }

  // The first resolved leg.
  lemma {:induction false} FirstResolved(roots: seq<Option<string>>) returns (i: nat)
    requires SomeRoots(roots) != []
    ensures i < |roots| && roots[i] == Some(SomeRoots(roots)[0])
    ensures forall k :: 0 <= k < i ==> roots[k].None?
  {
    if roots[0].Some? {
      i := 0;
    } else {
      var j := FirstResolved(roots[1..]);
      i := j + 1;
    }
  }

  // The first leg with a declared clock.
  lemma {:induction false} FirstDeclaredLeg(roots: seq<Option<string>>, identity: string -> Option<string>)
    returns (i: nat)
    requires FirstDeclared(SomeRoots(roots), identity).Some?
    ensures i < |roots| && roots[i] == FirstDeclared(SomeRoots(roots), identity)
    ensures IsDeclared(Some(identity), roots[i])
    ensures forall k :: 0 <= k < i ==> !IsDeclared(Some(identity), roots[k])
  {
    if roots != [] && roots[0].Some? {
      FirstDeclaredPut(roots[0].value, SomeRoots(roots[1..]), identity);
    } else {
      assert SomeRoots(roots) == SomeRoots(roots[1..]);
    }
    if IsDeclared(Some(identity), roots[0]) {
      i := 0;
    } else {
      var j := FirstDeclaredLeg(roots[1..], identity);
      i := j + 1;
    }
  }

  lemma TwoOrMore(s: set<string>)
    ensures |s| >= 2 <==> exists x, y :: x in s && y in s && x != y
  {
    if |s| >= 2 {
      var x :| x in s;
      assert |s - {x}| >= 1;
      var y :| y in s - {x};
    }
    if x, y :| x in s && y in s && x != y {
      CardinalityAtLeastTwo(s, x, y);
    }
  }

  lemma MixedAreTwo(roots: seq<Option<string>>, identity: string -> Option<string>)
    requires Mixes(Some(identity), roots)
    ensures exists x, y ::
              x in Declared(Distinct(SomeRoots(roots)), identity) && y in Declared(Distinct(SomeRoots(roots)), identity)
              && x != y
  {
    var i, j :| 0 <= i < |roots| && 0 <= j < |roots| && IsDeclared(Some(identity), roots[i]) &&
               IsDeclared(Some(identity), roots[j]) && identity(roots[i].value) != identity(roots[j].value);
    ResolvedRoots(roots);
    var ids := Declared(Distinct(SomeRoots(roots)), identity);
    assert roots[i] in roots && roots[j] in roots;
    assert identity(roots[i].value).value in ids && identity(roots[j].value).value in ids;
  }

  // A leg that brings a declared clock.
  lemma LegOfClock(roots: seq<Option<string>>, identity: string -> Option<string>, x: string) returns (i: nat)
    requires x in Declared(Distinct(SomeRoots(roots)), identity)
    ensures i < |roots| && roots[i].Some? && identity(roots[i].value) == Some(x)
  {
    ResolvedRoots(roots);
    var r :| r in Distinct(SomeRoots(roots)) && identity(r) == Some(x);
    i :| 0 <= i < |roots| && roots[i] == Some(r);
  }

  lemma MixesIsDecline(roots: seq<Option<string>>, identity: Identity)
    ensures Mixes(identity, roots) <==> Declines(SomeRoots(roots), identity)
  {
    if identity.Some? {
      var ids := Declared(Distinct(SomeRoots(roots)), identity.value);
      TwoOrMore(ids);
      if Mixes(identity, roots) {
        MixedAreTwo(roots, identity.value);
      }
      if x, y :| x in ids && y in ids && x != y {
        var i := LegOfClock(roots, identity.value, x);
        var j := LegOfClock(roots, identity.value, y);
        assert IsDeclared(identity, roots[i]) && IsDeclared(identity, roots[j]);
      }
    }
  }

  lemma SamePick(identity: Identity, roots: seq<Option<string>>, i: nat, j: nat)
    requires IsPicked(identity, roots, i) && IsPicked(identity, roots, j)
    ensures i == j
  {
  }

  // What the combining rule returns for the legs of a gate or latch.
  lemma PickedLeg(roots: seq<Option<string>>, identity: Identity, r: string)
    ensures Pick(SomeRoots(roots), identity) == Some(r) <==> CombinesTo(identity, roots, r)
  {
    var some := SomeRoots(roots);
    MixesIsDecline(roots, identity);
    ResolvedRoots(roots);
    if some == [] {
      assert Distinct(some) == [];
      assert !exists i :: IsPicked(identity, roots, i);
    } else if !Mixes(identity, roots) {
      var i := PickIndex(roots, identity);
      forall j | IsPicked(identity, roots, j) ensures i == j {
        SamePick(identity, roots, i, j);
      }
    }
  }

  lemma PickIndex(roots: seq<Option<string>>, identity: Identity) returns (i: nat)
    requires SomeRoots(roots) != [] && !Mixes(identity, roots)
    ensures IsPicked(identity, roots, i) && roots[i] == Pick(SomeRoots(roots), identity)
  {
    var some := SomeRoots(roots);
    MixesIsDecline(roots, identity);
    ResolvedRoots(roots);
    if identity.Some? {
      FirstDeclaredDistinct(some, identity.value);
      if FirstDeclared(some, identity.value).Some? {
        i := FirstDeclaredLeg(roots, identity.value);
        return;
      }
      forall k | 0 <= k < |roots| ensures !IsDeclared(identity, roots[k]) {
        assert roots[k] in roots;
      }
    }
    i := FirstResolved(roots);
  }

  lemma LegRootsPut(v: View, leg: Bit, rest: seq<Bit>, seen: set<int>, depth: nat)
    ensures LegRoots(v, [leg] + rest, seen, depth) == Opt(Trace(v, leg, seen, depth)) + LegRoots(v, rest, seen, depth)
    ensures FirstRoot(v, [leg] + rest, seen, depth)
         == if Trace(v, leg, seen, depth).Some? then Trace(v, leg, seen, depth) else FirstRoot(v, rest, seen, depth)
  {
    assert ([leg] + rest)[1..] == rest;
  }

  // The legs the walk follows are the first bits on the pins.
  lemma {:induction false} LegsArePins(c: Context, cell: Cell, pins: seq<string>, b: int, seen: set<int>, depth: nat)
    requires depth > 0
    ensures LegRoots(ViewOf(c), FirstBits(cell, pins), seen + {b}, depth - 1)
         == SomeRoots(PinRoots(c, cell, pins, b, seen, depth))
  {
    if pins != [] {
      var v, first := ViewOf(c), Conn(cell, pins[0]);
      var rest, roots := FirstBits(cell, pins[1..]), PinRoots(c, cell, pins[1..], b, seen, depth);
      LegsArePins(c, cell, pins[1..], b, seen, depth);
      assert ([PinRoot(c, cell, pins[0], b, seen, depth)] + roots)[1..] == roots;
      if first != [] {
        LegRootsPut(v, first[0], rest, seen + {b}, depth - 1);
      } else {
        assert FirstBits(cell, pins) == rest;
      }
    }
  }

  // The first of the pins that resolves.
  ghost function FirstOf(roots: seq<Option<string>>): Option<string> {
    if roots == [] then None else if roots[0].Some? then roots[0] else FirstOf(roots[1..])
  }

  lemma {:induction false} FirstLegIsPin(c: Context, cell: Cell, pins: seq<string>, b: int, seen: set<int>, depth: nat)
    requires depth > 0
    ensures FirstRoot(ViewOf(c), FirstBits(cell, pins), seen + {b}, depth - 1)
         == FirstOf(PinRoots(c, cell, pins, b, seen, depth))
  {
    if pins != [] {
      var v, first := ViewOf(c), Conn(cell, pins[0]);
      var rest, roots := FirstBits(cell, pins[1..]), PinRoots(c, cell, pins[1..], b, seen, depth);
      FirstLegIsPin(c, cell, pins[1..], b, seen, depth);
      assert ([PinRoot(c, cell, pins[0], b, seen, depth)] + roots)[1..] == roots;
      if first != [] {
        LegRootsPut(v, first[0], rest, seen + {b}, depth - 1);
      } else {
        assert FirstBits(cell, pins) == rest;
      }
    }
  }

  // A mux passes on what A resolves to, else what B does.
  lemma MuxLegs(c: Context, cell: Cell, b: int, seen: set<int>, depth: nat)
    requires depth > 0
    ensures FirstRoot(ViewOf(c), FirstBits(cell, ["A", "B"]), seen + {b}, depth - 1)
         == if PinRoot(c, cell, "A", b, seen, depth).Some? then PinRoot(c, cell, "A", b, seen, depth)
            else PinRoot(c, cell, "B", b, seen, depth)
  {
    FirstLegIsPin(c, cell, ["A", "B"], b, seen, depth);
    var roots := PinRoots(c, cell, ["A", "B"], b, seen, depth);
    assert FirstOf(roots) == if roots[0].Some? then roots[0] else FirstOf(roots[1..]);
    assert FirstOf(roots[1..]) == if roots[1].Some? then roots[1] else FirstOf(roots[1..][1..]);
  }

  // r is what the cell driving net b passes on.
  ghost predicate PassesOn(c: Context, b: int, seen: set<int>, depth: nat, r: string)
    requires b in c.drivers
  {
    var cell, port := c.m.cells[c.drivers[b].cell], c.drivers[b].port;
    if cell.ctype in BUFFER_TYPES then PinRoot(c, cell, "A", b, seen, depth) == Some(r)
    else if cell.ctype in GATE_TYPES then CombinesTo(c.identity, PinRoots(c, cell, ["A", "B"], b, seen, depth), r)
    else if cell.ctype in MUX_TYPES then
      || PinRoot(c, cell, "A", b, seen, depth) == Some(r)
      || (PinRoot(c, cell, "A", b, seen, depth).None? && PinRoot(c, cell, "B", b, seen, depth) == Some(r))
    else if c.allowDivider && port == "Q" && IsFf(cell.ctype) then
      PinRoot(c, cell, if Conn(cell, "CLK") != [] then "CLK" else "C", b, seen, depth) == Some(r)
    else if c.allowDivider && port == "Q" && IsLatch(cell.ctype) then
      CombinesTo(c.identity, PinRoots(c, cell, ["D", "EN", "E"], b, seen, depth), r)
    else false
  }

  // Port k is the first with net b on it.
  ghost predicate IsPortOf(c: Context, b: int, k: nat) {
    k < |c.m.ports| && Net(b) in c.m.ports[k].bits && forall j :: 0 <= j < k ==> Net(b) !in c.m.ports[j].bits
  }

  ghost predicate OnInput(c: Context, b: int, name: string) {
    exists k: nat :: IsPortOf(c, b, k) && c.m.ports[k].direction == Input && c.m.ports[k].name == name
  }

  lemma {:induction false} PortOfNet(ports: seq<Port>, b: int) returns (k: nat)
    requires PortOfBit(ports, Net(b)).Some?
    ensures k < |ports| && Net(b) in ports[k].bits && forall j :: 0 <= j < k ==> Net(b) !in ports[j].bits
    ensures PortOfBit(ports, Net(b)) == Some(ports[k])
  {
    if Net(b) in ports[0].bits {
      k := 0;
    } else {
      var i := PortOfNet(ports[1..], b);
      k := i + 1;
    }
  }

  // A net is its own root when a generated clock is declared on it, or else an input port
  // brings it in.
  lemma RootOfNet(c: Context, b: int, r: string)
    ensures RootAt(c, b) == Some(r) <==>
            if b in c.bitToClock then r == c.bitToClock[b] else OnInput(c, b, r)
  {
    var port := PortOfBit(c.m.ports, Net(b));
    if port.Some? {
      var k := PortOfNet(c.m.ports, b);
      forall i | IsPortOf(c, b, i) ensures i == k {
      }
    }
  }

  lemma FlopNames(x: string)
    ensures x in FF_CELL_TYPES ==> |x| > 3 && x[1] != '_' && (x[1] == 'd' ==> x[2] != 'l')
    ensures x in GATE_LEVEL_FF_PREFIXES ==> |x| > 3 && x[1] == '_' && (x[2] == 'D' ==> x[3] != 'L')
  {
  }

  lemma LatchIsNoFlop(ctype: string)
    requires IsLatch(ctype)
    ensures !IsFf(ctype)
  {
    FlopNames(ctype);
    var coarse, gate := "$dlatch", "$_DLATCH_";
    assert coarse[1] == 'd' && coarse[2] == 'l';
    assert gate[1] == '_' && gate[2] == 'D' && gate[3] == 'L';
    forall p | p in GATE_LEVEL_FF_PREFIXES ensures !(p <= ctype) {
      FlopNames(p);
    }
  }

  // The step behind a driven net, told by the driving cell.
  lemma StepByCell(c: Context, b: int)
    requires b in c.drivers
    ensures var cell, port := c.m.cells[c.drivers[b].cell], c.drivers[b].port;
      StepAt(c, b) ==
        if cell.ctype in BUFFER_TYPES then (if Conn(cell, "A") != [] then Through(Conn(cell, "A")[0]) else Dead)
        else if cell.ctype in GATE_TYPES then Combine(FirstBits(cell, ["A", "B"]))
        else if cell.ctype in MUX_TYPES then Select(FirstBits(cell, ["A", "B"]), Conn(cell, "S"))
        else if c.allowDivider && port == "Q" && IsFf(cell.ctype) then
          (if Conn(cell, "CLK") != [] then Through(Conn(cell, "CLK")[0])
           else if Conn(cell, "C") != [] then Through(Conn(cell, "C")[0]) else Dead)
        else if c.allowDivider && port == "Q" && IsLatch(cell.ctype) then Combine(FirstBits(cell, ["D", "EN", "E"]))
        else Dead
  {
    var cell := c.m.cells[c.drivers[b].cell];
    if IsLatch(cell.ctype) {
      LatchIsNoFlop(cell.ctype);
    }
  }

  lemma CombineByPins(c: Context, cell: Cell, pins: seq<string>, b: int, seen: set<int>, depth: nat, r: string)
    requires depth > 0
    ensures Behind(ViewOf(c), Combine(FirstBits(cell, pins)), seen + {b}, depth - 1) == Some(r) <==>
            CombinesTo(c.identity, PinRoots(c, cell, pins, b, seen, depth), r)
  {
    LegsArePins(c, cell, pins, b, seen, depth);
    PickedLeg(PinRoots(c, cell, pins, b, seen, depth), c.identity, r);
  }

  // What is behind a driven net, told by the driving cell.
  lemma BehindByCell(c: Context, b: int, seen: set<int>, depth: nat, r: string)
    requires b in c.drivers && depth > 0
    ensures Behind(ViewOf(c), StepAt(c, b), seen + {b}, depth - 1) == Some(r) <==> PassesOn(c, b, seen, depth, r)
  {
    var cell := c.m.cells[c.drivers[b].cell];
    StepByCell(c, b);
    if cell.ctype in GATE_TYPES {
      CombineByPins(c, cell, ["A", "B"], b, seen, depth, r);
    } else if cell.ctype in MUX_TYPES {
      MuxLegs(c, cell, b, seen, depth);
    } else if IsLatch(cell.ctype) {
      LatchIsNoFlop(cell.ctype);
      CombineByPins(c, cell, ["D", "EN", "E"], b, seen, depth, r);
    }
  }

  // Which root a net gets, for every netlist, clock set and budget: its own, or what its
  // driver passes on from its pins.
  lemma ResolvesByCell(c: Context, b: int, seen: set<int>, depth: nat, r: string)
    ensures Trace(ViewOf(c), Net(b), seen, depth) == Some(r) <==>
            && depth > 0 && b !in seen
            && if b in c.bitToClock then r == c.bitToClock[b]
               else if exists name :: OnInput(c, b, name) then OnInput(c, b, r)
               else b in c.drivers && PassesOn(c, b, seen, depth, r)
  {
    RootOfNet(c, b, r);
    if depth > 0 && b !in seen {
      if RootAt(c, b).Some? {
        RootOfNet(c, b, RootAt(c, b).value);
      } else {
        forall name ensures !OnInput(c, b, name) {
          RootOfNet(c, b, name);
        }
        if b in c.drivers {
          BehindByCell(c, b, seen, depth, r);
        }
      }
    }
  }

  // --- what the recorders are told --------------------------------------

  datatype Event = Declined(decline: Decline) | Steered(control: Control)

  ghost predicate Told(t: Traced, e: Event) {
    match e
    case Declined(d) => d in t.declines
    case Steered(s) => s in t.controls
  }

  // The walk looks at this leg of the step: at every leg of a gate or latch, and at those
  // of a mux up to the first that resolves.
  ghost predicate LooksAt(v: View, step: Step, leg: Bit, seen: set<int>, depth: nat) {
    match step
    case Through(a) => leg == a
    case Combine(legs) => leg in legs
    case Select(legs, s) =>
      exists k :: 0 <= k < |legs| && legs[k] == leg &&
                  forall j :: 0 <= j < k ==> Trace(v, legs[j], seen, depth).None?
    case Dead => false
  }

  // The bits of the legs that do not carry r.
  ghost function NotCarrying(v: View, legs: seq<Bit>, seen: set<int>, depth: nat, r: string): seq<Bit> {
    if legs == [] then []
    else
      (if Trace(v, legs[0], seen, depth) == Some(r) then [] else [legs[0]])
      + NotCarrying(v, legs[1..], seen, depth, r)
  }

  ghost predicate BringsClock(v: View, legs: seq<Bit>, seen: set<int>, depth: nat, id: string) {
    exists leg :: leg in legs && Trace(v, leg, seen, depth).Some? && v.identity.Some? &&
                  v.identity.value(Trace(v, leg, seen, depth).value) == Some(id)
  }

  // Two clocks brought to the legs, and these are all of them.
  ghost predicate AllMeet(v: View, legs: seq<Bit>, seen: set<int>, depth: nat, clocks: set<string>) {
    && (exists x, y :: x in clocks && y in clocks && x != y)
    && forall id :: id in clocks <==> BringsClock(v, legs, seen, depth, id)
  }

  // What the cell behind net b itself says: a gate or latch that two declared clocks meet
  // at names both and all others it saw; one that resolves gives the legs without the
  // clock; a mux that resolves gives its select.
  ghost predicate Says(v: View, b: int, seen: set<int>, depth: nat, e: Event) {
    match v.step(b)
    case Combine(legs) =>
      (match e
       case Declined(d) =>
         d.cell == v.cell(b) && d.bit == b && AllMeet(v, legs, seen, depth, d.clocks)
       case Steered(s) =>
         var r := Behind(v, v.step(b), seen, depth);
         && r.Some? && s.bits != []
         && s == Control(v.cell(b), NotCarrying(v, legs, seen, depth, r.value)))
    case Select(legs, select) =>
      && Behind(v, v.step(b), seen, depth).Some? && select != []
      && e == Steered(Control(v.cell(b), select))
    case _ => false
  }

  // Along p the walk looks from leg to leg, and the cell behind the last net says e.
  ghost predicate SaidAlong(v: View, bit: Bit, seen: set<int>, depth: nat, p: seq<int>, e: Event)
    decreases |p|
  {
    && bit.Net? && depth > 0 && bit.id !in seen && v.root(bit.id).None?
    && p != [] && p[0] == bit.id
    && if |p| == 1 then Says(v, bit.id, seen + {bit.id}, depth - 1, e)
       else LooksAt(v, v.step(bit.id), Net(p[1]), seen + {bit.id}, depth - 1) &&
            SaidAlong(v, Net(p[1]), seen + {bit.id}, depth - 1, p[1..], e)
  }

  // Recorded on the trace from this bit.
  ghost predicate IsRecorded(v: View, bit: Bit, seen: set<int>, depth: nat, e: Event) {
    Told(TraceRecorded(v, bit, seen, depth), e)
  }

  ghost predicate IsSaid(v: View, bit: Bit, seen: set<int>, depth: nat, e: Event) {
    exists p :: SaidAlong(v, bit, seen, depth, p, e)
  }

  // Told on the way from net b by one of the legs.
  ghost predicate ToldByLeg(v: View, step: Step, seen: set<int>, depth: nat, e: Event) {
    exists leg :: LooksAt(v, step, leg, seen, depth) && IsRecorded(v, leg, seen, depth, e)
  }

  lemma OtherLegsPut(leg: Bit, legs: seq<Bit>, root: Option<string>, roots: seq<Option<string>>, r: string)
    requires |legs| == |roots|
    ensures OtherLegs([leg] + legs, [root] + roots, r)
         == (if root == Some(r) then [] else [leg]) + OtherLegs(legs, roots, r)
  {
    assert ([leg] + legs)[1..] == legs && ([root] + roots)[1..] == roots;
  }

  lemma {:induction false} OthersAreNotCarrying(v: View, legs: seq<Bit>, seen: set<int>, depth: nat, r: string)
    ensures OtherLegs(legs, LegsRecorded(v, legs, seen, depth).roots, r) == NotCarrying(v, legs, seen, depth, r)
  {
    if legs != [] {
      var rest, root := LegsRecorded(v, legs[1..], seen, depth).roots, Trace(v, legs[0], seen, depth);
      RecordersAreInert(v, legs[0], seen, depth);
      OthersAreNotCarrying(v, legs[1..], seen, depth, r);
      assert LegsRecorded(v, legs, seen, depth).roots == [root] + rest;
      OtherLegsPut(legs[0], legs[1..], root, rest, r);
      assert [legs[0]] + legs[1..] == legs;
    }
  }

  lemma {:induction false} LegsTell(v: View, legs: seq<Bit>, seen: set<int>, depth: nat, e: Event)
    ensures var l := LegsRecorded(v, legs, seen, depth);
      Told(Traced(None, l.declines, l.controls), e) <==>
      exists leg :: leg in legs && IsRecorded(v, leg, seen, depth, e)
  {
    if legs != [] {
      LegsTell(v, legs[1..], seen, depth, e);
      var l, rest := LegsRecorded(v, legs, seen, depth), LegsRecorded(v, legs[1..], seen, depth);
      var first := TraceRecorded(v, legs[0], seen, depth);
      assert l.declines == first.declines + rest.declines && l.controls == first.controls + rest.controls;
      assert Told(Traced(None, l.declines, l.controls), e) <==>
             IsRecorded(v, legs[0], seen, depth, e) || Told(Traced(None, rest.declines, rest.controls), e);
      assert forall leg :: leg in legs <==> leg == legs[0] || leg in legs[1..];
    }
  }

  lemma {:induction false} RootsOfLegs(v: View, legs: seq<Bit>, seen: set<int>, depth: nat, x: string)
    ensures x in LegRoots(v, legs, seen, depth) <==> exists leg :: leg in legs && Trace(v, leg, seen, depth) == Some(x)
    decreases legs
  {
    if legs != [] {
      RootsOfLegs(v, legs[1..], seen, depth, x);
      assert legs == [legs[0]] + legs[1..];
    }
  }

  lemma ClocksBrought(v: View, legs: seq<Bit>, seen: set<int>, depth: nat, id: string)
    requires v.identity.Some?
    ensures id in Declared(Distinct(LegRoots(v, legs, seen, depth)), v.identity.value) <==>
            BringsClock(v, legs, seen, depth, id)
  {
    forall x ensures x in LegRoots(v, legs, seen, depth) <==>
                     exists leg :: leg in legs && Trace(v, leg, seen, depth) == Some(x) {
      RootsOfLegs(v, legs, seen, depth, x);
    }
  }

  // The clocks brought to a gate, as a set.
  lemma ClocksMeeting(v: View, legs: seq<Bit>, seen: set<int>, depth: nat, clocks: set<string>)
    requires v.identity.Some?
    ensures clocks == Declared(Distinct(LegRoots(v, legs, seen, depth)), v.identity.value) <==>
            forall id :: id in clocks <==> BringsClock(v, legs, seen, depth, id)
  {
    var declared := Declared(Distinct(LegRoots(v, legs, seen, depth)), v.identity.value);
    forall id ensures id in declared <==> BringsClock(v, legs, seen, depth, id) {
      ClocksBrought(v, legs, seen, depth, id);
    }
    if forall id :: id in clocks <==> BringsClock(v, legs, seen, depth, id) {
      assert clocks == declared;
    }
  }

  lemma MeetingIsDecline(v: View, legs: seq<Bit>, seen: set<int>, depth: nat, clocks: set<string>)
    ensures AllMeet(v, legs, seen, depth, clocks) <==>
            && Declines(LegRoots(v, legs, seen, depth), v.identity)
            && clocks == Declared(Distinct(LegRoots(v, legs, seen, depth)), v.identity.value)
  {
    TwoOrMore(clocks);
    if v.identity.Some? {
      ClocksMeeting(v, legs, seen, depth, clocks);
    } else if x :| x in clocks {
      assert !BringsClock(v, legs, seen, depth, x);
    }
  }

  lemma GateDeclines(v: View, b: int, legs: seq<Bit>, seen: set<int>, depth: nat, d: Decline)
    requires v.step(b) == Combine(legs)
    ensures Says(v, b, seen, depth, Declined(d)) <==>
            && Declines(LegRoots(v, legs, seen, depth), v.identity)
            && d == Decline(v.cell(b), b, Declared(Distinct(LegRoots(v, legs, seen, depth)), v.identity.value))
  {
    MeetingIsDecline(v, legs, seen, depth, d.clocks);
  }

  lemma GateSteers(v: View, b: int, legs: seq<Bit>, seen: set<int>, depth: nat, s: Control)
    requires v.step(b) == Combine(legs)
    ensures Says(v, b, seen, depth, Steered(s)) <==>
            var roots := LegsRecorded(v, legs, seen, depth).roots;
            var picked := Pick(SomeRoots(roots), v.identity);
            && picked.Some? && OtherLegs(legs, roots, picked.value) != []
            && s == Control(v.cell(b), OtherLegs(legs, roots, picked.value))
  {
    LegsAreInert(v, legs, seen, depth);
    var r := Behind(v, v.step(b), seen, depth);
    if r.Some? {
      OthersAreNotCarrying(v, legs, seen, depth, r.value);
    }
  }

  lemma GateTells(v: View, b: int, legs: seq<Bit>, seen: set<int>, depth: nat, e: Event)
    requires v.step(b) == Combine(legs)
    ensures Told(BehindRecorded(v, b, Combine(legs), seen, depth), e) <==>
            Says(v, b, seen, depth, e) || ToldByLeg(v, Combine(legs), seen, depth, e)
  {
    var l := LegsRecorded(v, legs, seen, depth);
    LegsTell(v, legs, seen, depth, e);
    LegsAreInert(v, legs, seen, depth);
    var t := Combined(v, b, legs, l);
    assert ToldByLeg(v, Combine(legs), seen, depth, e) <==> Told(Traced(None, l.declines, l.controls), e);
    match e {
      case Declined(d) =>
        GateDeclines(v, b, legs, seen, depth, d);
        assert d in t.declines <==> d in l.declines || Says(v, b, seen, depth, e);
      case Steered(s) =>
        GateSteers(v, b, legs, seen, depth, s);
        assert s in t.controls <==> s in l.controls || Says(v, b, seen, depth, e);
    }
  }

  lemma {:induction false} MuxTells(v: View, b: int, legs: seq<Bit>, s: seq<Bit>, seen: set<int>, depth: nat, e: Event)
    ensures Told(FirstRecorded(v, b, legs, s, seen, depth), e) <==>
      || (FirstRoot(v, legs, seen, depth).Some? && s != [] && e == Steered(Control(v.cell(b), s)))
      || ToldByLeg(v, Select(legs, s), seen, depth, e)
    decreases legs
  {
    if legs != [] {
      RecordersAreInert(v, legs[0], seen, depth);
      var first := Trace(v, legs[0], seen, depth);
      forall leg ensures LooksAt(v, Select(legs, s), leg, seen, depth) <==>
                         leg == legs[0] || (first.None? && LooksAt(v, Select(legs[1..], s), leg, seen, depth)) {
        MuxLooksOn(v, legs, s, leg, seen, depth);
      }
      assert IsRecorded(v, legs[0], seen, depth, e) <==> Told(TraceRecorded(v, legs[0], seen, depth), e);
      if first.None? {
        MuxTells(v, b, legs[1..], s, seen, depth, e);
        assert Told(FirstRecorded(v, b, legs, s, seen, depth), e) <==>
               IsRecorded(v, legs[0], seen, depth, e) || Told(FirstRecorded(v, b, legs[1..], s, seen, depth), e);
      }
    }
  }

  lemma MuxLooksOn(v: View, legs: seq<Bit>, s: seq<Bit>, leg: Bit, seen: set<int>, depth: nat)
    requires legs != []
    ensures LooksAt(v, Select(legs, s), leg, seen, depth) <==>
      leg == legs[0] ||
      (Trace(v, legs[0], seen, depth).None? && LooksAt(v, Select(legs[1..], s), leg, seen, depth))
  {
    LooksOn(x => Trace(v, x, seen, depth).None?, legs, leg);
  }

  // The first of a list that a search stopping at the first hit comes to.
  lemma LooksOn(misses: Bit -> bool, legs: seq<Bit>, leg: Bit)
    requires legs != []
    ensures (exists k :: 0 <= k < |legs| && legs[k] == leg && forall j :: 0 <= j < k ==> misses(legs[j])) <==>
      leg == legs[0] ||
      (misses(legs[0]) &&
       exists k :: 0 <= k < |legs[1..]| && legs[1..][k] == leg && forall j :: 0 <= j < k ==> misses(legs[1..][j]))
  {
    var rest := legs[1..];
    if k :| 0 <= k < |legs| && legs[k] == leg && forall j :: 0 <= j < k ==> misses(legs[j]) {
      if k > 0 {
        assert rest[k - 1] == leg && forall j :: 0 <= j < k - 1 ==> rest[j] == legs[j + 1];
      }
    }
    if misses(legs[0]) {
      if k :| 0 <= k < |rest| && rest[k] == leg && forall j :: 0 <= j < k ==> misses(rest[j]) {
        assert legs[k + 1] == leg;
        forall j | 0 <= j < k + 1 ensures misses(legs[j]) {
          assert j > 0 ==> legs[j] == rest[j - 1];
        }
      }
    }
  }

  // One cell: what it says itself, or what it is told by the legs it looks at.
  lemma StepTells(v: View, b: int, seen: set<int>, depth: nat, e: Event)
    ensures Told(BehindRecorded(v, b, v.step(b), seen, depth), e) <==>
            Says(v, b, seen, depth, e) || ToldByLeg(v, v.step(b), seen, depth, e)
  {
    match v.step(b) {
      case Combine(legs) => GateTells(v, b, legs, seen, depth, e);
      case Select(legs, s) => MuxTells(v, b, legs, s, seen, depth, e);
      case Through(a) =>
        assert LooksAt(v, v.step(b), a, seen, depth);
      case Dead =>
    }
  }

  lemma {:induction false} ToldIsSaid(v: View, bit: Bit, seen: set<int>, depth: nat, e: Event) returns (p: seq<int>)
    requires IsRecorded(v, bit, seen, depth, e)
    ensures SaidAlong(v, bit, seen, depth, p, e)
    decreases depth
  {
    var b := bit.id;
    StepTells(v, b, seen + {b}, depth - 1, e);
    if Says(v, b, seen + {b}, depth - 1, e) {
      p := [b];
    } else {
      var leg :| LooksAt(v, v.step(b), leg, seen + {b}, depth - 1) &&
                 IsRecorded(v, leg, seen + {b}, depth - 1, e);
      var q := ToldIsSaid(v, leg, seen + {b}, depth - 1, e);
      p := [b] + q;
      assert p[1..] == q;
    }
  }

  // The cell behind a net that is no root tells what its step does.
  lemma NetTells(v: View, b: int, seen: set<int>, depth: nat, e: Event)
    requires depth > 0 && b !in seen && v.root(b).None?
    ensures IsRecorded(v, Net(b), seen, depth, e) <==>
            Says(v, b, seen + {b}, depth - 1, e) || ToldByLeg(v, v.step(b), seen + {b}, depth - 1, e)
  {
    StepTells(v, b, seen + {b}, depth - 1, e);
  }

  lemma {:induction false} SaidIsTold(v: View, b: int, seen: set<int>, depth: nat, p: seq<int>, e: Event)
    requires SaidAlong(v, Net(b), seen, depth, p, e)
    ensures IsRecorded(v, Net(b), seen, depth, e)
    decreases depth
  {
    NetTells(v, b, seen, depth, e);
    if |p| > 1 {
      SaidIsTold(v, p[1], seen + {b}, depth - 1, p[1..], e);
    }
  }

  // A decline or a steering input is recorded exactly when some cell the walk comes to says so.
  lemma RecordedIffSaid(v: View, bit: Bit, seen: set<int>, depth: nat, e: Event)
    ensures IsRecorded(v, bit, seen, depth, e) <==> IsSaid(v, bit, seen, depth, e)
  {
    if IsRecorded(v, bit, seen, depth, e) {
      var p := ToldIsSaid(v, bit, seen, depth, e);
      assert SaidAlong(v, bit, seen, depth, p, e);
    }
    forall p | SaidAlong(v, bit, seen, depth, p, e) ensures IsRecorded(v, bit, seen, depth, e) {
      SaidIsTold(v, bit.id, seen, depth, p, e);
    }
  }

  // --- what one cell records, told by its pins --------------------------

  lemma ResolvedStep(c: Context, b: int, seen: set<int>, depth: nat)
    requires Trace(ViewOf(c), Net(b), seen, depth).Some? && RootAt(c, b).None?
    ensures b in c.drivers && depth > 0 && b !in seen
    ensures Behind(ViewOf(c), StepAt(c, b), seen + {b}, depth - 1) == Trace(ViewOf(c), Net(b), seen, depth)
  {
  }

  // A clock mux that resolves has its select recorded, under its own name.
  lemma MuxSelectIsRecorded(c: Context, b: int, seen: set<int>, depth: nat)
    requires Trace(ViewOf(c), Net(b), seen, depth).Some? && RootAt(c, b).None?
    requires b in c.drivers && c.m.cells[c.drivers[b].cell].ctype in MUX_TYPES
    requires Conn(c.m.cells[c.drivers[b].cell], "S") != []
    ensures Control(c.drivers[b].cell, Conn(c.m.cells[c.drivers[b].cell], "S"))
         in TraceRecorded(ViewOf(c), Net(b), seen, depth).controls
  {
    var v, cell := ViewOf(c), c.m.cells[c.drivers[b].cell];
    ResolvedStep(c, b, seen, depth);
    MuxStep(c, b);
    SelectIsTold(v, b, seen, depth, FirstBits(cell, ["A", "B"]), Conn(cell, "S"));
  }

  lemma MuxStep(c: Context, b: int)
    requires b in c.drivers && c.m.cells[c.drivers[b].cell].ctype in MUX_TYPES
    ensures var cell := c.m.cells[c.drivers[b].cell];
      StepAt(c, b) == Select(FirstBits(cell, ["A", "B"]), Conn(cell, "S"))
  {
    StepByCell(c, b);
  }

  lemma SelectIsTold(v: View, b: int, seen: set<int>, depth: nat, legs: seq<Bit>, select: seq<Bit>)
    requires depth > 0 && b !in seen && v.root(b).None? && v.step(b) == Select(legs, select) && select != []
    requires Behind(v, v.step(b), seen + {b}, depth - 1).Some?
    ensures Control(v.cell(b), select) in TraceRecorded(v, Net(b), seen, depth).controls
  {
    NetTells(v, b, seen, depth, Steered(Control(v.cell(b), select)));
  }

  lemma {:induction false} NotCarryingPin(c: Context, cell: Cell, pins: seq<string>, pin: string, b: int,
                                          seen: set<int>, depth: nat, r: string)
    requires depth > 0 && pin in pins && Conn(cell, pin) != []
    requires PinRoot(c, cell, pin, b, seen, depth) != Some(r)
    ensures Conn(cell, pin)[0] in NotCarrying(ViewOf(c), FirstBits(cell, pins), seen + {b}, depth - 1, r)
    decreases pins
  {
    var v, first, rest := ViewOf(c), Conn(cell, pins[0]), FirstBits(cell, pins[1..]);
    if first != [] {
      assert FirstBits(cell, pins)[1..] == rest;
    } else {
      assert FirstBits(cell, pins) == rest;
    }
    if pin != pins[0] {
      NotCarryingPin(c, cell, pins[1..], pin, b, seen, depth, r);
    }
  }

  // A gate or latch on the clock path that resolves has every pin recorded that does not
  // carry the clock it resolves to.
  lemma GateEnableIsRecorded(c: Context, b: int, seen: set<int>, depth: nat, pin: string)
    requires Trace(ViewOf(c), Net(b), seen, depth).Some? && RootAt(c, b).None? && b in c.drivers && depth > 0
    requires var cell := c.m.cells[c.drivers[b].cell];
             && ((cell.ctype in GATE_TYPES && pin in ["A", "B"]) ||
                 (cell.ctype !in GATE_TYPES && StepAt(c, b).Combine? && pin in ["D", "EN", "E"]))
             && Conn(cell, pin) != []
             && PinRoot(c, cell, pin, b, seen, depth) != Trace(ViewOf(c), Net(b), seen, depth)
    ensures exists s :: s in TraceRecorded(ViewOf(c), Net(b), seen, depth).controls &&
              s.cell == c.drivers[b].cell && Conn(c.m.cells[c.drivers[b].cell], pin)[0] in s.bits
  {
    var v, cell := ViewOf(c), c.m.cells[c.drivers[b].cell];
    var r := Trace(v, Net(b), seen, depth).value;
    ResolvedStep(c, b, seen, depth);
    StepByCell(c, b);
    var legs := StepAt(c, b).legs;
    NotCarryingPin(c, cell, if cell.ctype in GATE_TYPES then ["A", "B"] else ["D", "EN", "E"], pin, b, seen, depth, r);
    var s := Control(c.drivers[b].cell, NotCarrying(v, legs, seen + {b}, depth - 1, r));
    NetTells(v, b, seen, depth, Steered(s));
    assert Told(TraceRecorded(v, Net(b), seen, depth), Steered(s));
  }
}
