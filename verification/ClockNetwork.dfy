/**
 The cells between clock sources and flop clock pins.  The rule pack collects
 them in one walk from every clock pin that expands a cell once; the inverse map
 walks back from each flop on its own.  The first is the key set of the second.
 */
module ClockNetwork {
  import opened Netlist
  import opened Graph
  import opened Drivers
  import Fanin

  const OUTPUT_PINS: set<string> := { "Y", "Q" }

  predicate Feeds(c: Cell, b: int) {
    exists p :: 0 <= p < |c.pins| && c.pins[p].port !in OUTPUT_PINS && Net(b) in c.pins[p].bits
  }

  ghost predicate ValidDrivers(m: Module, drivers: map<int, Driver>) {
    forall b :: b in drivers ==> drivers[b].cell < |m.cells|
  }

  ghost predicate Back(m: Module, drivers: map<int, Driver>, b: int, a: int) {
    b in drivers && drivers[b].cell < |m.cells| && Feeds(m.cells[drivers[b].cell], a)
  }

  // From a net to the nets its driver reads.
  ghost function BackEdges(m: Module, drivers: map<int, Driver>): Edges {
    iset e: (int, int) | Back(m, drivers, e.0, e.1)
  }

  // One step back through a driver other than a register is one step of the bounded fan-in
  // walks: the clock network only goes on through registers as well.
  lemma StepsBeyondFanin(m: Module, drivers: map<int, Driver>, b: int, a: int)
    requires ValidDrivers(m, drivers)
    ensures (b, a) in BackEdges(m, drivers) && drivers[b].port != "Q" <==> (b, a) in Fanin.BackwardEdges(m, drivers)
  {
  }

  // The clock net of a flop is the one bit on `CLK`, or on `C` without it.
  lemma ClockNetIff(m: Module, f: nat, b: int)
    requires f < |m.cells|
    ensures ClockedFlop(m, f) && ClockNet(m, f) == b <==>
            && IsFf(m.cells[f].ctype)
            && (Conn(m.cells[f], "CLK") == [Net(b)] ||
                (Conn(m.cells[f], "CLK") == [] && Conn(m.cells[f], "C") == [Net(b)]))
  {
  }

  ghost predicate ReachedBack(e: Edges, seeds: iset<int>, b: int) {
    exists n: nat :: b in Ball(e, seeds, n)
  }

  // The cell drives some net of the backward closure.
  ghost predicate InCone(m: Module, drivers: map<int, Driver>, seeds: iset<int>, i: nat) {
    exists b :: ReachedBack(BackEdges(m, drivers), seeds, b) && b in drivers && drivers[b].cell == i
  }

  // ---- one walk ---------------------------------------------------------

  ghost predicate Known(seen: set<int>, pending: seq<int>, b: int) {
    b in seen || b in pending
  }

  // Whatever the cell reads is known.
  ghost predicate Expanded(m: Module, seen: set<int>, pending: seq<int>, i: nat) {
    i < |m.cells| && forall b :: Feeds(m.cells[i], b) ==> Known(seen, pending, b)
  }

  ghost predicate WalkState(m: Module, drivers: map<int, Driver>, cells: set<nat>, seen: set<int>, pending: seq<int>) {
    && (forall b :: b in seen && b in drivers ==> drivers[b].cell in cells)
    && (forall i {:trigger i in cells} :: i in cells ==> exists b :: b in seen && b in drivers && drivers[b].cell == i)
    && (forall i {:trigger Expanded(m, seen, pending, i)} :: i in cells ==> Expanded(m, seen, pending, i))
  }

  // The walk stays within the closure and finite, and starts at the seeds.
  ghost predicate Bounded(e: Edges, seeds: iset<int>, all: set<int>, seen: set<int>, pending: seq<int>) {
    && (forall b :: b in seeds ==> Known(seen, pending, b))
    && (forall b :: Known(seen, pending, b) ==> b in all && ReachedBack(e, seeds, b))
  }

  method PushInputs(c: Cell, nxt: seq<int>) returns (r: seq<int>)
    ensures forall b :: b in r <==> b in nxt || Feeds(c, b)
  {
    r := nxt;
    for p := 0 to |c.pins|
      invariant forall b :: b in r <==>
          b in nxt || exists q :: 0 <= q < p && c.pins[q].port !in OUTPUT_PINS && Net(b) in c.pins[q].bits
    {
      if c.pins[p].port in OUTPUT_PINS {
        continue;
      }
      var bits := c.pins[p].bits;
      ghost var before := r;
      for k := 0 to |bits|
        invariant forall b :: b in r <==> b in before || Net(b) in bits[..k]
      {
        assert bits[..k + 1] == bits[..k] + [bits[k]];
        if bits[k].Net? {
          r := r + [bits[k].id];
        }
      }
      assert bits[..|bits|] == bits;
    }
  }

  lemma ReachStep(m: Module, drivers: map<int, Driver>, seeds: iset<int>, b: int, a: int)
    requires ReachedBack(BackEdges(m, drivers), seeds, b) && Back(m, drivers, b, a)
    ensures ReachedBack(BackEdges(m, drivers), seeds, a)
  {
    var e := BackEdges(m, drivers);
    var n: nat :| b in Ball(e, seeds, n);
    BallStep(e, seeds, n, b, a);
    assert a in Ball(e, seeds, n + 1);
  }

  ghost predicate HoldsInputs(m: Module, all: set<int>) {
    forall i, b :: 0 <= i < |m.cells| && Feeds(m.cells[i], b) ==> b in all
  }

  // Take one net off the frontier.
  method VisitNet(m: Module, drivers: map<int, Driver>, once: bool, b: int, cells: set<nat>, seen: set<int>,
                  ghost rest: seq<int>, nxt: seq<int>, ghost e: Edges, ghost seeds: iset<int>, ghost all: set<int>)
    returns (cells': set<nat>, seen': set<int>, nxt': seq<int>)
    requires ValidDrivers(m, drivers) && e == BackEdges(m, drivers) && HoldsInputs(m, all)
    requires WalkState(m, drivers, cells, seen, [b] + rest + nxt) && Bounded(e, seeds, all, seen, [b] + rest + nxt)
    ensures WalkState(m, drivers, cells', seen', rest + nxt') && Bounded(e, seeds, all, seen', rest + nxt')
    ensures seen' == seen + {b}
    ensures b in seen ==> nxt' == nxt
  {
    cells', seen', nxt' := cells, seen + {b}, nxt;
    if b in seen {
      SameKnown(m, drivers, cells, seen, seen', [b] + rest + nxt, rest + nxt);
      return;
    }
    if b !in drivers {
      SameKnown(m, drivers, cells, seen, seen', [b] + rest + nxt, rest + nxt);
      return;
    }
    var i := drivers[b].cell;
    if once && i in cells {
      SameKnown(m, drivers, cells, seen, seen', [b] + rest + nxt, rest + nxt);
      return;
    }
    cells' := cells + {i};
    nxt' := PushInputs(m.cells[i], nxt);
    CellExpanded(m, drivers, cells, seen, b, [b] + rest + nxt, rest + nxt');
    assert Known(seen, [b] + rest + nxt, b);
    forall a | Known(seen', rest + nxt', a)
      ensures a in all && ReachedBack(e, seeds, a)
    {
      if Known(seen, [b] + rest + nxt, a) {
      } else {
        assert Back(m, drivers, b, a);
        ReachStep(m, drivers, seeds, b, a);
      }
    }
    forall a | Known(seen, [b] + rest + nxt, a)
      ensures Known(seen', rest + nxt', a)
    {
    }
  }

  // Moving a net from the frontier to the seen ones, when its driver is in.
  lemma SameKnown(m: Module, drivers: map<int, Driver>, cells: set<nat>, seen: set<int>, seen': set<int>,
                  pending: seq<int>, pending': seq<int>)
    requires WalkState(m, drivers, cells, seen, pending)
    requires pending != [] && pending[1..] == pending' && seen' == seen + {pending[0]}
    requires pending[0] in drivers ==> drivers[pending[0]].cell in cells
    ensures WalkState(m, drivers, cells, seen', pending')
    ensures forall b :: Known(seen, pending, b) <==> Known(seen', pending', b)
  {
    assert pending == [pending[0]] + pending';
    forall i | i in cells
      ensures Expanded(m, seen', pending', i)
    {
      assert Expanded(m, seen, pending, i);
    }
  }

  lemma CellExpanded(m: Module, drivers: map<int, Driver>, cells: set<nat>, seen: set<int>, b: int, pending: seq<int>,
                     pending': seq<int>)
    requires ValidDrivers(m, drivers) && b in drivers && WalkState(m, drivers, cells, seen, pending)
    requires forall a :: Known(seen, pending, a) ==> Known(seen + {b}, pending', a)
    requires forall a :: Feeds(m.cells[drivers[b].cell], a) ==> a in pending'
    ensures WalkState(m, drivers, cells + {drivers[b].cell}, seen + {b}, pending')
  {
    forall i | i in cells + {drivers[b].cell}
      ensures Expanded(m, seen + {b}, pending', i)
    {
      if i in cells {
        assert Expanded(m, seen, pending, i);
      }
    }
  }

  // All nets reachable from the seeds, expanding each cell once or every time.
  method BackwardCone(m: Module, drivers: map<int, Driver>, start: seq<int>, once: bool) returns (cells: set<nat>)
    requires ValidDrivers(m, drivers)
    ensures forall i: nat :: i in cells <==> InCone(m, drivers, Seeds(start), i)
  {
    ghost var e, seeds := BackEdges(m, drivers), Seeds(start);
    ghost var all := Universe(m, start);
    UniverseHolds(m, start);
    cells := {};
    var seen: set<int>, frontier := {}, start;
    forall b | b in start
      ensures ReachedBack(e, seeds, b)
    {
      assert b in Ball(e, seeds, 0);
    }
    while frontier != []
      invariant WalkState(m, drivers, cells, seen, frontier) && Bounded(e, seeds, all, seen, frontier)
      decreases all - seen, |frontier|
    {
      ghost var before := seen;
      cells, seen, frontier := VisitFrontier(m, drivers, once, cells, seen, frontier, e, seeds, all);
      if seen != before {
        GrowthShrinksRest(before, seen, all);
      }
    }
    ConeIsClosed(m, drivers, seeds, all, cells, seen);
  }

  lemma GrowthShrinksRest(before: set<int>, seen: set<int>, all: set<int>)
    requires before <= seen <= all && seen != before
    ensures all - seen < all - before
  {
  }

  method VisitFrontier(m: Module, drivers: map<int, Driver>, once: bool, cells: set<nat>, seen: set<int>,
                       frontier: seq<int>, ghost e: Edges, ghost seeds: iset<int>, ghost all: set<int>)
    returns (cells': set<nat>, seen': set<int>, nxt: seq<int>)
    requires ValidDrivers(m, drivers) && e == BackEdges(m, drivers) && HoldsInputs(m, all)
    requires WalkState(m, drivers, cells, seen, frontier) && Bounded(e, seeds, all, seen, frontier)
    ensures WalkState(m, drivers, cells', seen', nxt) && Bounded(e, seeds, all, seen', nxt)
    ensures seen <= seen' && seen' <= all
    ensures seen' == seen ==> nxt == []
  {
    cells', seen', nxt := cells, seen, [];
    assert frontier[0..] + [] == frontier;
    for k := 0 to |frontier|
      invariant WalkState(m, drivers, cells', seen', frontier[k..] + nxt) &&
          Bounded(e, seeds, all, seen', frontier[k..] + nxt)
      invariant seen <= seen' && (seen' == seen ==> nxt == [])
    {
      ghost var rest := frontier[k + 1..];
      assert frontier[k..] + nxt == [frontier[k]] + rest + nxt;
      cells', seen', nxt := VisitNet(m, drivers, once, frontier[k], cells', seen', rest, nxt, e, seeds, all);
    }
    assert frontier[|frontier|..] + nxt == nxt;
    forall b | b in seen'
      ensures b in all
    {
      assert Known(seen', nxt, b);
    }
  }

  ghost function Seeds(start: seq<int>): iset<int> {
    iset b | b in start
  }

  ghost function InputNets(c: Cell): (r: set<int>)
    ensures forall b :: Feeds(c, b) ==> b in r
  {
    set p, k | 0 <= p < |c.pins| && 0 <= k < |c.pins[p].bits| && c.pins[p].bits[k].Net? :: c.pins[p].bits[k].id
  }

  ghost function Universe(m: Module, start: seq<int>): set<int> {
    (set b | b in start) + set i, b | 0 <= i < |m.cells| && b in InputNets(m.cells[i]) :: b
  }

  lemma UniverseHolds(m: Module, start: seq<int>)
    ensures HoldsInputs(m, Universe(m, start))
  {
    forall i, b | 0 <= i < |m.cells| && Feeds(m.cells[i], b)
      ensures b in Universe(m, start)
    {
      assert b in InputNets(m.cells[i]);
    }
  }

  lemma ConeIsClosed(m: Module, drivers: map<int, Driver>, seeds: iset<int>, all: set<int>, cells: set<nat>,
                     seen: set<int>)
    requires ValidDrivers(m, drivers) && WalkState(m, drivers, cells, seen, [])
    requires Bounded(BackEdges(m, drivers), seeds, all, seen, [])
    ensures forall i: nat :: i in cells <==> InCone(m, drivers, seeds, i)
  {
    var e := BackEdges(m, drivers);
    var bound := iset b | b in seen;
    forall a, t | a in bound && (a, t) in e
      ensures t in bound
    {
      assert Back(m, drivers, a, t);
      assert Expanded(m, seen, [], drivers[a].cell);
      assert Known(seen, [], t);
    }
    forall b
      ensures b in seen <==> ReachedBack(e, seeds, b)
    {
      assert b in seen ==> Known(seen, [], b);
      if ReachedBack(e, seeds, b) {
        var n: nat :| b in Ball(e, seeds, n);
        forall x | x in seeds
          ensures x in bound
        {
          assert Known(seen, [], x);
        }
        ClosedSetBounds(e, seeds, bound, n);
      }
    }
    forall i: nat
      ensures i in cells <==> InCone(m, drivers, seeds, i)
    {
    }
  }

  // ---- the two operations -----------------------------------------------

  // A flop whose clock pin is a net.
  predicate ClockedFlop(m: Module, f: nat) {
    f < |m.cells| && FlopOf(m.cells[f]).Some? && FlopOf(m.cells[f]).value.clk.Net?
  }

  function ClockNet(m: Module, f: nat): int
    requires ClockedFlop(m, f)
  {
    FlopOf(m.cells[f]).value.clk.id
  }

  // The cell drives, through any number of cells, the clock pin of the flop.
  ghost predicate ClocksFlop(m: Module, drivers: map<int, Driver>, i: nat, f: nat) {
    ClockedFlop(m, f) && InCone(m, drivers, iset{ClockNet(m, f)}, i)
  }

  method ClockNetworkCells(m: Module, drivers: map<int, Driver>) returns (cells: set<nat>)
    requires ValidDrivers(m, drivers)
    ensures forall i: nat :: i in cells <==> exists f: nat :: ClocksFlop(m, drivers, i, f)
  {
    var frontier: seq<int> := [];
    for f := 0 to |m.cells|
      invariant forall b :: b in frontier <==> exists g: nat :: g < f && ClockedFlop(m, g) && ClockNet(m, g) == b
    {
      if ClockedFlop(m, f) {
        frontier := frontier + [ClockNet(m, f)];
      }
    }
    cells := BackwardCone(m, drivers, frontier, true);
    forall i: nat
      ensures i in cells <==> exists f: nat :: ClocksFlop(m, drivers, i, f)
    {
      ConeOfAllClocks(m, drivers, frontier, i);
    }
  }

  type Relation = iset<(nat, nat)>

  ghost function Clocks(m: Module, drivers: map<int, Driver>): Relation {
    iset p: (nat, nat) | ClocksFlop(m, drivers, p.0, p.1)
  }

  // The map holds the flops below f, under the cells related to them.
  ghost predicate ListsFlopsBelow(rel: Relation, out: map<nat, set<nat>>, f: nat) {
    && (forall i: nat {:trigger out[i]} :: i in out ==> out[i] != {})
    && (forall i: nat, g: nat :: Listed(out, i, g) <==> g < f && (i, g) in rel)
  }

  predicate Listed(out: map<nat, set<nat>>, i: nat, g: nat) {
    i in out && g in out[i]
  }

  function AddFlop(out: map<nat, set<nat>>, cells: set<nat>, f: nat): map<nat, set<nat>> {
    map i | i in out.Keys + cells :: (if i in out then out[i] else {}) + (if i in cells then {f} else {})
  }

  lemma AddFlopLists(rel: Relation, out: map<nat, set<nat>>, cells: set<nat>, f: nat)
    requires ListsFlopsBelow(rel, out, f)
    requires forall i: nat :: i in cells <==> (i, f) in rel
    ensures ListsFlopsBelow(rel, AddFlop(out, cells, f), f + 1)
  {
    var after := AddFlop(out, cells, f);
    forall i: nat, g: nat
      ensures Listed(after, i, g) <==> g < f + 1 && (i, g) in rel
    {
      assert Listed(after, i, g) <==> Listed(out, i, g) || (i in cells && g == f);
    }
    forall i: nat | i in after
      ensures after[i] != {}
    {
      if i in cells {
        assert f in after[i];
      } else {
        assert after[i] == out[i];
      }
    }
  }

  lemma SkipFlopLists(rel: Relation, out: map<nat, set<nat>>, f: nat)
    requires ListsFlopsBelow(rel, out, f) && forall i: nat :: (i, f) !in rel
    ensures ListsFlopsBelow(rel, out, f + 1)
  {
  }

  method CellToDownstreamFlops(m: Module, drivers: map<int, Driver>) returns (out: map<nat, set<nat>>)
    requires ValidDrivers(m, drivers)
    ensures forall i: nat :: i in out <==> exists f: nat :: ClocksFlop(m, drivers, i, f)
    ensures forall i: nat, f: nat :: i in out ==> (f in out[i] <==> ClocksFlop(m, drivers, i, f))
  {
    ghost var rel := Clocks(m, drivers);
    out := map[];
    for f := 0 to |m.cells|
      invariant ListsFlopsBelow(rel, out, f)
    {
      if ClockedFlop(m, f) {
        var cells := BackwardCone(m, drivers, [ClockNet(m, f)], false);
        assert Seeds([ClockNet(m, f)]) == iset{ClockNet(m, f)};
        AddFlopLists(rel, out, cells, f);
        out := AddFlop(out, cells, f);
      } else {
        SkipFlopLists(rel, out, f);
      }
    }
    ListsAll(rel, out, |m.cells|);
    forall i: nat
      ensures i in out <==> exists f: nat :: ClocksFlop(m, drivers, i, f)
    {
      if f: nat :| ClocksFlop(m, drivers, i, f) {
        assert (i, f) in rel;
      }
    }
    forall i: nat, f: nat | i in out
      ensures f in out[i] <==> ClocksFlop(m, drivers, i, f)
    {
      assert (i, f) in rel <==> ClocksFlop(m, drivers, i, f);
    }
  }

  // Expanding a cell once, over all clocks together, loses no cell.
  method NetworkBothWays(m: Module, drivers: map<int, Driver>) returns (cells: set<nat>, out: map<nat, set<nat>>)
    requires ValidDrivers(m, drivers)
    ensures cells == out.Keys
  {
    cells := ClockNetworkCells(m, drivers);
    out := CellToDownstreamFlops(m, drivers);
    forall i: nat
      ensures i in cells <==> i in out
    {
    }
  }

  lemma ListsAll(rel: Relation, out: map<nat, set<nat>>, n: nat)
    requires ListsFlopsBelow(rel, out, n) && forall i: nat, f: nat :: (i, f) in rel ==> f < n
    ensures forall i: nat :: i in out <==> exists f: nat :: (i, f) in rel
    ensures forall i: nat, f: nat :: i in out ==> (f in out[i] <==> (i, f) in rel)
  {
    forall i: nat
      ensures i in out <==> exists f: nat :: (i, f) in rel
    {
      if i in out {
        var f: nat :| f in out[i];
        assert Listed(out, i, f);
      }
      if f: nat :| (i, f) in rel {
        assert Listed(out, i, f);
      }
    }
    forall i: nat, f: nat | i in out
      ensures f in out[i] <==> (i, f) in rel
    {
      assert Listed(out, i, f) <==> f < n && (i, f) in rel;
    }
  }

  // The closure of several seeds is the union of their closures.
  lemma {:induction false} BallSplits(e: Edges, seeds: iset<int>, n: nat, b: int) returns (s: int)
    requires b in Ball(e, seeds, n)
    ensures s in seeds && b in Ball(e, iset{s}, n)
    decreases n
  {
    if n == 0 {
      s := b;
    } else if b in Ball(e, seeds, n - 1) {
      s := BallSplits(e, seeds, n - 1, b);
    } else {
      var a := LastStep(e, seeds, b, n);
      s := BallSplits(e, seeds, n - 1, a);
      BallStep(e, iset{s}, n - 1, a, b);
    }
  }

  lemma ConeOfAllClocks(m: Module, drivers: map<int, Driver>, frontier: seq<int>, i: nat)
    requires forall b :: b in frontier <==> exists g: nat :: ClockedFlop(m, g) && ClockNet(m, g) == b
    ensures InCone(m, drivers, Seeds(frontier), i) <==> exists f: nat :: ClocksFlop(m, drivers, i, f)
  {
    var e := BackEdges(m, drivers);
    if InCone(m, drivers, Seeds(frontier), i) {
      var b :| ReachedBack(e, Seeds(frontier), b) && b in drivers && drivers[b].cell == i;
      var n: nat :| b in Ball(e, Seeds(frontier), n);
      var s := BallSplits(e, Seeds(frontier), n, b);
      assert ReachedBack(e, iset{s}, b);
      var g: nat :| ClockedFlop(m, g) && ClockNet(m, g) == s;
      assert ClocksFlop(m, drivers, i, g);
    }
    if f: nat :| ClocksFlop(m, drivers, i, f) {
      var s := ClockNet(m, f);
      var b :| ReachedBack(e, iset{s}, b) && b in drivers && drivers[b].cell == i;
      var n: nat :| b in Ball(e, iset{s}, n);
      assert s in frontier;
      BallMonotone(e, e, iset{s}, Seeds(frontier), n);
      assert ReachedBack(e, Seeds(frontier), b);
    }
  }
}
