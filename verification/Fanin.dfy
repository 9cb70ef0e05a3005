/**
 The two netlist walks built on `CellWalk`: cells reachable forward from a net,
 and flops in the combinational fan-in of a net.  Each is given in the form that
 expands a cell once and in the form that expands it every time.
 */
module Fanin {
  import opened Netlist
  import opened Graph
  import opened Drivers
  import opened CellWalk

  // --- forward ----------------------------------------------------------

  // A combinational cell that reads the one net and drives the other.
  ghost predicate ForwardStep(m: Module, i: nat, a: int, b: int) {
    i < |m.cells| && !IsFf(m.cells[i].ctype) && ReadsNet(m, i, a) && DrivesNet(m, i, b)
  }

  ghost function ForwardEdges(m: Module): Edges {
    iset e: (int, int) | exists i :: ForwardStep(m, i, e.0, e.1)
  }

  // Cell `i` reads a net within `maxDepth` combinational cells of the start.
  ghost predicate ReachedForward(m: Module, start: seq<int>, maxDepth: nat, i: nat) {
    exists b :: b in Ball(ForwardEdges(m), Start(start), maxDepth) && ReadsNet(m, i, b)
  }

  ghost predicate IsForwardGraph(m: Module, g: CellGraph) {
    && |g.nets| == |m.cells|
    && (forall i, b :: 0 <= i < |m.cells| ==> (b in g.nets[i] <==> DrivesNet(m, i, b)))
    && (forall b: int, en {:trigger en in Entries(g, b)} :: en in Entries(g, b) <==>
          en.cell < |m.cells| && en.pass == !IsFf(m.cells[en.cell].ctype) && ReadsNet(m, en.cell, b))
  }

  function AddEntry(entries: map<int, seq<Entry>>, b: int, en: Entry): map<int, seq<Entry>> {
    entries[b := (if b in entries then entries[b] else []) + [en]]
  }

  ghost predicate ReadBefore(m: Module, i: nat, p: nat, k: nat, en: Entry, b: int) {
    && en.cell < |m.cells| && en.pass == !IsFf(m.cells[en.cell].ctype)
    && exists s: Site :: s.cell == en.cell && DataReads(m, s, b) && Before(s, i, p, k)
  }

  ghost predicate EntriesBefore(m: Module, g: CellGraph, i: nat, p: nat, k: nat) {
    forall b: int, en {:trigger en in Entries(g, b)} :: en in Entries(g, b) <==> ReadBefore(m, i, p, k, en, b)
  }

  lemma ReadBeforeStep(m: Module, i: nat, p: nat, k: nat, en: Entry, b: int)
    requires i < |m.cells| && p < |m.cells[i].pins| && k < |m.cells[i].pins[p].bits|
    ensures ReadBefore(m, i, p, k + 1, en, b) <==>
            ReadBefore(m, i, p, k, en, b) || (DataReads(m, Site(i, p, k), b) && en == Entry(i, !IsFf(m.cells[i].ctype)))
  {
    if ReadBefore(m, i, p, k + 1, en, b) {
      var s: Site :| s.cell == en.cell && DataReads(m, s, b) && Before(s, i, p, k + 1);
      if s != Site(i, p, k) {
        assert Before(s, i, p, k);
      }
    }
    if ReadBefore(m, i, p, k, en, b) {
      var s: Site :| s.cell == en.cell && DataReads(m, s, b) && Before(s, i, p, k);
      assert Before(s, i, p, k + 1);
    }
    if DataReads(m, Site(i, p, k), b) && en == Entry(i, !IsFf(m.cells[i].ctype)) {
      assert Before(Site(i, p, k), i, p, k + 1);
    }
  }

  lemma ReadBeforeNextPin(m: Module, i: nat, p: nat, en: Entry, b: int)
    requires i < |m.cells| && p < |m.cells[i].pins|
    ensures ReadBefore(m, i, p + 1, 0, en, b) <==> ReadBefore(m, i, p, |m.cells[i].pins[p].bits|, en, b)
    ensures m.cells[i].pins[p].port in NON_READER_PORTS ==>
              (ReadBefore(m, i, p + 1, 0, en, b) <==> ReadBefore(m, i, p, 0, en, b))
  {
    forall s: Site | DataReads(m, s, b)
      ensures Before(s, i, p + 1, 0) <==> Before(s, i, p, |m.cells[i].pins[p].bits|)
      ensures m.cells[i].pins[p].port in NON_READER_PORTS ==> (Before(s, i, p + 1, 0) <==> Before(s, i, p, 0))
    {
    }
  }

  lemma ReadBeforeNextCell(m: Module, i: nat, en: Entry, b: int)
    requires i < |m.cells|
    ensures ReadBefore(m, i + 1, 0, 0, en, b) <==> ReadBefore(m, i, |m.cells[i].pins|, 0, en, b)
  {
    forall s: Site | DataReads(m, s, b) ensures Before(s, i + 1, 0, 0) <==> Before(s, i, |m.cells[i].pins|, 0) {
    }
  }

  method AddPinEntries(m: Module, g: CellGraph, i: nat, p: nat) returns (r: CellGraph)
    requires i < |m.cells| && p < |m.cells[i].pins| && m.cells[i].pins[p].port !in NON_READER_PORTS
    requires EntriesBefore(m, g, i, p, 0)
    ensures EntriesBefore(m, r, i, p, |m.cells[i].pins[p].bits|) && r.nets == g.nets
  {
    r := g;
    var bits := m.cells[i].pins[p].bits;
    var en := Entry(i, !IsFf(m.cells[i].ctype));
    for k := 0 to |bits|
      invariant EntriesBefore(m, r, i, p, k) && r.nets == g.nets
    {
      ghost var was := r;
      if bits[k].Net? {
        r := r.(entries := AddEntry(r.entries, bits[k].id, en));
      }
      var after := k + 1;
      forall b: int, e {:trigger e in Entries(r, b)} ensures e in Entries(r, b) <==> ReadBefore(m, i, p, after, e, b) {
        ReadBeforeStep(m, i, p, k, e, b);
        assert e in Entries(was, b) <==> ReadBefore(m, i, p, k, e, b);
        assert e in Entries(r, b) <==> e in Entries(was, b) || (e == en && bits[k] == Net(b));
      }
    }
  }

  method BuildForward(m: Module) returns (g: CellGraph)
    ensures IsForwardGraph(m, g)
  {
    g := CellGraph(map[], []);
    for i := 0 to |m.cells|
      invariant EntriesBefore(m, g, i, 0, 0)
      invariant |g.nets| == i
      invariant forall j, b :: 0 <= j < i ==> (b in g.nets[j] <==> DrivesNet(m, j, b))
    {
      var c := m.cells[i];
      ghost var nets := g.nets;
      for p := 0 to |c.pins|
        invariant EntriesBefore(m, g, i, p, 0) && g.nets == nets
      {
        ghost var was := g;
        if c.pins[p].port !in NON_READER_PORTS {
          g := AddPinEntries(m, g, i, p);
        }
        var after := p + 1;
        forall b: int, e {:trigger e in Entries(g, b)}
          ensures e in Entries(g, b) <==> ReadBefore(m, i, after, 0, e, b)
        {
          ReadBeforeNextPin(m, i, p, e, b);
        }
      }
      ghost var done := g;
      g := g.(nets := g.nets + [NetSeq(Conn(c, "Y") + Conn(c, "Q"))]);
      var after := i + 1;
      forall b: int, e {:trigger e in Entries(g, b)} ensures e in Entries(g, b) <==> ReadBefore(m, after, 0, 0, e, b) {
        ReadBeforeNextCell(m, i, e, b);
        assert e in Entries(done, b) <==> ReadBefore(m, i, |c.pins|, 0, e, b);
      }
    }
    forall b: int, en {:trigger en in Entries(g, b)} ensures en in Entries(g, b) <==>
      en.cell < |m.cells| && en.pass == !IsFf(m.cells[en.cell].ctype) && ReadsNet(m, en.cell, b)
    {
      if en.cell < |m.cells| && ReadsNet(m, en.cell, b) {
        var s: Site :| s.cell == en.cell && DataReads(m, s, b);
        assert Before(s, |m.cells|, 0, 0);
      }
    }
  }

  lemma ForwardGraphEdges(m: Module, g: CellGraph)
    requires IsForwardGraph(m, g)
    ensures CellEdges(g) == ForwardEdges(m)
  {
    forall e: (int, int) ensures e in CellEdges(g) <==> e in ForwardEdges(m) {
      if Leads(g, e.0, e.1) {
        var en :| en in Entries(g, e.0) && en.pass && en.cell < |g.nets| && e.1 in g.nets[en.cell];
        assert ForwardStep(m, en.cell, e.0, e.1);
      }
      if exists i :: ForwardStep(m, i, e.0, e.1) {
        var i :| ForwardStep(m, i, e.0, e.1);
        assert Entry(i, true) in Entries(g, e.0);
      }
    }
  }

  // `once` skips cells expanded before; the answer does not depend on it.
  method ForwardReachableCells(m: Module, start: seq<int>, maxDepth: nat, once: bool) returns (reached: set<nat>)
    ensures forall i: nat :: i in reached <==> i < |m.cells| && ReachedForward(m, start, maxDepth, i)
  {
    var g := BuildForward(m);
    ForwardGraphEdges(m, g);
    var entered := Walk(g, start, maxDepth, once);
    reached := set en | en in entered :: en.cell;
    forall i: nat ensures i in reached <==> i < |m.cells| && ReachedForward(m, start, maxDepth, i) {
      if i in reached {
        var en :| en in entered && en.cell == i;
        assert EnteredFrom(g, Ball(CellEdges(g), Start(start), maxDepth), en);
      }
      if i < |m.cells| && ReachedForward(m, start, maxDepth, i) {
        var b :| b in Ball(ForwardEdges(m), Start(start), maxDepth) && ReadsNet(m, i, b);
        var en := Entry(i, !IsFf(m.cells[i].ctype));
        assert en in Entries(g, b);
        assert en in entered;
      }
    }
  }

  // --- backward ---------------------------------------------------------

  ghost predicate InputOf(m: Module, i: nat, b: int) {
    && i < |m.cells|
    && exists p :: 0 <= p < |m.cells[i].pins| && m.cells[i].pins[p].port != "Y" && m.cells[i].pins[p].port != "Q"
                   && Net(b) in m.cells[i].pins[p].bits
  }

  // From a net driven by a non-register output to the inputs of its driver.
  ghost function BackwardEdges(m: Module, drivers: map<int, Driver>): Edges {
    iset e: (int, int) | e.0 in drivers && drivers[e.0].port != "Q" && InputOf(m, drivers[e.0].cell, e.1)
  }

  // Flop `i` drives, from its Q, a net within `maxDepth` combinational cells behind the start.
  ghost predicate FlopBehind(m: Module, drivers: map<int, Driver>, start: seq<int>, maxDepth: nat, i: nat) {
    exists b :: b in Ball(BackwardEdges(m, drivers), Start(start), maxDepth) && b in drivers &&
        drivers[b] == Driver(i, "Q")
  }

  function InputNets(pins: seq<Pin>): (r: seq<int>)
    ensures forall b :: b in r <==>
      exists p :: 0 <= p < |pins| && pins[p].port != "Y" && pins[p].port != "Q" && Net(b) in pins[p].bits
  {
    if pins == [] then []
    else
      var rest := InputNets(pins[1..]);
      assert pins == [pins[0]] + pins[1..];
      (if pins[0].port == "Y" || pins[0].port == "Q" then [] else NetSeq(pins[0].bits)) + rest
  }

  function DriverEntry(drivers: map<int, Driver>, b: int): seq<Entry> {
    if b in drivers then [Entry(drivers[b].cell, drivers[b].port != "Q")] else []
  }

  function BackwardGraph(m: Module, drivers: map<int, Driver>): (g: CellGraph)
    ensures forall b: int :: Entries(g, b) == DriverEntry(drivers, b)
    ensures |g.nets| == |m.cells| && forall i :: 0 <= i < |g.nets| ==> g.nets[i] == InputNets(m.cells[i].pins)
  {
    CellGraph(map b | b in drivers :: DriverEntry(drivers, b),
              seq(|m.cells|, i requires 0 <= i < |m.cells| => InputNets(m.cells[i].pins)))
  }

  lemma BackwardGraphEdges(m: Module, drivers: map<int, Driver>)
    requires IsDriverIndex(m, drivers)
    ensures CellEdges(BackwardGraph(m, drivers)) == BackwardEdges(m, drivers)
  {
    var g := BackwardGraph(m, drivers);
    forall e: (int, int) ensures e in CellEdges(g) <==> e in BackwardEdges(m, drivers) {
      BackwardGraphLeads(m, drivers, e.0, e.1);
    }
  }

  lemma BackwardGraphLeads(m: Module, drivers: map<int, Driver>, a: int, b: int)
    requires a in drivers ==> drivers[a].cell < |m.cells|
    ensures Leads(BackwardGraph(m, drivers), a, b) <==> (a, b) in BackwardEdges(m, drivers)
  {
    var g := BackwardGraph(m, drivers);
    assert Entries(g, a) == DriverEntry(drivers, a);
    if a in drivers && drivers[a].port != "Q" {
      assert Entry(drivers[a].cell, true) in Entries(g, a);
    }
  }

  method BackwardFlopFanin(m: Module, drivers: map<int, Driver>, start: seq<int>, maxDepth: nat, once: bool)
    returns (flops: set<nat>)
    requires IsDriverIndex(m, drivers)
    ensures forall i: nat :: i in flops <==> FlopBehind(m, drivers, start, maxDepth, i)
  {
    var g := BackwardGraph(m, drivers);
    BackwardGraphEdges(m, drivers);
    var entered := Walk(g, start, maxDepth, once);
    flops := set en | en in entered && !en.pass :: en.cell;
    forall i: nat ensures i in flops <==> FlopBehind(m, drivers, start, maxDepth, i) {
      EnteredByQ(m, drivers, g, Ball(BackwardEdges(m, drivers), Start(start), maxDepth), i);
      assert i in flops <==> Entry(i, false) in entered;
    }
  }

  lemma EnteredByQ(m: Module, drivers: map<int, Driver>, g: CellGraph, nets: iset<int>, i: nat)
    requires IsDriverIndex(m, drivers) && g == BackwardGraph(m, drivers)
    ensures EnteredFrom(g, nets, Entry(i, false)) <==>
            exists b :: b in nets && b in drivers && drivers[b] == Driver(i, "Q")
  {
    forall b: int ensures Entry(i, false) in Entries(g, b) <==> b in drivers && drivers[b] == Driver(i, "Q") {
      assert Entries(g, b) == DriverEntry(drivers, b);
    }
  }
}
