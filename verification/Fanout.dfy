/**
 The data fan-out edges every forward walk follows: a net feeds a cell through
 one pin position, and the cell passes it to some of its outputs.
 */
module Fanout {
  import opened Netlist
  import opened Graph

  const LANE_ALIGNED_TYPES: set<string> := {
    "$and", "$or", "$xor", "$xnor", "$not", "$buf", "$pos", "$mux", "$pmux", "$bwmux",
    "$_AND_", "$_OR_", "$_XOR_", "$_XNOR_", "$_NOT_", "$_NAND_", "$_NOR_",
    "$_ANDNOT_", "$_ORNOT_", "$_BUF_", "$_MUX_"
  }

  // The output bits of a cell as the walks see them: its `Y` pin.
  function CellOutputs(c: Cell): seq<Bit> {
    Conn(c, "Y")
  }

  // Output bits driven by input position `port[idx]`.
  function LaneTargets(c: Cell, port: string, idx: nat): seq<Bit> {
    if c.ctype in LANE_ALIGNED_TYPES && |Conn(c, port)| == |Conn(c, "Y")| && idx < |Conn(c, "Y")|
    then [Conn(c, "Y")[idx]]
    else CellOutputs(c)
  }

  // Cells the walks pass through.
  predicate Transit(c: Cell) {
    c.ctype != "$scopeinfo" && !IsFf(c.ctype)
  }

  // Clock pins are not data readers.
  ghost predicate Reads(m: Module, s: Site, net: int) {
    && IsPosition(m, s)
    && m.cells[s.cell].pins[s.pin].port != "CLK"
    && m.cells[s.cell].pins[s.pin].bits[s.idx] == Net(net)
  }

  // Outputs one reading position feeds, lane by lane or all of them.
  function SiteTargets(m: Module, s: Site, lanes: bool): seq<Bit>
    requires s.cell < |m.cells| && s.pin < |m.cells[s.cell].pins|
  {
    var c := m.cells[s.cell];
    if lanes then LaneTargets(c, c.pins[s.pin].port, s.idx) else CellOutputs(c)
  }

  ghost predicate Feeds(m: Module, lanes: bool, s: Site, a: int, b: int) {
    Reads(m, s, a) && Transit(m.cells[s.cell]) && Net(b) in SiteTargets(m, s, lanes)
  }

  ghost predicate HasEdge(m: Module, lanes: bool, a: int, b: int) {
    exists s :: Feeds(m, lanes, s, a, b)
  }

  ghost function DataEdges(m: Module, lanes: bool): Edges {
    iset e: (int, int) | HasEdge(m, lanes, e.0, e.1)
  }

  // Position k of a pin and position j of `Y` are in one lane.
  ghost predicate InLane(c: Cell, pin: Pin, k: nat, j: nat) {
    c.ctype in LANE_ALIGNED_TYPES && |pin.bits| == |Conn(c, "Y")| ==> j == k
  }

  // Pin p of cell i passes net a on to net b.
  ghost predicate PinPasses(m: Module, lanes: bool, i: nat, p: nat, k: nat, j: nat, a: int, b: int) {
    && i < |m.cells| && m.cells[i].ctype != "$scopeinfo" && !IsFf(m.cells[i].ctype)
    && p < |m.cells[i].pins| && m.cells[i].pins[p].port != "CLK"
    && k < |m.cells[i].pins[p].bits| && m.cells[i].pins[p].bits[k] == Net(a)
    && j < |Conn(m.cells[i], "Y")| && Conn(m.cells[i], "Y")[j] == Net(b)
    && (lanes ==> InLane(m.cells[i], m.cells[i].pins[p], k, j))
  }

  // The bits of `Y` one reading position feeds.
  lemma TargetsAre(c: Cell, p: nat, k: nat, b: int, lanes: bool)
    requires ValidCell(c) && p < |c.pins| && k < |c.pins[p].bits|
    ensures Net(b) in (if lanes then LaneTargets(c, c.pins[p].port, k) else CellOutputs(c)) <==>
            exists j: nat :: j < |Conn(c, "Y")| && Conn(c, "Y")[j] == Net(b) && (lanes ==> InLane(c, c.pins[p], k, j))
  {
    ConnIsPin(c, p);
  }

  // One edge is one pin of a cell that is no flop, from a bit that is no clock to a bit of
  // `Y`: of its own lane when lanes count and the pin is as wide as `Y`, else any.
  lemma EdgeIff(m: Module, lanes: bool, a: int, b: int)
    requires ValidModule(m)
    ensures (a, b) in DataEdges(m, lanes) <==>
            exists i: nat, p: nat, k: nat, j: nat :: PinPasses(m, lanes, i, p, k, j, a, b)
  {
    if (a, b) in DataEdges(m, lanes) {
      var s :| Feeds(m, lanes, s, a, b);
      var c := m.cells[s.cell];
      TargetsAre(c, s.pin, s.idx, b, lanes);
      var j: nat :| j < |Conn(c, "Y")| && Conn(c, "Y")[j] == Net(b) && (lanes ==> InLane(c, c.pins[s.pin], s.idx, j));
      assert PinPasses(m, lanes, s.cell, s.pin, s.idx, j, a, b);
    }
    if i: nat, p: nat, k: nat, j: nat :| PinPasses(m, lanes, i, p, k, j, a, b) {
      TargetsAre(m.cells[i], p, k, b, lanes);
      assert Feeds(m, lanes, Site(i, p, k), a, b);
    }
  }

  // A cell kept in another netlist keeps its edges.
  lemma EdgeByCell(m: Module, n: Module, lanes: bool, s: Site, j: nat, a: int, b: int)
    requires Feeds(m, lanes, s, a, b) && j < |n.cells| && n.cells[j] == m.cells[s.cell]
    ensures (a, b) in DataEdges(n, lanes)
  {
    assert Feeds(n, lanes, Site(j, s.pin, s.idx), a, b);
  }

  // The all-outputs walk used from block boundaries never has fewer edges.
  lemma AllOutputsCoverLanes(m: Module)
    ensures DataEdges(m, true) <= DataEdges(m, false)
  {
    forall e | e in DataEdges(m, true) ensures e in DataEdges(m, false) {
      var s :| Feeds(m, true, s, e.0, e.1);
      assert Feeds(m, false, s, e.0, e.1);
    }
  }

  // Hence it reaches a superset, each net at no greater distance.
  lemma AllOutputsReachNoLater(m: Module, seeds: iset<int>, n: nat)
    ensures Ball(DataEdges(m, true), seeds, n) <= Ball(DataEdges(m, false), seeds, n)
  {
    AllOutputsCoverLanes(m);
    BallMonotone(DataEdges(m, true), DataEdges(m, false), seeds, seeds, n);
  }

  // --- consumer index ---------------------------------------------------

  type Consumers = map<int, seq<Site>>

  ghost predicate IsConsumerIndex(m: Module, consumers: Consumers) {
    forall b: int, s :: b in consumers && s in consumers[b] <==> Reads(m, s, b)
  }

  ghost predicate IndexedUpTo(m: Module, consumers: Consumers, i: nat, p: nat, k: nat) {
    forall b: int, s :: b in consumers && s in consumers[b] <==> Reads(m, s, b) && Before(s, i, p, k)
  }

  function Consult(consumers: Consumers, b: int): seq<Site> {
    if b in consumers then consumers[b] else []
  }

  function WithSite(consumers: Consumers, bit: Bit, s: Site): Consumers {
    if bit.Net? then consumers[bit.id := Consult(consumers, bit.id) + [s]] else consumers
  }

  lemma IndexBit(m: Module, consumers: Consumers, i: nat, p: nat, k: nat)
    requires i < |m.cells| && p < |m.cells[i].pins| && k < |m.cells[i].pins[p].bits|
    requires m.cells[i].pins[p].port != "CLK" && IndexedUpTo(m, consumers, i, p, k)
    ensures IndexedUpTo(m, WithSite(consumers, m.cells[i].pins[p].bits[k], Site(i, p, k)), i, p, k + 1)
  {
    var bit, at := m.cells[i].pins[p].bits[k], Site(i, p, k);
    var after, next := WithSite(consumers, bit, at), k + 1;
    forall b: int, s
      ensures b in after && s in after[b] <==> Reads(m, s, b) && Before(s, i, p, next)
    {
      assert Before(s, i, p, next) <==> Before(s, i, p, k) || s == at;
      assert Reads(m, at, b) <==> bit == Net(b);
      assert b in after && s in after[b] <==> (b in consumers && s in consumers[b]) || (bit == Net(b) && s == at);
    }
  }

  lemma IndexPin(m: Module, consumers: Consumers, i: nat, p: nat, k: nat)
    requires i < |m.cells| && p < |m.cells[i].pins| && IndexedUpTo(m, consumers, i, p, k)
    requires k == |m.cells[i].pins[p].bits| || (k == 0 && m.cells[i].pins[p].port == "CLK")
    ensures IndexedUpTo(m, consumers, i, p + 1, 0)
  {
    var next := p + 1;
    forall b: int, s
      ensures b in consumers && s in consumers[b] <==> Reads(m, s, b) && Before(s, i, next, 0)
    {
      assert Reads(m, s, b) ==> (Before(s, i, next, 0) <==> Before(s, i, p, k));
    }
  }

  lemma IndexCell(m: Module, consumers: Consumers, i: nat)
    requires i < |m.cells| && IndexedUpTo(m, consumers, i, |m.cells[i].pins|, 0)
    ensures IndexedUpTo(m, consumers, i + 1, 0, 0)
  {
    var next := i + 1;
    forall b: int, s
      ensures b in consumers && s in consumers[b] <==> Reads(m, s, b) && Before(s, next, 0, 0)
    {
      assert Reads(m, s, b) ==> (Before(s, next, 0, 0) <==> Before(s, i, |m.cells[i].pins|, 0));
    }
  }

  method BuildBitConsumers(m: Module) returns (consumers: Consumers)
    ensures IsConsumerIndex(m, consumers)
  {
    consumers := map[];
    for i := 0 to |m.cells|
      invariant IndexedUpTo(m, consumers, i, 0, 0)
    {
      consumers := IndexPins(m, consumers, i);
      IndexCell(m, consumers, i);
    }
  }

  method IndexPins(m: Module, consumers: Consumers, i: nat) returns (r: Consumers)
    requires i < |m.cells| && IndexedUpTo(m, consumers, i, 0, 0)
    ensures IndexedUpTo(m, r, i, |m.cells[i].pins|, 0)
  {
    var c := m.cells[i];
    r := consumers;
    for p := 0 to |c.pins|
      invariant IndexedUpTo(m, r, i, p, 0)
    {
      var bits := c.pins[p].bits;
      if c.pins[p].port != "CLK" {
        for k := 0 to |bits|
          invariant IndexedUpTo(m, r, i, p, k)
        {
          IndexBit(m, r, i, p, k);
          r := WithSite(r, bits[k], Site(i, p, k));
        }
        IndexPin(m, r, i, p, |bits|);
      } else {
        IndexPin(m, r, i, p, 0);
      }
    }
  }

  method AppendNets(nets: seq<int>, bits: seq<Bit>) returns (r: seq<int>)
    ensures forall c :: c in r <==> c in nets || Net(c) in bits
  {
    r := nets;
    for k := 0 to |bits|
      invariant forall c :: c in r <==> c in nets || Net(c) in bits[..k]
    {
      assert bits[..k + 1] == bits[..k] + [bits[k]];
      if bits[k].Net? {
        r := r + [bits[k].id];
      }
    }
    assert bits[..|bits|] == bits;
  }

  // Every net one edge further from `b`.
  method FanoutOf(m: Module, consumers: Consumers, b: int, lanes: bool) returns (targets: seq<int>)
    requires IsConsumerIndex(m, consumers)
    ensures forall c :: c in targets <==> (b, c) in DataEdges(m, lanes)
  {
    targets := [];
    var sites := Consult(consumers, b);
    assert forall s :: s in sites <==> Reads(m, s, b);
    for i := 0 to |sites|
      invariant forall c :: c in targets <==> exists j :: 0 <= j < i && Feeds(m, lanes, sites[j], b, c)
    {
      var s := sites[i];
      assert s in sites;
      var c := m.cells[s.cell];
      if Transit(c) {
        var outs := SiteTargets(m, s, lanes);
        targets := AppendNets(targets, outs);
        forall x ensures x in targets <==> exists j :: 0 <= j < i + 1 && Feeds(m, lanes, sites[j], b, x) {
          assert Net(x) in outs <==> Feeds(m, lanes, s, b, x);
        }
      } else {
        assert forall x :: !Feeds(m, lanes, s, b, x);
      }
    }
    forall c ensures c in targets <==> (b, c) in DataEdges(m, lanes) {
      if HasEdge(m, lanes, b, c) {
        var s :| Feeds(m, lanes, s, b, c);
        assert s in sites;
      }
    }
  }
}
