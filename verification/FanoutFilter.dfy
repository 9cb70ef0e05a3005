/**
 The pruning test of the flop-sourced walk: one bounded backward search per
 clock over predecessor lists that are shared between the outputs of a cell
 and read once per clock.
 */
module FanoutFilter {
  import opened Netlist
  import opened Graph
  import opened Fanout

  // --- predecessor lists ------------------------------------------------

  // `lists` are the list objects, `rev[b]` the objects stored for output net b.
  type Rev = map<int, seq<nat>>

  ghost predicate ListsValid(lists: seq<seq<int>>, rev: Rev) {
    forall b, id :: b in rev && id in rev[b] ==> id < |lists|
  }

  function Stored(rev: Rev, b: int): seq<nat> {
    if b in rev then rev[b] else []
  }

  ghost predicate IsPred(lists: seq<seq<int>>, rev: Rev, a: int, b: int)
  {
    exists id :: id in Stored(rev, b) && id < |lists| && a in lists[id]
  }

  ghost predicate RevIsReverse(lists: seq<seq<int>>, rev: Rev, e: Edges) {
    && ListsValid(lists, rev)
    && forall a, b {:trigger IsPred(lists, rev, a, b)} :: IsPred(lists, rev, a, b) <==> (a, b) in e
  }

  // Store one new list object for every output net in `outs`.
  method AddList(lists: seq<seq<int>>, rev: Rev, preds: seq<int>, outs: seq<Bit>)
    returns (lists': seq<seq<int>>, rev': Rev)
    requires ListsValid(lists, rev)
    ensures ListsValid(lists', rev')
    ensures forall a, b :: IsPred(lists', rev', a, b) <==>
                           IsPred(lists, rev, a, b) || (a in preds && Net(b) in outs)
  {
    var id := |lists|;
    lists' := lists + [preds];
    rev' := rev;
    for k := 0 to |outs|
      invariant ListsValid(lists', rev')
      invariant forall b, x :: x in Stored(rev', b) <==> x in Stored(rev, b) || (x == id && Net(b) in outs[..k])
    {
      if outs[k].Net? {
        var ob := outs[k].id;
        rev' := rev'[ob := Stored(rev', ob) + [id]];
      }
    }
    assert outs[..|outs|] == outs;
    forall a, b ensures IsPred(lists', rev', a, b) <==>
                        IsPred(lists, rev, a, b) || (a in preds && Net(b) in outs)
    {
      if IsPred(lists, rev, a, b) {
        var x :| x in Stored(rev, b) && x < |lists| && a in lists[x];
        assert x in Stored(rev', b) && a in lists'[x];
      }
      if a in preds && Net(b) in outs {
        assert id in Stored(rev', b) && a in lists'[id];
      }
      if IsPred(lists', rev', a, b) {
        var x :| x in Stored(rev', b) && x < |lists'| && a in lists'[x];
        assert x in Stored(rev, b) ==> x < |lists|;
      }
    }
  }

  predicate Aligned(c: Cell, bits: seq<Bit>) {
    c.ctype in LANE_ALIGNED_TYPES && |bits| == |Conn(c, "Y")|
  }

  // The two ways a pin of cell `c` passes net a to net b.
  ghost predicate WidePred(c: Cell, p: nat, a: int) {
    p < |c.pins| && c.pins[p].port != "CLK" && !Aligned(c, c.pins[p].bits) && Net(a) in c.pins[p].bits
  }

  ghost predicate LanePred(c: Cell, p: nat, k: nat, a: int) {
    && p < |c.pins| && c.pins[p].port != "CLK" && Aligned(c, c.pins[p].bits)
    && k < |c.pins[p].bits| && c.pins[p].bits[k] == Net(a)
  }

  ghost predicate WideAny(c: Cell, upto: nat, a: int) {
    exists p: nat :: p < upto && WidePred(c, p, a)
  }

  ghost predicate LaneAny(c: Cell, upto: nat, k: nat, a: int) {
    exists p: nat :: p < upto && LanePred(c, p, k, a)
  }

  // Some output position below `upto` drives b from an aligned position holding a.
  ghost predicate LaneEdge(c: Cell, y: seq<Bit>, upto: nat, a: int, b: int) {
    exists k: nat :: k < upto && k < |y| && y[k] == Net(b) && LaneAny(c, |c.pins|, k, a)
  }

  ghost predicate CellEdge(m: Module, i: nat, a: int, b: int) {
    exists s: Site :: s.cell == i && Feeds(m, true, s, a, b)
  }

  lemma CellEdgeHasShape(m: Module, i: nat, a: int, b: int)
    requires ValidModule(m) && i < |m.cells| && CellEdge(m, i, a, b)
    ensures var c := m.cells[i]; var y := Conn(c, "Y");
            (WideAny(c, |c.pins|, a) && Net(b) in y) || LaneEdge(c, y, |y|, a, b)
  {
    var c := m.cells[i];
    var s: Site :| s.cell == i && Feeds(m, true, s, a, b);
    ConnIsPin(c, s.pin);
    if Aligned(c, c.pins[s.pin].bits) {
      assert LanePred(c, s.pin, s.idx, a);
      assert LaneAny(c, |c.pins|, s.idx, a);
    } else {
      assert WidePred(c, s.pin, a);
    }
  }

  lemma WideShapeIsEdge(m: Module, i: nat, a: int, b: int)
    requires ValidModule(m) && i < |m.cells| && Transit(m.cells[i])
    requires WideAny(m.cells[i], |m.cells[i].pins|, a) && Net(b) in Conn(m.cells[i], "Y")
    ensures CellEdge(m, i, a, b)
  {
    var c := m.cells[i];
    var p: nat :| p < |c.pins| && WidePred(c, p, a);
    ConnIsPin(c, p);
    var k :| 0 <= k < |c.pins[p].bits| && c.pins[p].bits[k] == Net(a);
    assert Feeds(m, true, Site(i, p, k), a, b);
  }

  lemma LaneShapeIsEdge(m: Module, i: nat, a: int, b: int)
    requires ValidModule(m) && i < |m.cells| && Transit(m.cells[i])
    requires LaneEdge(m.cells[i], Conn(m.cells[i], "Y"), |Conn(m.cells[i], "Y")|, a, b)
    ensures CellEdge(m, i, a, b)
  {
    var c := m.cells[i];
    var y := Conn(c, "Y");
    var k: nat :| k < |y| && y[k] == Net(b) && LaneAny(c, |c.pins|, k, a);
    var p: nat :| p < |c.pins| && LanePred(c, p, k, a);
    ConnIsPin(c, p);
    assert Feeds(m, true, Site(i, p, k), a, b);
  }

  // Lane k of the collected vectors holds net a.
  ghost predicate LaneHas(lanePorts: seq<seq<Bit>>, k: nat, a: int) {
    exists l :: l in lanePorts && k < |l| && l[k] == Net(a)
  }

  lemma LaneHasAppend(lanePorts: seq<seq<Bit>>, bits: seq<Bit>, k: nat, a: int)
    ensures LaneHas(lanePorts + [bits], k, a) <==> LaneHas(lanePorts, k, a) || (k < |bits| && bits[k] == Net(a))
  {
    if LaneHas(lanePorts, k, a) {
      var l :| l in lanePorts && k < |l| && l[k] == Net(a);
      assert l in lanePorts + [bits];
    }
    assert bits in lanePorts + [bits];
  }

  ghost predicate WidesAre(allPreds: seq<int>, c: Cell, p: nat) {
    forall a :: a in allPreds <==> WideAny(c, p, a)
  }

  ghost predicate LanesAre(lanePorts: seq<seq<Bit>>, c: Cell, p: nat) {
    && (forall l :: l in lanePorts ==> |l| == |Conn(c, "Y")|)
    && (forall k: nat, a :: LaneHas(lanePorts, k, a) <==> LaneAny(c, p, k, a))
  }

  // Split a cell's pins into the shared list and the lane-aligned vectors.
  method SplitPins(c: Cell) returns (allPreds: seq<int>, lanePorts: seq<seq<Bit>>)
    ensures WidesAre(allPreds, c, |c.pins|)
    ensures LanesAre(lanePorts, c, |c.pins|)
  {
    allPreds, lanePorts := [], [];
    for p := 0 to |c.pins|
      invariant WidesAre(allPreds, c, p)
      invariant LanesAre(lanePorts, c, p)
    {
      var bits := c.pins[p].bits;
      SplitStep(c, p, allPreds, lanePorts);
      if c.pins[p].port != "CLK" {
        if Aligned(c, bits) {
          lanePorts := lanePorts + [bits];
        } else {
          allPreds := allPreds + NetSeq(bits);
        }
      }
    }
  }

  lemma SplitStep(c: Cell, p: nat, allPreds: seq<int>, lanePorts: seq<seq<Bit>>)
    requires p < |c.pins| && WidesAre(allPreds, c, p) && LanesAre(lanePorts, c, p)
    ensures var read := c.pins[p].port != "CLK"; var bits := c.pins[p].bits;
            && WidesAre(if read && !Aligned(c, bits) then allPreds + NetSeq(bits) else allPreds, c, p + 1)
            && LanesAre(if read && Aligned(c, bits) then lanePorts + [bits] else lanePorts, c, p + 1)
  {
    var read := c.pins[p].port != "CLK";
    var bits := c.pins[p].bits;
    var lanes := if read && Aligned(c, bits) then lanePorts + [bits] else lanePorts;
    forall k: nat, a ensures LaneHas(lanes, k, a) <==> LaneAny(c, p + 1, k, a) {
      LaneAnyStep(c, p, k, a);
      LaneHasAppend(lanePorts, bits, k, a);
    }
    var wides := if read && !Aligned(c, bits) then allPreds + NetSeq(bits) else allPreds;
    forall a ensures a in wides <==> WideAny(c, p + 1, a) {
      WideAnyStep(c, p, a);
      assert a in wides <==> a in allPreds || (read && !Aligned(c, bits) && a in NetSeq(bits));
    }
  }

  lemma LaneAnyStep(c: Cell, p: nat, k: nat, a: int)
    ensures LaneAny(c, p + 1, k, a) <==> LaneAny(c, p, k, a) || LanePred(c, p, k, a)
  {
    if LaneAny(c, p, k, a) {
      var q: nat :| q < p && LanePred(c, q, k, a);
      assert q < p + 1;
    }
  }

  lemma WideAnyStep(c: Cell, p: nat, a: int)
    ensures WideAny(c, p + 1, a) <==> WideAny(c, p, a) || WidePred(c, p, a)
  {
    if WideAny(c, p, a) {
      var q: nat :| q < p && WidePred(c, q, a);
      assert q < p + 1;
    }
  }

  // The k-th bits of the aligned vectors.
  function LaneOf(lanePorts: seq<seq<Bit>>, k: nat): (r: seq<int>)
    requires forall l :: l in lanePorts ==> k < |l|
    ensures forall a :: a in r <==> LaneHas(lanePorts, k, a)
  {
    if lanePorts == [] then []
    else
      var rest := LaneOf(lanePorts[1..], k);
      assert lanePorts == [lanePorts[0]] + lanePorts[1..];
      (if lanePorts[0][k].Net? then [lanePorts[0][k].id] else []) + rest
  }

  method AddCell(m: Module, i: nat, lists: seq<seq<int>>, rev: Rev)
    returns (lists': seq<seq<int>>, rev': Rev)
    requires ValidModule(m) && i < |m.cells| && Transit(m.cells[i])
    requires ListsValid(lists, rev)
    ensures ListsValid(lists', rev')
    ensures forall a, b :: IsPred(lists', rev', a, b) <==> IsPred(lists, rev, a, b) || CellEdge(m, i, a, b)
  {
    var c := m.cells[i];
    var y := Conn(c, "Y");
    var allPreds, lanePorts := SplitPins(c);
    lists', rev' := lists, rev;
    if allPreds != [] {
      lists', rev' := AddList(lists', rev', allPreds, CellOutputs(c));
    }
    assert forall a, b :: IsPred(lists', rev', a, b) <==>
      IsPred(lists, rev, a, b) || (WideAny(c, |c.pins|, a) && Net(b) in y);
    for k := 0 to |y|
      invariant ListsValid(lists', rev')
      invariant forall a, b :: IsPred(lists', rev', a, b) <==>
        IsPred(lists, rev, a, b) || (WideAny(c, |c.pins|, a) && Net(b) in y) || LaneEdge(c, y, k, a, b)
    {
      var lane := LaneOf(lanePorts, k);
      forall a, b ensures LaneEdge(c, y, k + 1, a, b) <==> LaneEdge(c, y, k, a, b) || (a in lane && Net(b) == y[k]) {
        LaneEdgeStep(c, y, k, a, b);
      }
      if y[k].Net? && lane != [] {
        lists', rev' := AddList(lists', rev', lane, [y[k]]);
      }
    }
    forall a, b ensures IsPred(lists', rev', a, b) <==> IsPred(lists, rev, a, b) || CellEdge(m, i, a, b) {
      CellEdgeIff(m, i, a, b);
    }
  }

  // The edges of a cell are its wide ones and those of its lanes.
  lemma CellEdgeIff(m: Module, i: nat, a: int, b: int)
    requires ValidModule(m) && i < |m.cells| && Transit(m.cells[i])
    ensures var c, y := m.cells[i], Conn(m.cells[i], "Y");
      CellEdge(m, i, a, b) <==> (WideAny(c, |c.pins|, a) && Net(b) in y) || LaneEdge(c, y, |y|, a, b)
  {
    var c, y := m.cells[i], Conn(m.cells[i], "Y");
    if CellEdge(m, i, a, b) {
      CellEdgeHasShape(m, i, a, b);
    }
    if WideAny(c, |c.pins|, a) && Net(b) in y {
      WideShapeIsEdge(m, i, a, b);
    }
    if LaneEdge(c, y, |y|, a, b) {
      LaneShapeIsEdge(m, i, a, b);
    }
  }

  lemma LaneEdgeStep(c: Cell, y: seq<Bit>, k: nat, a: int, b: int)
    requires k < |y|
    ensures LaneEdge(c, y, k + 1, a, b) <==> LaneEdge(c, y, k, a, b) || (LaneAny(c, |c.pins|, k, a) && Net(b) == y[k])
  {
    if LaneEdge(c, y, k, a, b) {
      var j: nat :| j < k && j < |y| && y[j] == Net(b) && LaneAny(c, |c.pins|, j, a);
      assert j < k + 1;
    }
  }

  // The stored lists are exactly the reverse of the forward walk's edges.
  method BuildReverse(m: Module) returns (lists: seq<seq<int>>, rev: Rev)
    requires ValidModule(m)
    ensures RevIsReverse(lists, rev, DataEdges(m, true))
  {
    lists, rev := [], map[];
    for i := 0 to |m.cells|
      invariant ListsValid(lists, rev)
      invariant forall a, b :: IsPred(lists, rev, a, b) <==> exists j: nat :: j < i && CellEdge(m, j, a, b)
    {
      var c := m.cells[i];
      ghost var was := iset e: (int, int) | IsPred(lists, rev, e.0, e.1);
      if Transit(c) {
        lists, rev := AddCell(m, i, lists, rev);
      }
      forall a, b ensures IsPred(lists, rev, a, b) <==> exists j: nat :: j < i + 1 && CellEdge(m, j, a, b) {
        assert CellEdge(m, i, a, b) ==> Transit(c);
        assert (a, b) in was <==> exists j: nat :: j < i && CellEdge(m, j, a, b);
        if CellEdge(m, i, a, b) {
          assert i < i + 1;
        }
      }
    }
    forall a, b ensures IsPred(lists, rev, a, b) <==> (a, b) in DataEdges(m, true) {
      if HasEdge(m, true, a, b) {
        var s :| Feeds(m, true, s, a, b);
        assert CellEdge(m, s.cell, a, b);
      }
    }
  }

  // --- bounded backward search ------------------------------------------

  datatype FlopDomain = FlopDomain(flop: Flop, clock: Option<string>)

  ghost function SeedSet(seeds: seq<int>): iset<int> {
    iset b | b in seeds
  }

  // `dist` holds exactly the nets within `upto` backward edges, with their distance.
  ghost predicate DistancesExact(e: Edges, seeds: iset<int>, dist: map<int, nat>, upto: nat) {
    && (forall b :: b in dist ==> dist[b] <= upto)
    && forall b, n: nat :: n <= upto ==> (b in dist && dist[b] <= n <==> b in Ball(Reverse(e), seeds, n))
  }

  ghost predicate DistancesSound(e: Edges, seeds: iset<int>, dist: map<int, nat>, upto: nat) {
    forall b :: b in dist ==> dist[b] <= upto && b in Ball(Reverse(e), seeds, dist[b])
  }

  // Every list read so far was read at some depth, and its members lie no deeper.
  ghost predicate ReadListsClosed(lists: seq<seq<int>>, readAt: map<nat, nat>, dist: map<int, nat>, upto: nat) {
    forall id :: id in readAt ==>
      && id < |lists| && readAt[id] <= upto
      && forall a :: a in lists[id] ==> a in dist && dist[a] <= readAt[id]
  }

  // The lists stored for `b` were all read, at the latest one level after `b`.
  ghost predicate Expanded(rev: Rev, readAt: map<nat, nat>, b: int, at: nat) {
    forall id :: id in Stored(rev, b) ==> id in readAt && readAt[id] <= at + 1
  }

  // Record the unseen members of one list at `depth`.
  method ReadList(list: seq<int>, dist: map<int, nat>, nxt: seq<int>, depth: nat)
    returns (dist': map<int, nat>, nxt': seq<int>)
    requires forall b :: b in dist ==> dist[b] <= depth
    requires forall b :: b in nxt <==> b in dist && dist[b] == depth
    ensures forall b :: b in dist ==> b in dist' && dist'[b] == dist[b]
    ensures forall b :: b in dist' && b !in dist ==> b in list && dist'[b] == depth
    ensures forall b :: b in list ==> b in dist'
    ensures forall b :: b in nxt' <==> b in dist' && dist'[b] == depth
  {
    dist', nxt' := dist, nxt;
    for k := 0 to |list|
      invariant forall b :: b in dist ==> b in dist' && dist'[b] == dist[b]
      invariant forall b :: b in dist' && b !in dist ==> b in list && dist'[b] == depth
      invariant forall b :: b in list[..k] ==> b in dist'
      invariant forall b :: b in nxt' <==> b in dist' && dist'[b] == depth
    {
      var pb := list[k];
      if pb !in dist' {
        dist' := dist'[pb := depth];
        nxt' := nxt' + [pb];
      }
    }
  }

  // While a level is expanded: distances and read lists only grow, at `depth`.
  ghost predicate Midway(e: Edges, seeds: iset<int>, lists: seq<seq<int>>, dist: map<int, nat>, readAt: map<nat, nat>,
                         depth: nat, dist': map<int, nat>, readAt': map<nat, nat>, nxt: seq<int>) {
    && (forall x :: x in dist ==> x in dist' && dist'[x] == dist[x])
    && (forall x :: x in dist' && x !in dist ==> dist'[x] == depth)
    && (forall id :: id in readAt ==> id in readAt' && readAt'[id] == readAt[id])
    && DistancesSound(e, seeds, dist', depth)
    && ReadListsClosed(lists, readAt', dist', depth)
    && (forall x :: x in nxt <==> x in dist' && dist'[x] == depth)
  }

  // Reading one list keeps the level's state.
  lemma ListRead(e: Edges, seeds: iset<int>, lists: seq<seq<int>>, rev: Rev, b: int, id: nat,
                 dist: map<int, nat>, readAt: map<nat, nat>, depth: nat,
                 was: map<int, nat>, readWas: map<nat, nat>, nxt: seq<int>, dist': map<int, nat>, nxt': seq<int>)
    requires RevIsReverse(lists, rev, e) && depth > 0 && b in Ball(Reverse(e), seeds, depth - 1)
    requires id in Stored(rev, b) && id < |lists| && id !in readWas
    requires Midway(e, seeds, lists, dist, readAt, depth, was, readWas, nxt)
    requires forall x :: x in was ==> x in dist' && dist'[x] == was[x]
    requires forall x :: x in dist' && x !in was ==> x in lists[id] && dist'[x] == depth
    requires forall x :: x in lists[id] ==> x in dist'
    requires forall x :: x in nxt' <==> x in dist' && dist'[x] == depth
    ensures Midway(e, seeds, lists, dist, readAt, depth, dist', readWas[id := depth], nxt')
  {
    forall x | x in dist' && x !in was ensures x in Ball(Reverse(e), seeds, depth) {
      PredReached(e, seeds, lists, rev, b, id, x, depth);
    }
  }

  lemma PredReached(e: Edges, seeds: iset<int>, lists: seq<seq<int>>, rev: Rev, b: int, id: nat, x: int, depth: nat)
    requires RevIsReverse(lists, rev, e) && depth > 0 && b in Ball(Reverse(e), seeds, depth - 1)
    requires id in Stored(rev, b) && id < |lists| && x in lists[id]
    ensures x in Ball(Reverse(e), seeds, depth)
  {
    assert IsPred(lists, rev, x, b);
    assert (b, x) in Reverse(e);
    BallStep(Reverse(e), seeds, depth - 1, b, x);
  }

  // Read every unread list stored for `b`.
  method ExpandBack(ghost e: Edges, ghost seeds: iset<int>, lists: seq<seq<int>>, rev: Rev, b: int,
                    dist: map<int, nat>, nxt: seq<int>, readAt: map<nat, nat>, depth: nat)
    returns (dist': map<int, nat>, nxt': seq<int>, readAt': map<nat, nat>)
    requires RevIsReverse(lists, rev, e)
    requires depth > 0 && b in Ball(Reverse(e), seeds, depth - 1)
    requires DistancesSound(e, seeds, dist, depth)
    requires ReadListsClosed(lists, readAt, dist, depth)
    requires forall x :: x in nxt <==> x in dist && dist[x] == depth
    ensures Midway(e, seeds, lists, dist, readAt, depth, dist', readAt', nxt')
    ensures Expanded(rev, readAt', b, depth - 1)
  {
    dist', nxt', readAt' := dist, nxt, readAt;
    var ids := Stored(rev, b);
    for j := 0 to |ids|
      invariant Midway(e, seeds, lists, dist, readAt, depth, dist', readAt', nxt')
      invariant forall id :: id in ids[..j] ==> id in readAt' && readAt'[id] <= depth
    {
      var id := ids[j];
      assert id in Stored(rev, b) && id < |lists|;
      assert ids[..j + 1] == ids[..j] + [id];
      if id !in readAt' {
        ghost var was, nxtWas := dist', nxt';
        dist', nxt' := ReadList(lists[id], dist', nxt', depth);
        ListRead(e, seeds, lists, rev, b, id, dist, readAt, depth, was, readAt', nxtWas, dist', nxt');
        readAt' := readAt'[id := depth];
      }
    }
    assert ids[..|ids|] == ids;
  }

  // The state of the backward walk after `depth` levels.
  ghost predicate BackState(e: Edges, s: iset<int>, lists: seq<seq<int>>, rev: Rev,
                            dist: map<int, nat>, readAt: map<nat, nat>, frontier: seq<int>, depth: nat) {
    && DistancesSound(e, s, dist, depth)
    && (forall b :: b in s ==> b in dist && dist[b] == 0)
    && ReadListsClosed(lists, readAt, dist, depth)
    && (forall b :: b in dist && dist[b] < depth ==> Expanded(rev, readAt, b, dist[b]))
    && (forall b :: b in frontier <==> b in dist && dist[b] == depth)
  }

  method ExpandLevel(ghost e: Edges, ghost s: iset<int>, lists: seq<seq<int>>, rev: Rev, frontier: seq<int>,
                     dist: map<int, nat>, readAt: map<nat, nat>, depth: nat)
    returns (dist': map<int, nat>, readAt': map<nat, nat>, nxt: seq<int>)
    requires RevIsReverse(lists, rev, e)
    requires depth > 0 && BackState(e, s, lists, rev, dist, readAt, frontier, depth - 1)
    ensures BackState(e, s, lists, rev, dist', readAt', nxt, depth)
  {
    nxt, dist', readAt' := [], dist, readAt;
    for i := 0 to |frontier|
      invariant Midway(e, s, lists, dist, readAt, depth, dist', readAt', nxt)
      invariant forall j :: 0 <= j < i ==> Expanded(rev, readAt', frontier[j], depth - 1)
    {
      assert frontier[i] in frontier;
      ghost var was, readWas := dist', readAt';
      dist', nxt, readAt' := ExpandBack(e, s, lists, rev, frontier[i], dist', nxt, readAt', depth);
      assert forall j :: 0 <= j < i ==> Expanded(rev, readWas, frontier[j], depth - 1);
      MidwayTwice(e, s, lists, dist, readAt, depth, was, readWas, dist', readAt', nxt);
    }
    LevelIsDone(e, s, lists, rev, frontier, dist, readAt, depth, dist', readAt', nxt);
  }

  lemma MidwayTwice(e: Edges, s: iset<int>, lists: seq<seq<int>>, dist: map<int, nat>, readAt: map<nat, nat>,
                    depth: nat, was: map<int, nat>, readWas: map<nat, nat>, dist': map<int, nat>,
                    readAt': map<nat, nat>, nxt: seq<int>)
    requires forall x :: x in dist ==> x in was && was[x] == dist[x]
    requires forall x :: x in was && x !in dist ==> was[x] == depth
    requires forall id :: id in readAt ==> id in readWas && readWas[id] == readAt[id]
    requires Midway(e, s, lists, was, readWas, depth, dist', readAt', nxt)
    ensures Midway(e, s, lists, dist, readAt, depth, dist', readAt', nxt)
  {
  }

  lemma LevelIsDone(e: Edges, s: iset<int>, lists: seq<seq<int>>, rev: Rev, frontier: seq<int>,
                    dist: map<int, nat>, readAt: map<nat, nat>, depth: nat,
                    dist': map<int, nat>, readAt': map<nat, nat>, nxt: seq<int>)
    requires depth > 0 && BackState(e, s, lists, rev, dist, readAt, frontier, depth - 1)
    requires Midway(e, s, lists, dist, readAt, depth, dist', readAt', nxt)
    requires forall j :: 0 <= j < |frontier| ==> Expanded(rev, readAt', frontier[j], depth - 1)
    ensures BackState(e, s, lists, rev, dist', readAt', nxt, depth)
  {
    forall b | b in dist' && dist'[b] < depth ensures Expanded(rev, readAt', b, dist'[b]) {
      assert b in dist;
      if dist[b] == depth - 1 {
        var j :| 0 <= j < |frontier| && frontier[j] == b;
      } else {
        assert Expanded(rev, readAt, b, dist[b]);
      }
    }
  }

  // The bounded backward walk of one clock; each shared list is read once.
  method SearchBack(ghost e: Edges, lists: seq<seq<int>>, rev: Rev, seeds: seq<int>, maxHops: nat)
    returns (dist: map<int, nat>)
    requires RevIsReverse(lists, rev, e)
    ensures DistancesExact(e, SeedSet(seeds), dist, maxHops)
  {
    ghost var s := SeedSet(seeds);
    var frontier := seeds;
    dist := map b | b in seeds :: 0;
    var readAt: map<nat, nat> := map[];
    var depth := 0;
    while frontier != [] && depth < maxHops
      invariant depth <= maxHops
      invariant BackState(e, s, lists, rev, dist, readAt, frontier, depth)
      decreases maxHops - depth
    {
      depth := depth + 1;
      dist, readAt, frontier := ExpandLevel(e, s, lists, rev, frontier, dist, readAt, depth);
    }
    BackStateExact(e, s, lists, rev, dist, readAt, frontier, depth, maxHops);
  }

  lemma BackStateExact(e: Edges, s: iset<int>, lists: seq<seq<int>>, rev: Rev, dist: map<int, nat>,
                       readAt: map<nat, nat>, frontier: seq<int>, depth: nat, maxHops: nat)
    requires RevIsReverse(lists, rev, e)
    requires BackState(e, s, lists, rev, dist, readAt, frontier, depth)
    requires depth <= maxHops && (frontier == [] || depth == maxHops)
    ensures DistancesExact(e, s, dist, maxHops)
  {
    forall b, n: nat | n <= maxHops ensures b in dist && dist[b] <= n <==> b in Ball(Reverse(e), s, n) {
      if b in dist && dist[b] <= n {
        BallGrows(Reverse(e), s, dist[b], n);
      }
      if b in Ball(Reverse(e), s, n) {
        ReadListsClosedBackward(e, lists, rev, dist, readAt, maxHops);
        BallIsSeen(Reverse(e), s, maxHops, dist, n, b);
      }
    }
  }

  lemma ReadListsClosedBackward(e: Edges, lists: seq<seq<int>>, rev: Rev, dist: map<int, nat>, readAt: map<nat, nat>,
                                maxHops: nat)
    requires RevIsReverse(lists, rev, e)
    requires ReadListsClosed(lists, readAt, dist, maxHops)
    requires forall x :: x in dist && dist[x] < maxHops ==> Expanded(rev, readAt, x, dist[x])
    ensures EdgeClosed(Reverse(e), dist, maxHops)
  {
    forall c, b | (c, b) in Reverse(e) && c in dist && dist[c] < maxHops
      ensures b in dist && dist[b] <= dist[c] + 1
    {
      assert (b, c) in e;
      assert IsPred(lists, rev, b, c);
      assert Expanded(rev, readAt, c, dist[c]);
    }
  }
}
