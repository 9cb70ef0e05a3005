/**
 The bounded cell walks shared by the rules, which mark a net when it is taken
 from the frontier and, in their fast form, expand each cell only once.  Both
 forms collect the cells entered from the nets within the depth bound.
 */
module CellWalk {
  import opened Netlist
  import opened Graph
  import opened Drivers

  // A cell entered from a net, and whether the walk goes on through it.
  datatype Entry = Entry(cell: nat, pass: bool)

  // `entries[b]`: cells entered from net b.  `nets[c]`: nets cell c leads on to.
  datatype CellGraph = CellGraph(entries: map<int, seq<Entry>>, nets: seq<seq<int>>)

  function Entries(g: CellGraph, b: int): seq<Entry> {
    if b in g.entries then g.entries[b] else []
  }

  ghost predicate ValidGraph(g: CellGraph) {
    forall b: int, en {:trigger en in Entries(g, b)} :: en in Entries(g, b) ==> en.cell < |g.nets|
  }

  ghost predicate Leads(g: CellGraph, a: int, b: int) {
    exists en :: en in Entries(g, a) && en.pass && en.cell < |g.nets| && b in g.nets[en.cell]
  }

  ghost function CellEdges(g: CellGraph): Edges {
    iset e: (int, int) | Leads(g, e.0, e.1)
  }

  ghost function Start(start: seq<int>): iset<int> {
    iset b | b in start
  }

  // What a walk must collect: the cells entered from nets within `maxDepth` edges.
  ghost predicate EnteredExactly(g: CellGraph, start: seq<int>, maxDepth: nat, entered: set<Entry>) {
    forall en :: en in entered <==> EnteredFrom(g, Ball(CellEdges(g), Start(start), maxDepth), en)
  }

  ghost predicate EnteredFrom(g: CellGraph, nets: iset<int>, en: Entry) {
    exists b :: b in nets && en in Entries(g, b)
  }

  // --- invariants -------------------------------------------------------

  // `disc` is the level at which each net was first pushed.
  ghost predicate Known(disc: map<int, nat>, list: seq<int>, k: nat) {
    forall c :: c in list ==> c in disc && disc[c] <= k
  }

  ghost predicate Followed(g: CellGraph, disc: map<int, nat>, b: int) {
    && b in disc
    && forall en :: en in Entries(g, b) && en.pass && en.cell < |g.nets| ==> Known(disc, g.nets[en.cell], disc[b] + 1)
  }

  // Cells already expanded led to nets known one level after their own.
  ghost predicate ExpandedClosed(g: CellGraph, expanded: map<nat, nat>, disc: map<int, nat>, bound: nat) {
    forall x :: x in expanded ==> x < |g.nets| && expanded[x] < bound && Known(disc, g.nets[x], expanded[x] + 1)
  }

  ghost predicate Sound(e: Edges, seeds: iset<int>, disc: map<int, nat>, bound: nat) {
    forall b :: b in disc ==> disc[b] <= bound && b in Ball(e, seeds, disc[b])
  }

  ghost predicate AllFollowed(g: CellGraph, disc: map<int, nat>, seen: set<int>, maxDepth: nat) {
    forall b {:trigger Followed(g, disc, b)} :: b in seen && b in disc && disc[b] < maxDepth ==> Followed(g, disc, b)
  }

  ghost predicate Pending(disc: map<int, nat>, frontier: seq<int>, level: nat) {
    && Known(disc, frontier, level)
    && forall b :: b in disc && disc[b] == level ==> b in frontier
  }

  ghost predicate EnteredSeen(g: CellGraph, seen: set<int>, entered: set<Entry>) {
    forall en :: en in entered <==> EnteredFrom(g, (iset b | b in seen), en)
  }

  // --- one cell ---------------------------------------------------------

  ghost function Discover(disc: map<int, nat>, list: seq<int>, k: nat): (r: map<int, nat>)
    ensures forall c :: c in disc ==> c in r && r[c] == disc[c]
    ensures forall c :: c in r && c !in disc ==> c in list && r[c] == k
    ensures forall c :: c in list ==> c in r
  {
    map c | c in disc.Keys + (set x | x in list) :: if c in disc then disc[c] else k
  }

  // Everything known stays known, at the same level.
  ghost predicate Extends(disc: map<int, nat>, disc': map<int, nat>, k: nat) {
    && (forall c :: c in disc ==> c in disc' && disc'[c] == disc[c])
    && (forall c :: c in disc' && c !in disc ==> disc'[c] == k)
  }

  // State while the cells of one net at `depth` are gone through.
  ghost predicate CellState(g: CellGraph, e: Edges, seeds: iset<int>, depth: nat, disc: map<int, nat>,
                            expAt: map<nat, nat>, expanded: set<nat>, nxt: seq<int>) {
    && Sound(e, seeds, disc, depth + 1) && Pending(disc, nxt, depth + 1)
    && expAt.Keys == expanded && ExpandedClosed(g, expAt, disc, depth + 1)
  }

  // Expand one passing cell unless it was expanded before.
  method ExpandCell(g: CellGraph, ghost e: Edges, ghost seeds: iset<int>, once: bool, ghost b: int, ghost depth: nat,
                    en: Entry, ghost disc: map<int, nat>, ghost expAt: map<nat, nat>, expanded: set<nat>,
                    nxt: seq<int>)
    returns (ghost disc': map<int, nat>, ghost expAt': map<nat, nat>, expanded': set<nat>, nxt': seq<int>)
    requires ValidGraph(g) && e == CellEdges(g)
    requires b in disc && disc[b] == depth && en in Entries(g, b) && en.pass
    requires CellState(g, e, seeds, depth, disc, expAt, expanded, nxt)
    ensures CellState(g, e, seeds, depth, disc', expAt', expanded', nxt')
    ensures Extends(disc, disc', depth + 1)
    ensures Known(disc', g.nets[en.cell], depth + 1)
  {
    disc', expAt', expanded', nxt' := disc, expAt, expanded, nxt;
    if !(once && en.cell in expanded) {
      var list := g.nets[en.cell];
      disc' := Discover(disc, list, depth + 1);
      NewNetsSound(g, e, seeds, disc, list, depth, b, en);
      expanded' := expanded + {en.cell};
      expAt' := if en.cell in expAt then expAt else expAt[en.cell := depth];
      nxt' := nxt + list;
      StateAfterExpand(g, e, seeds, depth, disc, expAt, nxt, en.cell);
    }
  }

  lemma StateAfterExpand(g: CellGraph, e: Edges, seeds: iset<int>, depth: nat, disc: map<int, nat>,
                         expAt: map<nat, nat>, nxt: seq<int>, x: nat)
    requires x < |g.nets| && Pending(disc, nxt, depth + 1) && ExpandedClosed(g, expAt, disc, depth + 1)
    requires forall c :: c in disc ==> disc[c] <= depth + 1
    ensures var disc' := Discover(disc, g.nets[x], depth + 1);
            && Pending(disc', nxt + g.nets[x], depth + 1)
            && ExpandedClosed(g, if x in expAt then expAt else expAt[x := depth], disc', depth + 1)
            && Known(disc', g.nets[x], depth + 1)
  {
    var disc' := Discover(disc, g.nets[x], depth + 1);
    var expAt' := if x in expAt then expAt else expAt[x := depth];
    forall y | y in expAt' ensures Known(disc', g.nets[y], expAt'[y] + 1) {
      if y in expAt {
        assert Known(disc, g.nets[y], expAt[y] + 1);
      }
    }
  }

  // Go through the cells entered from net b, first met at `depth`.
  method VisitCells(g: CellGraph, ghost e: Edges, ghost seeds: iset<int>, once: bool, maxDepth: nat, b: int, depth: nat,
                    ghost disc: map<int, nat>, ghost expAt: map<nat, nat>, expanded: set<nat>, nxt: seq<int>,
                    entered: set<Entry>)
    returns (ghost disc': map<int, nat>, ghost expAt': map<nat, nat>, expanded': set<nat>, nxt': seq<int>,
             entered': set<Entry>)
    requires ValidGraph(g) && e == CellEdges(g)
    requires b in disc && disc[b] == depth && depth <= maxDepth
    requires CellState(g, e, seeds, depth, disc, expAt, expanded, nxt)
    ensures CellState(g, e, seeds, depth, disc', expAt', expanded', nxt')
    ensures Extends(disc, disc', depth + 1)
    ensures depth < maxDepth ==> Followed(g, disc', b)
    ensures depth == maxDepth ==> nxt' == nxt && disc' == disc
    ensures forall en :: en in entered' <==> en in entered || en in Entries(g, b)
  {
    disc', expAt', expanded', nxt', entered' := disc, expAt, expanded, nxt, entered;
    var ens := Entries(g, b);
    for i := 0 to |ens|
      invariant CellState(g, e, seeds, depth, disc', expAt', expanded', nxt')
      invariant Extends(disc, disc', depth + 1)
      invariant depth < maxDepth ==> FollowedUpTo(g, ens, disc', depth, i)
      invariant depth == maxDepth ==> nxt' == nxt && disc' == disc
      invariant forall en :: en in entered' <==> en in entered || en in ens[..i]
    {
      var en := ens[i];
      assert en in Entries(g, b);
      assert ens[..i + 1] == ens[..i] + [en];
      entered' := entered' + {en};
      if en.pass && depth < maxDepth {
        ghost var was := disc';
        disc', expAt', expanded', nxt' :=
          ExpandCell(g, e, seeds, once, b, depth, en, disc', expAt', expanded', nxt');
        FollowedStep(g, ens, was, disc', depth, i);
      }
    }
  }

  ghost predicate FollowedUpTo(g: CellGraph, ens: seq<Entry>, disc: map<int, nat>, depth: nat, i: nat) {
    forall j :: 0 <= j < i && j < |ens| && ens[j].pass && ens[j].cell < |g.nets| ==>
      Known(disc, g.nets[ens[j].cell], depth + 1)
  }

  lemma FollowedStep(g: CellGraph, ens: seq<Entry>, disc: map<int, nat>, disc': map<int, nat>, depth: nat, i: nat)
    requires i < |ens| && FollowedUpTo(g, ens, disc, depth, i) && Extends(disc, disc', depth + 1)
    requires ens[i].cell < |g.nets| && Known(disc', g.nets[ens[i].cell], depth + 1)
    ensures FollowedUpTo(g, ens, disc', depth, i + 1)
  {
    forall j | 0 <= j < i && ens[j].pass && ens[j].cell < |g.nets|
      ensures Known(disc', g.nets[ens[j].cell], depth + 1)
    {
      assert Known(disc, g.nets[ens[j].cell], depth + 1);
    }
  }

  lemma NewNetsSound(g: CellGraph, e: Edges, seeds: iset<int>, disc: map<int, nat>, list: seq<int>, depth: nat,
                     b: int, en: Entry)
    requires ValidGraph(g) && e == CellEdges(g) && Sound(e, seeds, disc, depth + 1)
    requires b in disc && disc[b] == depth && en in Entries(g, b) && en.pass && list == g.nets[en.cell]
    ensures Sound(e, seeds, Discover(disc, list, depth + 1), depth + 1)
  {
    forall c | c in list ensures c in Ball(e, seeds, depth + 1) {
      assert Leads(g, b, c);
      assert (b, c) in e;
      BallStep(e, seeds, depth, b, c);
    }
  }

  // --- one level --------------------------------------------------------

  ghost predicate LevelState(g: CellGraph, e: Edges, seeds: iset<int>, maxDepth: nat, level: nat, disc: map<int, nat>,
                             expAt: map<nat, nat>, expanded: set<nat>, seen: set<int>, entered: set<Entry>,
                             frontier: seq<int>) {
    && Sound(e, seeds, disc, level) && Pending(disc, frontier, level)
    && (forall b :: b in seeds ==> b in disc && disc[b] == 0)
    && expAt.Keys == expanded && ExpandedClosed(g, expAt, disc, level)
    && (forall b :: b in seen <==> b in disc && disc[b] < level)
    && AllFollowed(g, disc, seen, maxDepth)
    && EnteredSeen(g, seen, entered)
  }

  lemma FollowedSurvives(g: CellGraph, disc: map<int, nat>, disc': map<int, nat>, k: nat, b: int)
    requires Followed(g, disc, b) && Extends(disc, disc', k)
    ensures Followed(g, disc', b)
  {
    forall en | en in Entries(g, b) && en.pass && en.cell < |g.nets|
      ensures Known(disc', g.nets[en.cell], disc'[b] + 1)
    {
      assert Known(disc, g.nets[en.cell], disc[b] + 1);
    }
  }

  lemma EnteredOneMore(g: CellGraph, seen: set<int>, b: int, entered: set<Entry>, entered': set<Entry>)
    requires EnteredSeen(g, seen, entered)
    requires forall en :: en in entered' <==> en in entered || en in Entries(g, b)
    ensures EnteredSeen(g, seen + {b}, entered')
  {
    forall en ensures en in entered' <==> EnteredFrom(g, (iset x | x in seen + {b}), en) {
      assert en in entered <==> EnteredFrom(g, (iset x | x in seen), en);
      if EnteredFrom(g, (iset x | x in seen), en) {
        var x :| x in seen && en in Entries(g, x);
        assert x in (iset y | y in seen + {b});
      }
      if en in Entries(g, b) {
        assert b in (iset y | y in seen + {b});
      }
    }
  }

  method VisitLevel(g: CellGraph, ghost e: Edges, ghost seeds: iset<int>, once: bool, maxDepth: nat, level: nat,
                    ghost disc: map<int, nat>, ghost expAt: map<nat, nat>, expanded: set<nat>, seen: set<int>,
                    entered: set<Entry>, frontier: seq<int>)
    returns (ghost disc': map<int, nat>, ghost expAt': map<nat, nat>, expanded': set<nat>, seen': set<int>,
             entered': set<Entry>, nxt: seq<int>)
    requires ValidGraph(g) && e == CellEdges(g) && level <= maxDepth
    requires LevelState(g, e, seeds, maxDepth, level, disc, expAt, expanded, seen, entered, frontier)
    ensures LevelState(g, e, seeds, maxDepth, level + 1, disc', expAt', expanded', seen', entered', nxt)
    ensures level == maxDepth ==> nxt == []
  {
    disc', expAt', expanded', seen', entered', nxt := disc, expAt, expanded, seen, entered, [];
    for i := 0 to |frontier|
      invariant Extends(disc, disc', level + 1) && CellState(g, e, seeds, level, disc', expAt', expanded', nxt)
      invariant forall b :: b in seen' <==> b in seen || b in frontier[..i]
      invariant AllFollowed(g, disc', seen', maxDepth)
      invariant EnteredSeen(g, seen', entered')
      invariant level == maxDepth ==> nxt == [] && disc' == disc
    {
      var b := frontier[i];
      assert b in frontier;
      assert frontier[..i + 1] == frontier[..i] + [b];
      if b !in seen' {
        ghost var was, wasEntered := disc', entered';
        disc', expAt', expanded', nxt, entered' :=
          VisitCells(g, e, seeds, once, maxDepth, b, level, disc', expAt', expanded', nxt, entered');
        EnteredOneMore(g, seen', b, wasEntered, entered');
        forall x | x in seen' && x in disc' && disc'[x] < maxDepth ensures Followed(g, disc', x) {
          assert Followed(g, was, x);
          FollowedSurvives(g, was, disc', level + 1, x);
        }
        seen' := seen' + {b};
      }
    }
    assert frontier[..|frontier|] == frontier;
  }

  // The walk, expanding each cell once or every time it is met.
  method Walk(g: CellGraph, start: seq<int>, maxDepth: nat, once: bool) returns (entered: set<Entry>)
    requires ValidGraph(g)
    ensures EnteredExactly(g, start, maxDepth, entered)
  {
    ghost var e, seeds := CellEdges(g), Start(start);
    ghost var disc: map<int, nat> := map b | b in start :: 0;
    ghost var expAt: map<nat, nat> := map[];
    var expanded: set<nat>, seen: set<int>, frontier := {}, {}, start;
    entered := {};
    var level := 0;
    while frontier != []
      invariant level <= maxDepth + 1 && (level == maxDepth + 1 ==> frontier == [])
      invariant LevelState(g, e, seeds, maxDepth, level, disc, expAt, expanded, seen, entered, frontier)
      decreases maxDepth + 1 - level
    {
      disc, expAt, expanded, seen, entered, frontier :=
        VisitLevel(g, e, seeds, once, maxDepth, level, disc, expAt, expanded, seen, entered, frontier);
      level := level + 1;
    }
    SeenIsBall(g, e, seeds, maxDepth, disc, seen);
    EnteredFromSeen(g, Ball(e, seeds, maxDepth), seen, entered);
  }

  lemma EnteredFromSeen(g: CellGraph, nets: iset<int>, seen: set<int>, entered: set<Entry>)
    requires EnteredSeen(g, seen, entered) && forall b :: b in seen <==> b in nets
    ensures forall en :: en in entered <==> EnteredFrom(g, nets, en)
  {
    assert forall b :: b in (iset x | x in seen) <==> b in nets;
    assert (iset x: int | x in seen) == nets;
  }

  lemma SeenIsBall(g: CellGraph, e: Edges, seeds: iset<int>, maxDepth: nat, disc: map<int, nat>, seen: set<int>)
    requires e == CellEdges(g) && Sound(e, seeds, disc, maxDepth)
    requires forall b :: b in seeds ==> b in disc && disc[b] == 0
    requires forall b :: b in seen <==> b in disc
    requires AllFollowed(g, disc, seen, maxDepth)
    ensures forall b :: b in seen <==> b in Ball(e, seeds, maxDepth)
  {
    forall b ensures b in seen <==> b in Ball(e, seeds, maxDepth) {
      if b in seen {
        BallGrows(e, seeds, disc[b], maxDepth);
      }
      if b in Ball(e, seeds, maxDepth) {
        FollowedIsClosed(g, disc, seen, maxDepth);
        BallIsSeen(e, seeds, maxDepth, disc, maxDepth, b);
      }
    }
  }

  lemma FollowedIsClosed(g: CellGraph, disc: map<int, nat>, seen: set<int>, maxDepth: nat)
    requires forall x :: x in seen <==> x in disc
    requires AllFollowed(g, disc, seen, maxDepth)
    ensures EdgeClosed(CellEdges(g), disc, maxDepth)
  {
    forall a, b | (a, b) in CellEdges(g) && a in disc && disc[a] < maxDepth
      ensures b in disc && disc[b] <= disc[a] + 1
    {
      assert Leads(g, a, b);
      assert Followed(g, disc, a);
    }
  }
}
