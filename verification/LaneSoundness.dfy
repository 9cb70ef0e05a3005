/**
 The lane-precise fan-out never drops a real dependency: a net the walk cannot
 reach keeps its combinational value when the source changes.  Two shapes break
 this: a select bus as wide as the output, and an output pin other than `Y`.
 */
module LaneSoundness {
  import opened Netlist
  import opened Graph
  import opened Fanout

  const SELECTING_TYPES: set<string> := { "$mux", "$pmux", "$_MUX_" }

  // Input position `pin[idx]` of `c`.
  ghost predicate IsInput(c: Cell, p: nat, idx: nat) {
    && p < |c.pins| && idx < |c.pins[p].bits|
    && c.pins[p].port != "CLK" && c.pins[p].port != "Y"
  }

  // Can output lane k of `c` depend on input position pin[idx]?  This is the
  // meaning of the cell library, not of the walk: bitwise cells and mux data
  // legs work lane by lane when the widths match, leg `j` of a `$pmux` is the
  // slice of `B` at `j * width`, a select steers every lane, and any other
  // cell may use everything.
  ghost predicate DependsOn(c: Cell, p: nat, idx: nat, k: nat)
    requires IsInput(c, p, idx)
  {
    var w := |Conn(c, "Y")|;
    var port := c.pins[p].port;
    if c.ctype !in LANE_ALIGNED_TYPES then true
    else if c.ctype in SELECTING_TYPES && port == "S" then true
    else if c.ctype == "$pmux" && port == "B" then exists j: nat :: idx == j * w + k
    else |c.pins[p].bits| == w ==> idx == k
  }

  // Every net an output lane can depend on has an edge to that lane's net.
  ghost predicate EdgesCover(c: Cell) {
    forall p: nat, idx: nat, k: nat ::
      IsInput(c, p, idx) && c.pins[p].bits[idx].Net? && k < |Conn(c, "Y")| && DependsOn(c, p, idx, k) ==>
      Conn(c, "Y")[k] in LaneTargets(c, c.pins[p].port, idx)
  }

  // A select net whose lane-wise edge misses one of the outputs it steers.
  predicate SelectAliased(c: Cell) {
    var s, y := Conn(c, "S"), Conn(c, "Y");
    && c.ctype in SELECTING_TYPES
    && |s| == |y|
    && exists j, k :: 0 <= j < |s| && 0 <= k < |y| && s[j].Net? && y[k] != y[j]
  }

  lemma SelectingAreAligned()
    ensures SELECTING_TYPES <= LANE_ALIGNED_TYPES
  {
  }

  // The walk's edges cover the dependencies of a cell exactly when its select is not aliased.
  lemma EdgesCoverIffNotAliased(c: Cell)
    requires ValidCell(c)
    ensures EdgesCover(c) <==> !SelectAliased(c)
  {
    if SelectAliased(c) {
      AliasedIsNotCovered(c);
    } else {
      forall p: nat, idx: nat, k: nat | IsInput(c, p, idx) && c.pins[p].bits[idx].Net? && k < |Conn(c, "Y")| &&
          DependsOn(c, p, idx, k)
        ensures Conn(c, "Y")[k] in LaneTargets(c, c.pins[p].port, idx)
      {
        NotAliasedCovers(c, p, idx, k);
      }
    }
  }

  lemma AliasedIsNotCovered(c: Cell)
    requires ValidCell(c) && SelectAliased(c)
    ensures !EdgesCover(c)
  {
    SelectingAreAligned();
    var s, y := Conn(c, "S"), Conn(c, "Y");
    var j, k :| 0 <= j < |s| && 0 <= k < |y| && s[j].Net? && y[k] != y[j];
    var p :| 0 <= p < |c.pins| && c.pins[p] == Pin("S", s);
    assert IsInput(c, p, j) && DependsOn(c, p, j, k);
    assert LaneTargets(c, c.pins[p].port, j) == [y[j]];
    assert y[k] !in LaneTargets(c, c.pins[p].port, j);
  }

  lemma NotAliasedCovers(c: Cell, p: nat, idx: nat, k: nat)
    requires ValidCell(c) && !SelectAliased(c)
    requires IsInput(c, p, idx) && c.pins[p].bits[idx].Net? && k < |Conn(c, "Y")| && DependsOn(c, p, idx, k)
    ensures Conn(c, "Y")[k] in LaneTargets(c, c.pins[p].port, idx)
  {
    var y := Conn(c, "Y");
    ConnIsPin(c, p);
    if c.ctype in LANE_ALIGNED_TYPES && |c.pins[p].bits| == |y| && idx != k {
      FirstSliceOnly(idx, |y|, k);
      if c.pins[p].port == "S" {
        assert y[k] == y[idx];
      }
    }
  }

  // Which pins of a cell type are outputs; the listed types have only `Y`.
  type Directions = (string, string) -> bool

  predicate IsOutput(dir: Directions, c: Cell, port: string) {
    port == "Y" || (c.ctype !in LANE_ALIGNED_TYPES && port != "CLK" && dir(c.ctype, port))
  }

  predicate IsOtherOutput(dir: Directions, c: Cell, o: nat) {
    o < |c.pins| && c.pins[o].port != "Y" && IsOutput(dir, c, c.pins[o].port)
  }

  // A net on an output pin the walk does not look at, as the data of a memory read,
  // the `Q` of a latch or the carries of an `$alu`.
  ghost predicate HasOtherOutput(dir: Directions, c: Cell) {
    exists o: nat, k: nat :: IsOtherOutput(dir, c, o) && k < |c.pins[o].bits| && c.pins[o].bits[k].Net?
  }

  ghost predicate IsDataInput(dir: Directions, c: Cell, p: nat, idx: nat) {
    IsInput(c, p, idx) && !IsOutput(dir, c, c.pins[p].port) && c.pins[p].bits[idx].Net?
  }

  // Every net the cell drives, by whatever pin, that can depend on an input net has
  // an edge from it.
  ghost predicate AllOutputsCovered(dir: Directions, c: Cell) {
    && (forall p: nat, idx: nat, k: nat ::
          IsDataInput(dir, c, p, idx) && k < |Conn(c, "Y")| && DependsOn(c, p, idx, k) ==>
          Conn(c, "Y")[k] in LaneTargets(c, c.pins[p].port, idx))
    && (forall p: nat, idx: nat, o: nat, k: nat ::
          IsDataInput(dir, c, p, idx) && IsOtherOutput(dir, c, o) && k < |c.pins[o].bits| && c.pins[o].bits[k].Net? ==>
          c.pins[o].bits[k] in LaneTargets(c, c.pins[p].port, idx))
  }

  // No net is on `Y` and on another output at once.
  ghost predicate OutputsApart(dir: Directions, c: Cell) {
    forall o: nat, k: nat ::
      IsOtherOutput(dir, c, o) && k < |c.pins[o].bits| && c.pins[o].bits[k].Net? ==> c.pins[o].bits[k] !in Conn(c, "Y")
  }

  // The edges of a cell miss nothing exactly when its select is not aliased and, if
  // it has an input net at all, it drives nets through `Y` alone.
  lemma AllOutputsCoveredIff(dir: Directions, c: Cell)
    requires ValidCell(c) && OutputsApart(dir, c)
    ensures AllOutputsCovered(dir, c) <==>
            && !SelectAliased(c)
            && ((exists p: nat, idx: nat :: IsDataInput(dir, c, p, idx)) ==> !HasOtherOutput(dir, c))
  {
    EdgesCoverIffNotAliased(c);
    if c.ctype in LANE_ALIGNED_TYPES {
      assert AllOutputsCovered(dir, c) <==> EdgesCover(c);
    } else {
      SelectingAreAligned();
      assert forall p: nat, idx: nat :: IsDataInput(dir, c, p, idx) ==>
          LaneTargets(c, c.pins[p].port, idx) == Conn(c, "Y");
    }
  }

  // Within the first `w` positions only slice 0 has lane k.
  lemma FirstSliceOnly(idx: nat, w: nat, k: nat)
    requires idx < w
    ensures (exists j: nat :: idx == j * w + k) ==> idx == k
  {
    if exists j: nat :: idx == j * w + k {
      var j: nat :| idx == j * w + k;
      assert j == 0 || j * w >= w;
    }
  }

  // --- evaluation -------------------------------------------------------

  // Output lane k of a cell under a valuation of the nets.
  type Meaning = (Cell, nat, Valuation) -> bool

  ghost predicate AgreeOn(v: Valuation, w: Valuation, bit: Bit) {
    bit.Net? ==> v(bit.id) == w(bit.id)
  }

  ghost predicate SameInputs(c: Cell, k: nat, v: Valuation, w: Valuation) {
    forall p: nat, idx: nat :: IsInput(c, p, idx) && DependsOn(c, p, idx, k) ==> AgreeOn(v, w, c.pins[p].bits[idx])
  }

  // Any cell meanings at all, as long as a lane only uses what it may depend on.
  ghost predicate LegalMeaning(f: Meaning) {
    forall c: Cell, k: nat, v: Valuation, w: Valuation {:trigger f(c, k, v), f(c, k, w)} ::
      SameInputs(c, k, v, w) ==> f(c, k, v) == f(c, k, w)
  }

  // A transit cell drives net x through some output pin.
  ghost predicate Driven(dir: Directions, m: Module, x: int) {
    exists i: nat, p: nat :: i < |m.cells| && Transit(m.cells[i]) && DrivesBy(dir, m.cells[i], p, x)
  }

  ghost predicate DrivesBy(dir: Directions, c: Cell, p: nat, x: int) {
    p < |c.pins| && IsOutput(dir, c, c.pins[p].port) && Net(x) in c.pins[p].bits
  }

  ghost predicate Drives(m: Module, i: nat, k: nat, b: int) {
    i < |m.cells| && Transit(m.cells[i]) && k < |Conn(m.cells[i], "Y")| && Conn(m.cells[i], "Y")[k] == Net(b)
  }

  // Every combinationally driven net carries the value its cell computes.
  ghost predicate Settled(m: Module, f: Meaning, v: Valuation) {
    forall i: nat, k: nat, b: int :: Drives(m, i, k, b) ==> v(b) == f(m.cells[i], k, v)
  }

  // Combinational logic without loops.
  ghost predicate Acyclic(m: Module, rank: int -> nat) {
    forall i: nat, k: nat, b: int, p: nat, idx: nat, a: int
      {:trigger Drives(m, i, k, b), IsInput(m.cells[i], p, idx), rank(a)} ::
      Drives(m, i, k, b) && IsInput(m.cells[i], p, idx) && m.cells[i].pins[p].bits[idx] == Net(a) ==> rank(a) < rank(b)
  }

  ghost predicate Reached(e: Edges, seeds: iset<int>, b: int) {
    exists n: nat :: b in Ball(e, seeds, n)
  }

  lemma ReachedStep(e: Edges, seeds: iset<int>, a: int, b: int)
    requires Reached(e, seeds, a) && (a, b) in e
    ensures Reached(e, seeds, b)
  {
    var n: nat :| a in Ball(e, seeds, n);
    BallStep(e, seeds, n, a, b);
  }

  lemma SourceReached(e: Edges, seeds: iset<int>, b: int)
    requires b in seeds
    ensures Reached(e, seeds, b)
  {
    assert b in Ball(e, seeds, 0);
  }

  // The cells data passes through lose nothing on the way: no aliased select, and
  // nets driven through `Y` alone.
  ghost predicate NothingHidden(dir: Directions, m: Module) {
    forall i :: 0 <= i < |m.cells| && Transit(m.cells[i]) ==>
      !SelectAliased(m.cells[i]) && !HasOtherOutput(dir, m.cells[i])
  }

  // Then what a transit cell drives, it drives through `Y`.
  lemma DrivenByY(dir: Directions, m: Module, x: int)
    requires ValidModule(m) && NothingHidden(dir, m) && Driven(dir, m, x)
    ensures exists i: nat, k: nat :: Drives(m, i, k, x)
  {
    var i: nat, p: nat :| i < |m.cells| && Transit(m.cells[i]) && DrivesBy(dir, m.cells[i], p, x);
    var k: nat :| k < |m.cells[i].pins[p].bits| && m.cells[i].pins[p].bits[k] == Net(x);
    ConnIsPin(m.cells[i], p);
    assert Drives(m, i, k, x);
  }

  // What an unreached net depends on is unreached.
  lemma InputIsUnreached(m: Module, source: iset<int>, i: nat, p: nat, idx: nat, k: nat, a: int, b: int)
    requires Drives(m, i, k, b) && ValidCell(m.cells[i]) && !SelectAliased(m.cells[i])
    requires IsInput(m.cells[i], p, idx) && m.cells[i].pins[p].bits[idx] == Net(a) && DependsOn(m.cells[i], p, idx, k)
    requires !Reached(DataEdges(m, true), source, b)
    ensures !Reached(DataEdges(m, true), source, a)
  {
    NotAliasedCovers(m.cells[i], p, idx, k);
    assert Feeds(m, true, Site(i, p, idx), a, b);
    if Reached(DataEdges(m, true), source, a) {
      ReachedStep(DataEdges(m, true), source, a, b);
    }
  }

  // Two settled valuations that differ, of the nets no transit cell drives, only on
  // the source agree wherever the lane-precise walk from the source does not reach.
  lemma {:induction false} UnreachedKeepsValue(dir: Directions, m: Module, f: Meaning, v: Valuation, w: Valuation,
                                               source: iset<int>, rank: int -> nat, b: int)
    requires ValidModule(m) && LegalMeaning(f) && Acyclic(m, rank)
    requires Settled(m, f, v) && Settled(m, f, w)
    requires NothingHidden(dir, m)
    requires forall x: int {:trigger Driven(dir, m, x)} :: x !in source && !Driven(dir, m, x) ==> v(x) == w(x)
    requires !Reached(DataEdges(m, true), source, b)
    ensures v(b) == w(b)
    decreases rank(b)
  {
    var e := DataEdges(m, true);
    if b in source {
      SourceReached(e, source, b);
    } else if Driven(dir, m, b) {
      DrivenByY(dir, m, b);
      var i: nat, k: nat :| Drives(m, i, k, b);
      var c := m.cells[i];
      forall p: nat, idx: nat | IsInput(c, p, idx) && DependsOn(c, p, idx, k)
        ensures AgreeOn(v, w, c.pins[p].bits[idx])
      {
        if c.pins[p].bits[idx].Net? {
          var a := c.pins[p].bits[idx].id;
          InputIsUnreached(m, source, i, p, idx, k, a, b);
          assert rank(a) < rank(b);
          UnreachedKeepsValue(dir, m, f, v, w, source, rank, a);
        }
      }
      assert SameInputs(c, k, v, w);
    }
  }

  // --- the meanings of the listed cells ---------------------------------

  // Operand bit k, extended with `pad` beyond its width.
  function Operand(c: Cell, port: string, k: nat, pad: bool, v: Valuation): bool {
    if k < |Conn(c, port)| then ValueOf(v, Conn(c, port)[k]) else pad
  }

  // The first select bit that is set, if any.
  function FirstSet(bits: seq<Bit>, v: Valuation): Option<nat> {
    if bits == [] then None
    else if ValueOf(v, bits[0]) then Some(0)
    else match FirstSet(bits[1..], v) case None => None case Some(j) => Some(j + 1)
  }

  // Lane k of the selecting cells: `S` low takes `A`, select bit j takes slice j of `B`.
  function SelectMeaning(c: Cell, k: nat, v: Valuation): bool {
    match FirstSet(Conn(c, "S"), v)
    case None => Operand(c, "A", k, false, v)
    case Some(j) => Operand(c, "B", j * |Conn(c, "Y")| + k, false, v)
  }

  const BITWISE_TYPES: set<string> := {
    "$and", "$or", "$xor", "$xnor", "$not", "$buf", "$pos",
    "$_AND_", "$_OR_", "$_XOR_", "$_XNOR_", "$_NOT_", "$_NAND_", "$_NOR_", "$_ANDNOT_", "$_ORNOT_", "$_BUF_"
  }

  function BitOp(ctype: string, a: bool, b: bool): bool {
    match ctype
    case "$and" => a && b
    case "$_AND_" => a && b
    case "$or" => a || b
    case "$_OR_" => a || b
    case "$xor" => a != b
    case "$_XOR_" => a != b
    case "$xnor" => a == b
    case "$_XNOR_" => a == b
    case "$not" => !a
    case "$_NOT_" => !a
    case "$_NAND_" => !(a && b)
    case "$_NOR_" => !(a || b)
    case "$_ANDNOT_" => a && !b
    case "$_ORNOT_" => a || !b
    case _ => a
  }

  // The cell library: bitwise cells, the selecting cells, `$bwmux`, and `rest` for all others.
  function Library(rest: Meaning, c: Cell, k: nat, v: Valuation): bool {
    if k >= |Conn(c, "Y")| then false
    else if c.ctype in SELECTING_TYPES then SelectMeaning(c, k, v)
    else if c.ctype == "$bwmux" then
      (if Operand(c, "S", k, false, v) then Operand(c, "B", k, false, v) else Operand(c, "A", k, false, v))
    else if c.ctype in BITWISE_TYPES then BitOp(c.ctype, Operand(c, "A", k, false, v), Operand(c, "B", k, false, v))
    else rest(c, k, v)
  }

  ghost function LibraryOf(rest: Meaning): Meaning {
    (c: Cell, k: nat, v: Valuation) => Library(rest, c, k, v)
  }

  // An operand bit the lane may depend on has the same value on both sides.
  lemma OperandAgrees(c: Cell, port: string, idx: nat, k: nat, v: Valuation, w: Valuation)
    requires SameInputs(c, k, v, w)
    requires port != "CLK" && port != "Y"
    requires forall p: nat :: IsInput(c, p, idx) && c.pins[p].port == port && c.pins[p].bits == Conn(c, port) ==>
        DependsOn(c, p, idx, k)
    ensures Operand(c, port, idx, false, v) == Operand(c, port, idx, false, w)
  {
    if idx < |Conn(c, port)| {
      var p: nat :| p < |c.pins| && c.pins[p] == Pin(port, Conn(c, port));
      assert IsInput(c, p, idx);
    }
  }

  lemma {:induction false} FirstSetAgrees(bits: seq<Bit>, v: Valuation, w: Valuation)
    requires forall i :: 0 <= i < |bits| ==> ValueOf(v, bits[i]) == ValueOf(w, bits[i])
    ensures FirstSet(bits, v) == FirstSet(bits, w)
  {
    if bits != [] {
      FirstSetAgrees(bits[1..], v, w);
    }
  }

  lemma SelectAgrees(c: Cell, k: nat, v: Valuation, w: Valuation)
    requires c.ctype in SELECTING_TYPES && k < |Conn(c, "Y")|
    requires SameInputs(c, k, v, w)
    ensures SelectMeaning(c, k, v) == SelectMeaning(c, k, w)
  {
    var s := Conn(c, "S");
    SelectBitsAgree(c, k, v, w);
    FirstSetAgrees(s, v, w);
    match FirstSet(s, v) {
      case None => DataLegAgrees(c, "A", 0, k, k, v, w);
      case Some(j) => DataLegAgrees(c, "B", j, j * |Conn(c, "Y")| + k, k, v, w);
    }
  }

  lemma SelectBitsAgree(c: Cell, k: nat, v: Valuation, w: Valuation)
    requires c.ctype in SELECTING_TYPES && k < |Conn(c, "Y")|
    requires SameInputs(c, k, v, w)
    ensures forall i :: 0 <= i < |Conn(c, "S")| ==> ValueOf(v, Conn(c, "S")[i]) == ValueOf(w, Conn(c, "S")[i])
  {
    SelectingAreAligned();
    forall i | 0 <= i < |Conn(c, "S")| ensures ValueOf(v, Conn(c, "S")[i]) == ValueOf(w, Conn(c, "S")[i]) {
      OperandAgrees(c, "S", i, k, v, w);
    }
  }

  // Lane k of slice j of a data operand.
  lemma DataLegAgrees(c: Cell, port: string, j: nat, idx: nat, k: nat, v: Valuation, w: Valuation)
    requires c.ctype in SELECTING_TYPES && k < |Conn(c, "Y")| && (port == "A" || port == "B")
    requires idx == j * |Conn(c, "Y")| + k && (port == "A" ==> idx == k)
    requires SameInputs(c, k, v, w)
    ensures Operand(c, port, idx, false, v) == Operand(c, port, idx, false, w)
  {
    forall p: nat | IsInput(c, p, idx) && c.pins[p].port == port && c.pins[p].bits == Conn(c, port)
      ensures DependsOn(c, p, idx, k)
    {
      SliceIsDependency(c, p, j, idx, k);
    }
    OperandAgrees(c, port, idx, k, v, w);
  }

  lemma SliceIsDependency(c: Cell, p: nat, j: nat, idx: nat, k: nat)
    requires IsInput(c, p, idx) && c.ctype in SELECTING_TYPES && k < |Conn(c, "Y")|
    requires c.pins[p].port == "A" || c.pins[p].port == "B"
    requires idx == j * |Conn(c, "Y")| + k && (c.pins[p].port == "A" ==> idx == k)
    ensures DependsOn(c, p, idx, k)
  {
    SelectingAreAligned();
    if c.ctype != "$pmux" || c.pins[p].port == "A" {
      NarrowSlice(|c.pins[p].bits|, |Conn(c, "Y")|, j, idx, k);
    }
  }

  // A slice index within one width is the lane itself.
  lemma NarrowSlice(bits: nat, w: nat, j: nat, idx: nat, k: nat)
    requires idx == j * w + k && idx < bits && k < w
    ensures bits == w ==> idx == k
  {
    assert j > 0 ==> j * w >= w;
  }

  // The listed cells' meanings are legal, so the soundness statement covers them.
  lemma LibraryIsLegal(rest: Meaning)
    requires LegalMeaning(rest)
    ensures LegalMeaning(LibraryOf(rest))
  {
    forall c: Cell, k: nat, v: Valuation, w: Valuation | SameInputs(c, k, v, w)
      ensures LibraryOf(rest)(c, k, v) == LibraryOf(rest)(c, k, w)
    {
      LibraryLaneLegal(rest, c, k, v, w);
    }
  }

  lemma LibraryLaneLegal(rest: Meaning, c: Cell, k: nat, v: Valuation, w: Valuation)
    requires LegalMeaning(rest) && SameInputs(c, k, v, w)
    ensures Library(rest, c, k, v) == Library(rest, c, k, w)
  {
    if k < |Conn(c, "Y")| {
      if c.ctype in SELECTING_TYPES {
        SelectAgrees(c, k, v, w);
      } else if c.ctype == "$bwmux" || c.ctype in BITWISE_TYPES {
        OperandAgrees(c, "A", k, k, v, w);
        OperandAgrees(c, "B", k, k, v, w);
        OperandAgrees(c, "S", k, k, v, w);
      } else {
        assert rest(c, k, v) == rest(c, k, w);
      }
    }
  }

  // A `$pmux` with two select bits and two output bits: the walk from select
  // bit 0 never reaches output 1, yet output 1 follows it.
  const ALIASED_PMUX := Cell("pm", "$pmux", [
    Pin("A", [Const('0'), Const('0')]),
    Pin("B", [Const('1'), Const('1'), Const('0'), Const('0')]),
    Pin("S", [Net(1), Net(2)]),
    Pin("Y", [Net(3), Net(4)])
  ])

  const ALIASED_MODULE := Module([], [ALIASED_PMUX])

  lemma AliasedSelectLosesDependency(v: Valuation, w: Valuation)
    requires !v(1) && !v(2) && w(1) && !w(2)
    ensures SelectAliased(ALIASED_PMUX)
    ensures SelectMeaning(ALIASED_PMUX, 1, v) != SelectMeaning(ALIASED_PMUX, 1, w)
    ensures !Reached(DataEdges(ALIASED_MODULE, true), iset{1}, 4)
  {
    AliasedConns();
    assert Conn(ALIASED_PMUX, "S")[0].Net? && Conn(ALIASED_PMUX, "Y")[1] != Conn(ALIASED_PMUX, "Y")[0];
    SelectingAreAligned();
    TwoSelects(v);
    TwoSelects(w);
    if Reached(DataEdges(ALIASED_MODULE, true), iset{1}, 4) {
      AliasedReach();
    }
  }

  lemma TwoSelects(v: Valuation)
    requires !v(2)
    ensures FirstSet([Net(1), Net(2)], v) == if v(1) then Some(0) else None
  {
    assert [Net(2)][1..] == [] && [Net(1), Net(2)][1..] == [Net(2)];
    assert FirstSet([Net(2)], v) == None;
  }

  // From select bit 0 the walk stays on output 0.
  lemma AliasedReach()
    ensures !Reached(DataEdges(ALIASED_MODULE, true), iset{1}, 4)
  {
    var e := DataEdges(ALIASED_MODULE, true);
    forall a, t | a in iset{1, 3} && (a, t) in e ensures t in iset{1, 3} {
      AliasedEdge(a, t);
    }
    if Reached(e, iset{1}, 4) {
      var n: nat :| 4 in Ball(e, iset{1}, n);
      ClosedSetBounds(e, iset{1}, iset{1, 3}, n);
    }
  }

  lemma AliasedConns()
    ensures Conn(ALIASED_PMUX, "A") == [Const('0'), Const('0')]
    ensures Conn(ALIASED_PMUX, "B") == [Const('1'), Const('1'), Const('0'), Const('0')]
    ensures Conn(ALIASED_PMUX, "S") == [Net(1), Net(2)]
    ensures Conn(ALIASED_PMUX, "Y") == [Net(3), Net(4)]
    ensures ValidCell(ALIASED_PMUX)
  {
    assert ValidCell(ALIASED_PMUX);
    ConnIsPin(ALIASED_PMUX, 0);
    ConnIsPin(ALIASED_PMUX, 1);
    ConnIsPin(ALIASED_PMUX, 2);
    ConnIsPin(ALIASED_PMUX, 3);
  }

  lemma AliasedEdge(a: int, t: int)
    requires (a, t) in DataEdges(ALIASED_MODULE, true) && (a == 1 || a == 3)
    ensures t == 3
  {
    var s :| Feeds(ALIASED_MODULE, true, s, a, t);
    AliasedSite(s, a);
    AliasedTargets("S");
    AliasedTargets("Y");
    assert Net(t) in [Net(3)];
  }

  // Where the pmux reads select bit 0 or carries output 0.
  lemma AliasedSite(s: Site, a: int)
    requires Reads(ALIASED_MODULE, s, a) && (a == 1 || a == 3)
    ensures s == Site(0, 2, 0) || s == Site(0, 3, 0)
    ensures SiteTargets(ALIASED_MODULE, s, true) == LaneTargets(ALIASED_PMUX, if s.pin == 2 then "S" else "Y", 0)
  {
    assert s.cell == 0;
    assert ALIASED_PMUX.pins[s.pin].bits[s.idx] == Net(a);
  }

  lemma AliasedTargets(port: string)
    requires port == "S" || port == "Y"
    ensures LaneTargets(ALIASED_PMUX, port, 0) == [Net(3)]
  {
    AliasedConns();
    SelectingAreAligned();
  }

  // --- outputs the walk does not look at --------------------------------

  predicate Differs(x: int, b: int) {
    x != b
  }

  // In every netlist a net that is on no `Y` pin is reached only if it is a source.
  lemma OnlyYIsReached(m: Module, lanes: bool, source: iset<int>, b: int)
    requires forall i :: 0 <= i < |m.cells| && Transit(m.cells[i]) ==> Net(b) !in Conn(m.cells[i], "Y")
    requires b !in source
    ensures !Reached(DataEdges(m, lanes), source, b)
  {
    var e := DataEdges(m, lanes);
    var others := iset x: int | Differs(x, b);
    forall a, t | a in others && (a, t) in e ensures t in others {
      var s :| Feeds(m, lanes, s, a, t);
    }
    if Reached(e, source, b) {
      var n: nat :| b in Ball(e, source, n);
      ClosedSetBounds(e, source, others, n);
    }
  }

  // A memory read and a transparent latch: the value that comes in on net 1 goes
  // out on net 2.
  const MEMORY_READ := Cell("rd", "$memrd", [Pin("ADDR", [Net(1)]), Pin("EN", [Const('1')]), Pin("DATA", [Net(2)])])

  const OPEN_LATCH := Cell("la", "$dlatch", [Pin("D", [Net(1)]), Pin("EN", [Const('1')]), Pin("Q", [Net(2)])])

  predicate OutputPins(ctype: string, port: string) {
    (ctype == "$memrd" && port == "DATA") || (ctype == "$dlatch" && port == "Q")
  }

  lemma HiddenOutputs(c: Cell)
    requires c == MEMORY_READ || c == OPEN_LATCH
    ensures HasOtherOutput(OutputPins, c) && Conn(c, "Y") == []
  {
    assert forall i :: 0 <= i < 3 ==> c.pins[i].port[0] != "Y"[0];
    assert IsOtherOutput(OutputPins, c, 2) && c.pins[2].bits[0].Net?;
  }

  lemma NotGateLevel(ctype: string)
    requires |ctype| > 1 && ctype[1] != '_'
    ensures forall p :: p in GATE_LEVEL_FF_PREFIXES ==> !(p <= ctype)
  {
    assert forall p :: p in GATE_LEVEL_FF_PREFIXES ==> p[1] == '_';
  }

  lemma HiddenIsPassed(c: Cell)
    requires c == MEMORY_READ || c == OPEN_LATCH
    ensures Transit(c) && !SelectAliased(c)
  {
    NotGateLevel(c.ctype);
  }

  // What is on net 2: the stored bit the address selects, or the latch's data while it
  // is enabled and the held bit otherwise.
  function HiddenMeaning(c: Cell, stored: bool -> bool, held: bool, v: Valuation): bool {
    if c == MEMORY_READ then stored(ValueOf(v, c.pins[0].bits[0]))
    else if c == OPEN_LATCH then (if ValueOf(v, c.pins[1].bits[0]) then ValueOf(v, c.pins[0].bits[0]) else held)
    else held
  }

  // Whatever the memory holds, as long as its two words differ, and whatever the latch
  // held: net 2 follows net 1, and the walk from net 1 never reaches it.
  lemma HiddenOutputLosesDependency(c: Cell, stored: bool -> bool, held: bool, v: Valuation, w: Valuation)
    requires c == MEMORY_READ || c == OPEN_LATCH
    requires stored(false) != stored(true) && v(1) != w(1)
    ensures Transit(c) && HasOtherOutput(OutputPins, c) && !SelectAliased(c)
    ensures HiddenMeaning(c, stored, held, v) != HiddenMeaning(c, stored, held, w)
    ensures !Reached(DataEdges(Module([], [c]), true), iset{1}, 2)
  {
    HiddenOutputs(c);
    HiddenIsPassed(c);
    assert |"$memrd"| != |"$dlatch"|;
    OnlyYIsReached(Module([], [c]), true, iset{1}, 2);
  }
}
