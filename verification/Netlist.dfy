/**
 The netlist the analyzer works on: ports, cells and bit-level connections, as
 Yosys writes them.  A bit is a net number or one of the constant characters.

 Dictionaries iterated by the source keep insertion order, so cells and pins
 are sequences here; a cell is named by its position.
 */
module Netlist {

  datatype Option<+T> = None | Some(value: T)

  datatype Bit = Net(id: int) | Const(ch: char)

  datatype Pin = Pin(port: string, bits: seq<Bit>)

  datatype Cell = Cell(name: string, ctype: string, pins: seq<Pin>)

  datatype Direction = Input | Output | Inout

  datatype Port = Port(name: string, direction: Direction, bits: seq<Bit>)

  datatype Module = Module(ports: seq<Port>, cells: seq<Cell>)

  // Keys of a Python dictionary are distinct.
  ghost predicate ValidModule(m: Module) {
    && (forall i, j :: 0 <= i < j < |m.cells| ==> m.cells[i].name != m.cells[j].name)
    && (forall i :: 0 <= i < |m.cells| ==> ValidCell(m.cells[i]))
  }

  ghost predicate ValidCell(c: Cell) {
    forall i, j :: 0 <= i < j < |c.pins| ==> c.pins[i].port != c.pins[j].port
  }

  // `connections.get(port, ())`
  function Conn(c: Cell, port: string): (bits: seq<Bit>)
    ensures bits != [] ==> exists i :: 0 <= i < |c.pins| && c.pins[i] == Pin(port, bits)
  {
    ConnFrom(c.pins, port)
  }

  function ConnFrom(pins: seq<Pin>, port: string): (bits: seq<Bit>)
    ensures bits != [] ==> exists i :: 0 <= i < |pins| && pins[i] == Pin(port, bits)
  {
    if pins == [] then []
    else if pins[0].port == port then pins[0].bits
    else
      var rest := ConnFrom(pins[1..], port);
      assert forall i :: 0 <= i < |pins[1..]| ==> pins[1..][i] == pins[i + 1];
      rest
  }

  lemma {:induction false} ConnAt(pins: seq<Pin>, i: nat)
    requires forall i, j :: 0 <= i < j < |pins| ==> pins[i].port != pins[j].port
    requires i < |pins|
    ensures ConnFrom(pins, pins[i].port) == pins[i].bits
  {
    if i > 0 {
      ConnAt(pins[1..], i - 1);
    }
  }

  // A pin of a valid cell is found under its own name.
  lemma ConnIsPin(c: Cell, i: nat)
    requires ValidCell(c) && i < |c.pins|
    ensures Conn(c, c.pins[i].port) == c.pins[i].bits
  {
    ConnAt(c.pins, i);
  }

  // --- cell families ----------------------------------------------------

  const FF_CELL_TYPES: set<string> := {
    "$dff", "$dffe", "$adff", "$adffe", "$aldff", "$aldffe",
    "$sdff", "$sdffe", "$sdffce", "$dffsr", "$dffsre"
  }

  const GATE_LEVEL_FF_PREFIXES: set<string> := {
    "$_DFF_", "$_DFFE_", "$_SDFF_", "$_SDFFE_", "$_SDFFCE_",
    "$_DFFSR_", "$_DFFSRE_", "$_ALDFF_", "$_ALDFFE_"
  }

  predicate IsFf(ctype: string) {
    ctype in FF_CELL_TYPES || exists p :: p in GATE_LEVEL_FF_PREFIXES && p <= ctype
  }

  predicate IsLatch(ctype: string) {
    ctype == "$dlatch" || "$_DLATCH_" <= ctype
  }

  // The clock connection of a flop, whichever of the two pin names it uses.
  function FlopClkPin(c: Cell): seq<Bit> {
    if Conn(c, "CLK") != [] then Conn(c, "CLK") else Conn(c, "C")
  }

  datatype Flop = Flop(name: string, clk: Bit, d: seq<Bit>, q: seq<Bit>)

  function FlopOf(c: Cell): Option<Flop> {
    if IsFf(c.ctype) && |FlopClkPin(c)| == 1
    then Some(Flop(c.name, FlopClkPin(c)[0], Conn(c, "D"), Conn(c, "Q")))
    else None
  }

  // A flop is a cell of a flop type, by name or by the family a gate-level name starts
  // with, and one clock bit: on `CLK`, or on `C` when `CLK` is not connected.
  lemma FlopIff(c: Cell, f: Flop)
    ensures FlopOf(c) == Some(f) <==>
            && (c.ctype in FF_CELL_TYPES || exists p :: p in GATE_LEVEL_FF_PREFIXES && p <= c.ctype)
            && (Conn(c, "CLK") == [f.clk] || (Conn(c, "CLK") == [] && Conn(c, "C") == [f.clk]))
            && f.name == c.name && f.d == Conn(c, "D") && f.q == Conn(c, "Q")
  {
  }

  // A gate-level flop is one whatever follows its family, and so is a latch.
  lemma GateLevelNames(family: string, kind: string)
    ensures family in GATE_LEVEL_FF_PREFIXES ==> IsFf(family + kind)
    ensures family == "$_DLATCH_" ==> IsLatch(family + kind)
  {
    assert family <= family + kind;
  }

  function Nets(bits: seq<Bit>): (r: set<int>)
    ensures forall b :: b in r <==> Net(b) in bits
  {
    set b | b in bits && b.Net? :: b.id
  }

  function NetSeq(bits: seq<Bit>): (r: seq<int>)
    ensures forall b :: b in r <==> Net(b) in bits
  {
    if bits == [] then []
    else (if bits[0].Net? then [bits[0].id] else []) + NetSeq(bits[1..])
  }

  // The first port a bit is on.
  function PortOfBit(ports: seq<Port>, bit: Bit): (r: Option<Port>)
    ensures r.Some? ==> r.value in ports && bit in r.value.bits
    ensures r.None? ==> forall p :: p in ports ==> bit !in p.bits
  {
    if ports == [] then None
    else if bit in ports[0].bits then Some(ports[0])
    else PortOfBit(ports[1..], bit)
  }

  // --- pin positions ----------------------------------------------------

  datatype Site = Site(cell: nat, pin: nat, idx: nat)

  ghost predicate IsPosition(m: Module, s: Site) {
    && s.cell < |m.cells|
    && s.pin < |m.cells[s.cell].pins|
    && s.idx < |m.cells[s.cell].pins[s.pin].bits|
  }

  // Positions visited before (i, p, k) when cells, pins and bits are scanned in order.
  ghost predicate Before(s: Site, i: nat, p: nat, k: nat) {
    s.cell < i || (s.cell == i && (s.pin < p || (s.pin == p && s.idx < k)))
  }

  // --- values -----------------------------------------------------------

  type Valuation = int -> bool

  function ValueOf(v: Valuation, bit: Bit): bool {
    match bit
    case Net(b) => v(b)
    case Const(ch) => ch == '1'
  }
}
