/**
 The synchroniser-chain walker: from a head flop it steps Q to D while the bit
 has one reader, that reader is a one-bit flop of the same clock (directly or
 behind its synchronous-reset mux), and no flop repeats.
 */
module SyncChain {
  import opened Netlist
  import opened Drivers

  // --- the reset mux in front of a flop ---------------------------------

  predicate AllConst(bits: seq<Bit>) {
    forall b :: b in bits ==> b.Const?
  }

  // The data leg of a constant-leg `$mux` that is exactly the flop's D vector.
  function ResetMuxDataBits(m: Module, d: seq<Bit>, drivers: map<int, Driver>, counts: map<int, nat>): Option<seq<Bit>>
    requires forall b :: b in drivers ==> drivers[b].cell < |m.cells|
  {
    if d == [] || d[0].Const? || d[0].id !in drivers || drivers[d[0].id].port != "Y" then None
    else
      var cell := m.cells[drivers[d[0].id].cell];
      var y, a, b := Conn(cell, "Y"), Conn(cell, "A"), Conn(cell, "B");
      if cell.ctype != "$mux" then None
      else if |y| != |d| || |a| != |d| || |b| != |d| || y != d then None
      else if exists x :: x in y && (if x.Net? then CountOf(counts, x.id) else 0) != 1 then None
      else if AllConst(a) == AllConst(b) then None
      else Some(if AllConst(b) then a else b)
  }

  // What the look-through finds: with the select at `sel` the flop captures the
  // leg, with it the other way a constant, and nothing else reads the mux.
  lemma ResetMuxMeaning(m: Module, d: seq<Bit>, drivers: map<int, Driver>, counts: map<int, nat>)
    returns (mux: nat, sel: bool)
    requires forall b :: b in drivers ==> drivers[b].cell < |m.cells|
    requires ResetMuxDataBits(m, d, drivers, counts).Some?
    ensures mux < |m.cells| && m.cells[mux].ctype == "$mux" && Conn(m.cells[mux], "Y") == d
    ensures ResetMuxDataBits(m, d, drivers, counts).value == Conn(m.cells[mux], if sel then "B" else "A")
    ensures AllConst(Conn(m.cells[mux], if sel then "A" else "B"))
    ensures !AllConst(ResetMuxDataBits(m, d, drivers, counts).value)
    ensures forall x :: x in d ==> x.Net? && CountOf(counts, x.id) == 1
  {
    mux := drivers[d[0].id].cell;
    sel := !AllConst(Conn(m.cells[mux], "B"));
  }

  // A `$mux` that drives exactly `d` and nothing else reads, with `x` on one data pin and
  // constants on the other.
  ghost predicate IsResetMux(m: Module, counts: map<int, nat>, mux: nat, d: seq<Bit>, data: string, tied: string,
                             x: seq<Bit>) {
    && mux < |m.cells| && m.cells[mux].ctype == "$mux"
    && Conn(m.cells[mux], "Y") == d && Conn(m.cells[mux], data) == x
    && |x| == |d| == |Conn(m.cells[mux], tied)|
    && (forall b :: b in d ==> b.Net? && CountOf(counts, b.id) == 1)
    && (exists b :: b in x && b.Net?)
    && (forall b :: b in Conn(m.cells[mux], tied) ==> b.Const?)
  }

  // Exactly these are looked through: the mux behind the first D net, with its constant on
  // either data pin.
  lemma ResetMuxIff(m: Module, d: seq<Bit>, drivers: map<int, Driver>, counts: map<int, nat>, x: seq<Bit>)
    requires forall b :: b in drivers ==> drivers[b].cell < |m.cells|
    ensures ResetMuxDataBits(m, d, drivers, counts) == Some(x) <==>
            && d != [] && d[0].Net? && d[0].id in drivers && drivers[d[0].id].port == "Y"
            && var mux := drivers[d[0].id].cell;
               IsResetMux(m, counts, mux, d, "A", "B", x) || IsResetMux(m, counts, mux, d, "B", "A", x)
  {
  }

  // --- indexes ----------------------------------------------------------

  // The flops of the netlist are named by their cell.
  predicate IsFlop(m: Module, i: nat) {
    i < |m.cells| && FlopOf(m.cells[i]).Some?
  }

  function D(m: Module, i: nat): seq<Bit>
    requires i < |m.cells|
  {
    Conn(m.cells[i], "D")
  }

  function Q(m: Module, i: nat): seq<Bit>
    requires i < |m.cells|
  {
    Conn(m.cells[i], "Q")
  }

  // A one-bit flop whose D pin is net b.
  predicate OneBitFlopOn(m: Module, i: nat, b: int) {
    IsFlop(m, i) && D(m, i) == [Net(b)]
  }

  ghost predicate IsDIndex(m: Module, byD: map<int, nat>) {
    forall b: int ::
      && (b in byD ==> OneBitFlopOn(m, byD[b], b))
      && (b !in byD ==> forall i: nat :: !OneBitFlopOn(m, i, b))
  }

  // A one-bit flop behind its reset mux, whose data leg is net b.
  predicate BehindMux(m: Module, drivers: map<int, Driver>, counts: map<int, nat>, i: nat, b: int)
    requires forall x :: x in drivers ==> drivers[x].cell < |m.cells|
  {
    && IsFlop(m, i) && |D(m, i)| == 1
    && ResetMuxDataBits(m, D(m, i), drivers, counts) == Some([Net(b)])
  }

  ghost predicate IsMuxIndex(m: Module, drivers: map<int, Driver>, counts: map<int, nat>, byMux: map<int, nat>)
    requires forall x :: x in drivers ==> drivers[x].cell < |m.cells|
  {
    forall b: int ::
      && (b in byMux ==> BehindMux(m, drivers, counts, byMux[b], b))
      && (b !in byMux ==> forall i: nat :: !BehindMux(m, drivers, counts, i, b))
  }

  method IndexByD(m: Module) returns (byD: map<int, nat>)
    ensures IsDIndex(m, byD)
  {
    byD := map[];
    for i := 0 to |m.cells|
      invariant forall b: int ::
        && (b in byD ==> OneBitFlopOn(m, byD[b], b))
        && (b !in byD ==> forall j: nat :: j < i ==> !OneBitFlopOn(m, j, b))
    {
      if IsFlop(m, i) && |D(m, i)| == 1 && D(m, i)[0].Net? {
        byD := byD[D(m, i)[0].id := i];
      }
    }
  }

  // (i, b): flop i sits behind a reset mux whose data leg is net b.
  type MuxRelation = iset<(int, int)>

  ghost function MuxedFlops(m: Module, drivers: map<int, Driver>, counts: map<int, nat>): MuxRelation
    requires forall x :: x in drivers ==> drivers[x].cell < |m.cells|
  {
    iset p: (int, int) | p.0 >= 0 && BehindMux(m, drivers, counts, p.0, p.1)
  }

  ghost predicate MuxIndexBelow(rel: MuxRelation, byMux: map<int, nat>, n: nat) {
    && (forall b :: b in byMux ==> (byMux[b], b) in rel)
    && (forall b: int, j: nat :: j < n && (j, b) in rel ==> b in byMux)
  }

  // The data leg of the reset mux in front of an indexed one-bit flop.
  function LegBit(m: Module, drivers: map<int, Driver>, counts: map<int, nat>, byD: map<int, nat>,
                  i: nat): (r: Option<int>)
    requires forall x :: x in drivers ==> drivers[x].cell < |m.cells|
    requires i < |m.cells|
  {
    if !IsFlop(m, i) || |D(m, i)| != 1 || D(m, i)[0].Const? then None
    else if D(m, i)[0].id !in byD || byD[D(m, i)[0].id] != i then None
    else
      var leg := ResetMuxDataBits(m, D(m, i), drivers, counts);
      if leg.None? || |leg.value| == 0 || leg.value[0].Const? then None else Some(leg.value[0].id)
  }

  lemma LegBitIsMux(m: Module, drivers: map<int, Driver>, counts: map<int, nat>, byD: map<int, nat>, i: nat, b: int)
    requires ValidModule(m) && IsReaderCount(m, counts) && IsDIndex(m, byD)
    requires forall x :: x in drivers ==> drivers[x].cell < |m.cells|
    requires i < |m.cells|
    ensures LegBit(m, drivers, counts, byD, i) == Some(b) <==> BehindMux(m, drivers, counts, i, b)
  {
    if BehindMux(m, drivers, counts, i, b) {
      MuxFlopIsIndexed(m, drivers, counts, byD, i, b);
    }
    if LegBit(m, drivers, counts, byD, i) == Some(b) {
      var mux, sel := ResetMuxMeaning(m, D(m, i), drivers, counts);
      var leg := ResetMuxDataBits(m, D(m, i), drivers, counts).value;
      assert |leg| == 1 && leg == [leg[0]];
    }
  }

  method LegOf(m: Module, drivers: map<int, Driver>, counts: map<int, nat>, byD: map<int, nat>, i: nat,
               ghost rel: MuxRelation)
    returns (leg: Option<int>)
    requires ValidModule(m) && IsReaderCount(m, counts) && IsDIndex(m, byD)
    requires forall b :: b in drivers ==> drivers[b].cell < |m.cells|
    requires i < |m.cells| && rel == MuxedFlops(m, drivers, counts)
    ensures forall b: int :: leg == Some(b) <==> (i, b) in rel
  {
    leg := LegBit(m, drivers, counts, byD, i);
    forall b: int
      ensures leg == Some(b) <==> (i, b) in rel
    {
      LegBitIsMux(m, drivers, counts, byD, i, b);
    }
  }

  // The flops of the D index, each under the data leg of its reset mux; a leg bit
  // shared by two muxes keeps the first flop.
  method IndexByMux(m: Module, drivers: map<int, Driver>, counts: map<int, nat>, byD: map<int, nat>)
    returns (byMux: map<int, nat>)
    requires ValidModule(m) && IsReaderCount(m, counts) && IsDIndex(m, byD)
    requires forall b :: b in drivers ==> drivers[b].cell < |m.cells|
    ensures IsMuxIndex(m, drivers, counts, byMux)
  {
    ghost var rel := MuxedFlops(m, drivers, counts);
    byMux := CollectMuxed(m, drivers, counts, byD, rel);
    MuxIndexComplete(m, drivers, counts, byMux);
  }

  method CollectMuxed(m: Module, drivers: map<int, Driver>, counts: map<int, nat>, byD: map<int, nat>,
                      ghost rel: MuxRelation)
    returns (byMux: map<int, nat>)
    requires ValidModule(m) && IsReaderCount(m, counts) && IsDIndex(m, byD)
    requires forall b :: b in drivers ==> drivers[b].cell < |m.cells|
    requires rel == MuxedFlops(m, drivers, counts)
    ensures MuxIndexBelow(rel, byMux, |m.cells|)
  {
    byMux := map[];
    for i := 0 to |m.cells|
      invariant MuxIndexBelow(rel, byMux, i)
    {
      var leg := LegOf(m, drivers, counts, byD, i, rel);
      MuxIndexGrows(rel, byMux, i, leg);
      if leg.Some? && leg.value !in byMux {
        byMux := byMux[leg.value := i];
      }
    }
  }

  lemma MuxIndexGrows(rel: MuxRelation, byMux: map<int, nat>, i: nat, leg: Option<int>)
    requires MuxIndexBelow(rel, byMux, i) && forall b: int :: leg == Some(b) <==> (i, b) in rel
    ensures MuxIndexBelow(rel, if leg.Some? && leg.value !in byMux then byMux[leg.value := i] else byMux, i + 1)
  {
  }

  lemma MuxIndexComplete(m: Module, drivers: map<int, Driver>, counts: map<int, nat>, byMux: map<int, nat>)
    requires forall b :: b in drivers ==> drivers[b].cell < |m.cells|
    requires MuxIndexBelow(MuxedFlops(m, drivers, counts), byMux, |m.cells|)
    ensures IsMuxIndex(m, drivers, counts, byMux)
  {
    var rel := MuxedFlops(m, drivers, counts);
    forall b: int, i: nat | BehindMux(m, drivers, counts, i, b)
      ensures b in byMux
    {
      assert (i, b) in rel;
    }
    forall b | b in byMux
      ensures BehindMux(m, drivers, counts, byMux[b], b)
    {
      assert (byMux[b], b) in rel;
    }
  }

  // A flop behind a reset mux is the only one on its D net, so the D index has it.
  lemma MuxFlopIsIndexed(m: Module, drivers: map<int, Driver>, counts: map<int, nat>, byD: map<int, nat>, i: nat,
                         b: int)
    requires ValidModule(m) && IsReaderCount(m, counts) && IsDIndex(m, byD)
    requires forall x :: x in drivers ==> drivers[x].cell < |m.cells|
    requires BehindMux(m, drivers, counts, i, b)
    ensures D(m, i)[0].Net? && D(m, i)[0].id in byD && byD[D(m, i)[0].id] == i
  {
    var mux, sel := ResetMuxMeaning(m, D(m, i), drivers, counts);
    var y := D(m, i)[0].id;
    assert D(m, i)[0] in D(m, i);
    assert OneBitFlopOn(m, i, y) && y in byD;
    OneFlopOnNet(m, counts, y, i, byD[y]);
  }

  // A net read once is the D pin of one flop.
  lemma OneFlopOnNet(m: Module, counts: map<int, nat>, b: int, j: nat, k: nat)
    requires ValidModule(m) && IsReaderCount(m, counts) && CountOf(counts, b) == 1
    requires OneBitFlopOn(m, j, b) && OneBitFlopOn(m, k, b)
    ensures j == k
  {
    OneCellPerNet(m, counts, b, j, "D", k, "D");
  }

  // --- context of one walk ----------------------------------------------

  datatype Walk = Walk(
    m: Module,
    drivers: map<int, Driver>,
    counts: map<int, nat>,
    byD: map<int, nat>,
    byMux: map<int, nat>,
    domains: map<nat, string>,
    clock: string
  )

  ghost predicate ValidWalk(w: Walk) {
    && ValidModule(w.m)
    && IsDriverIndex(w.m, w.drivers) && IsReaderCount(w.m, w.counts)
    && IsDIndex(w.m, w.byD) && IsMuxIndex(w.m, w.drivers, w.counts, w.byMux)
  }

  // The next stage after flop `cur`, if the chain goes on.
  function Next(w: Walk, cur: nat, visited: set<nat>): (r: Option<nat>)
    requires ValidWalk(w) && cur < |w.m.cells|
    ensures r.Some? ==>
        IsFlop(w.m, r.value) && r.value !in visited && r.value in w.domains && w.domains[r.value] == w.clock
  {
    var q := Q(w.m, cur);
    if |q| != 1 || |D(w.m, cur)| != 1 || q[0].Const? then None
    else if CountOf(w.counts, q[0].id) != 1 then None
    else
      var b := q[0].id;
      var nxt := if b in w.byD then Some(w.byD[b]) else if b in w.byMux then Some(w.byMux[b]) else None;
      if nxt.None? || nxt.value in visited then None
      else if nxt.value !in w.domains || w.domains[nxt.value] != w.clock then None
      else nxt
  }

  ghost function Below(n: nat): (r: set<nat>)
    ensures forall i: nat :: i in r <==> i < n
  {
    if n == 0 then {} else Below(n - 1) + {n - 1}
  }

  ghost function Cells(m: Module): set<nat> {
    Below(|m.cells|)
  }

  ghost function ChainFrom(w: Walk, cur: nat, visited: set<nat>): (chain: seq<nat>)
    requires ValidWalk(w) && cur < |w.m.cells| && cur in visited
    ensures chain != [] && chain[0] == cur
    decreases Cells(w.m) - visited
  {
    var nxt := Next(w, cur, visited);
    if nxt.None? then [cur]
    else
      assert nxt.value in Cells(w.m) - visited;
      [cur] + ChainFrom(w, nxt.value, visited + {nxt.value})
  }

  method SyncChainFlops(w: Walk, head: nat) returns (out: seq<nat>)
    requires ValidWalk(w) && head < |w.m.cells|
    ensures out == ChainFrom(w, head, {head})
  {
    out := [head];
    var current := head;
    var visited := {head};
    ghost var before: seq<nat> := [];
    while true
      invariant current < |w.m.cells| && current in visited && out == before + [current]
      invariant before + ChainFrom(w, current, visited) == ChainFrom(w, head, {head})
      decreases Cells(w.m) - visited
    {
      var nxt := Next(w, current, visited);
      if nxt.None? {
        break;
      }
      assert nxt.value in Cells(w.m) - visited;
      ChainStep(w, before, current, visited);
      before := out;
      out := out + [nxt.value];
      visited := visited + {nxt.value};
      current := nxt.value;
    }
  }

  lemma ChainStep(w: Walk, before: seq<nat>, cur: nat, visited: set<nat>)
    requires ValidWalk(w) && cur < |w.m.cells| && cur in visited && Next(w, cur, visited).Some?
    ensures var nxt := Next(w, cur, visited).value;
            before + ChainFrom(w, cur, visited) == before + [cur] + ChainFrom(w, nxt, visited + {nxt})
  {
  }

  // --- shape of the chain -----------------------------------------------

  ghost predicate Simple(chain: seq<nat>) {
    forall i, j :: 0 <= i < j < |chain| ==> chain[i] != chain[j]
  }

  // A flop, not visited before, in the head's clock.
  ghost predicate StageOk(w: Walk, visited: set<nat>, x: nat) {
    x !in visited && IsFlop(w.m, x) && x in w.domains && w.domains[x] == w.clock
  }

  // Flops are distinct and every one after the head is in the head's clock.
  lemma {:induction false} ChainShape(w: Walk, cur: nat, visited: set<nat>)
    requires ValidWalk(w) && cur < |w.m.cells| && cur in visited
    ensures Simple(ChainFrom(w, cur, visited))
    ensures forall x :: x in ChainFrom(w, cur, visited) ==> x == cur || StageOk(w, visited, x)
    decreases Cells(w.m) - visited
  {
    var nxt := Next(w, cur, visited);
    if nxt.Some? {
      assert nxt.value in Cells(w.m) - visited;
      ChainShape(w, nxt.value, visited + {nxt.value});
      var rest := ChainFrom(w, nxt.value, visited + {nxt.value});
      forall x | x in rest
        ensures StageOk(w, visited, x)
      {
        assert x == nxt.value || StageOk(w, visited + {nxt.value}, x);
      }
      assert cur !in rest;
      PrependSimple(cur, rest);
      assert ChainFrom(w, cur, visited) == [cur] + rest;
    }
  }

  lemma PrependSimple(x: nat, rest: seq<nat>)
    requires Simple(rest) && x !in rest
    ensures Simple([x] + rest)
  {
    var all := [x] + rest;
    forall i, j | 0 <= i < j < |all| ensures all[i] != all[j] {
      assert all[j] == rest[j - 1];
    }
  }

  // --- data paths -------------------------------------------------------

  // Cell j reads, on a data pin, a net cell i drives.
  ghost predicate DataStep(m: Module, i: nat, j: nat) {
    exists b: int :: DrivesNet(m, i, b) && ReadsNet(m, j, b)
  }

  ghost predicate DataPath(m: Module, p: seq<nat>) {
    p != [] && forall i :: 0 <= i < |p| - 1 ==> DataStep(m, p[i], p[i + 1])
  }

  // Flops of the netlist drive only their Q pin; a mux only its Y pin.
  ghost predicate PlainOutputs(m: Module) {
    && (forall i :: 0 <= i < |m.cells| && IsFlop(m, i) ==> Conn(m.cells[i], "Y") == [])
    && (forall i :: 0 <= i < |m.cells| && m.cells[i].ctype == "$mux" ==> Conn(m.cells[i], "Q") == [])
  }

  // Every data path out of cell u goes to cell v.
  ghost predicate Forced(m: Module, u: nat, v: nat) {
    forall x :: DataStep(m, u, x) ==> x == v
  }

  // Between two consecutive stages data goes straight on, or through the reset mux.
  ghost predicate StageLink(m: Module, u: nat, v: nat, mux: Option<nat>) {
    match mux
    case None => Forced(m, u, v)
    case Some(x) => Forced(m, u, x) && Forced(m, x, v) && x != v
  }

  lemma ReadingCell(m: Module, i: nat, port: string, b: int) returns (s: Site)
    requires ValidModule(m) && i < |m.cells| && port !in NON_READER_PORTS && Net(b) in Conn(m.cells[i], port)
    ensures s.cell == i && DataReads(m, s, b)
  {
    var bits := Conn(m.cells[i], port);
    var p :| 0 <= p < |m.cells[i].pins| && m.cells[i].pins[p] == Pin(port, bits);
    var k :| 0 <= k < |bits| && bits[k] == Net(b);
    s := Site(i, p, k);
  }

  // A net counted once is read only by the cell known to read it.
  lemma OnlyReader(w: Walk, b: int, v: nat, port: string, x: nat)
    requires ValidWalk(w) && CountOf(w.counts, b) == 1
    requires v < |w.m.cells| && port !in NON_READER_PORTS && Net(b) in Conn(w.m.cells[v], port)
    requires ReadsNet(w.m, x, b)
    ensures x == v
  {
    var s := ReadingCell(w.m, v, port, b);
    var t: Site :| t.cell == x && DataReads(w.m, t, b);
    SingleReader(w.m, w.counts, b, s, t);
  }

  lemma FlopForces(w: Walk, u: nat, b: int, v: nat, port: string)
    requires ValidWalk(w) && PlainOutputs(w.m)
    requires IsFlop(w.m, u) && Q(w.m, u) == [Net(b)] && CountOf(w.counts, b) == 1
    requires v < |w.m.cells| && port !in NON_READER_PORTS && Net(b) in Conn(w.m.cells[v], port)
    ensures Forced(w.m, u, v)
  {
    forall x | DataStep(w.m, u, x) ensures x == v {
      var c: int :| DrivesNet(w.m, u, c) && ReadsNet(w.m, x, c);
      assert c == b;
      OnlyReader(w, b, v, port, x);
    }
  }

  lemma MuxForces(w: Walk, mux: nat, b: int, v: nat)
    requires ValidWalk(w) && PlainOutputs(w.m)
    requires mux < |w.m.cells| && w.m.cells[mux].ctype == "$mux" && Conn(w.m.cells[mux], "Y") == [Net(b)]
    requires CountOf(w.counts, b) == 1
    requires v < |w.m.cells| && Net(b) in Conn(w.m.cells[v], "D")
    ensures Forced(w.m, mux, v)
  {
    forall x | DataStep(w.m, mux, x) ensures x == v {
      var c: int :| DrivesNet(w.m, mux, c) && ReadsNet(w.m, x, c);
      assert c == b;
      OnlyReader(w, b, v, "D", x);
    }
  }

  // The next stage reads the bit directly.
  lemma DirectLink(w: Walk, cur: nat, b: int, nxt: nat)
    requires ValidWalk(w) && PlainOutputs(w.m) && IsFlop(w.m, cur)
    requires Q(w.m, cur) == [Net(b)] && CountOf(w.counts, b) == 1 && OneBitFlopOn(w.m, nxt, b)
    ensures StageLink(w.m, cur, nxt, None)
  {
    FlopForces(w, cur, b, nxt, "D");
  }

  // The next stage reads the bit through its reset mux.
  lemma MuxLink(w: Walk, cur: nat, b: int, nxt: nat) returns (mux: nat)
    requires ValidWalk(w) && PlainOutputs(w.m) && IsFlop(w.m, cur)
    requires Q(w.m, cur) == [Net(b)] && CountOf(w.counts, b) == 1
    requires BehindMux(w.m, w.drivers, w.counts, nxt, b)
    ensures StageLink(w.m, cur, nxt, Some(mux))
    ensures mux == w.drivers[D(w.m, nxt)[0].id].cell
  {
    var y, port := MuxShape(w.m, w.drivers, w.counts, nxt, b);
    mux := w.drivers[y].cell;
    FlopForces(w, cur, b, mux, port);
    MuxForces(w, mux, y, nxt);
  }

  // A reset mux in front of a one-bit flop: its output is read once, and the net
  // is on one of its data legs.
  lemma MuxShape(m: Module, drivers: map<int, Driver>, counts: map<int, nat>, nxt: nat, b: int)
    returns (y: int, port: string)
    requires forall x :: x in drivers ==> drivers[x].cell < |m.cells|
    requires BehindMux(m, drivers, counts, nxt, b)
    ensures D(m, nxt) == [Net(y)] && y in drivers && CountOf(counts, y) == 1
    ensures var cell := m.cells[drivers[y].cell];
            cell.ctype == "$mux" && Conn(cell, "Y") == [Net(y)] && Net(b) in Conn(cell, port) &&
                port !in NON_READER_PORTS
    ensures nxt != drivers[y].cell
  {
    y := D(m, nxt)[0].id;
    var cell := m.cells[drivers[y].cell];
    assert Conn(cell, "Y") == D(m, nxt) == [Net(y)];
    assert Net(y) in Conn(cell, "Y");
    port := if Conn(cell, "A") == [Net(b)] then "A" else "B";
  }

  // One step of the walk leaves no way round.
  lemma NextIsForced(w: Walk, cur: nat, visited: set<nat>) returns (mux: Option<nat>)
    requires ValidWalk(w) && PlainOutputs(w.m) && IsFlop(w.m, cur) && Next(w, cur, visited).Some?
    ensures StageLink(w.m, cur, Next(w, cur, visited).value, mux)
    ensures mux.Some? ==> LinkMux(w, cur, Next(w, cur, visited).value) == {mux.value}
  {
    var q := Q(w.m, cur);
    var b := q[0].id;
    assert q == [Net(b)];
    var nxt := Next(w, cur, visited).value;
    if b in w.byD {
      DirectLink(w, cur, b, nxt);
      mux := None;
    } else {
      var x := MuxLink(w, cur, b, nxt);
      mux := Some(x);
    }
  }

  // The chain's flops and the reset muxes between them.
  ghost function Touched(w: Walk, cur: nat, visited: set<nat>): set<nat>
    requires ValidWalk(w) && cur < |w.m.cells| && cur in visited
    decreases Cells(w.m) - visited
  {
    var nxt := Next(w, cur, visited);
    if nxt.None? then {cur}
    else
      assert nxt.value in Cells(w.m) - visited;
      {cur} + LinkMux(w, cur, nxt.value) + Touched(w, nxt.value, visited + {nxt.value})
  }

  // The reset mux between two consecutive stages, if there is one.
  ghost function LinkMux(w: Walk, cur: nat, nxt: nat): set<nat>
    requires cur < |w.m.cells| && nxt < |w.m.cells|
  {
    if Q(w.m, cur) != [] && Q(w.m, cur)[0].Net? && Q(w.m, cur)[0].id in w.byD then {}
    else if D(w.m, nxt) != [] && D(w.m, nxt)[0].Net? && D(w.m, nxt)[0].id in w.drivers
    then {w.drivers[D(w.m, nxt)[0].id].cell}
    else {}
  }

  // The elements of `chain` occur in `p` in that order.
  ghost predicate Subsequence(chain: seq<nat>, p: seq<nat>)
    decreases |p|
  {
    if chain == [] then true
    else if p == [] then false
    else if chain[0] == p[0] then Subsequence(chain[1..], p[1..])
    else Subsequence(chain, p[1..])
  }

  lemma TailPath(m: Module, p: seq<nat>)
    requires DataPath(m, p) && |p| > 1
    ensures DataPath(m, p[1..]) && DataStep(m, p[0], p[1])
  {
    assert DataStep(m, p[0], p[0 + 1]);
    forall i | 0 <= i < |p[1..]| - 1 ensures DataStep(m, p[1..][i], p[1..][i + 1]) {
      assert DataStep(m, p[i + 1], p[i + 1 + 1]);
    }
  }

  // A recognised chain dominates: a data path from the head that ends outside the chain
  // and its reset muxes has passed through every stage, in order.
  lemma {:induction false} ChainDominates(w: Walk, cur: nat, visited: set<nat>, p: seq<nat>)
    requires ValidWalk(w) && PlainOutputs(w.m) && IsFlop(w.m, cur) && cur in visited
    requires DataPath(w.m, p) && p[0] == cur
    requires p[|p| - 1] !in Touched(w, cur, visited)
    ensures Subsequence(ChainFrom(w, cur, visited), p)
    decreases Cells(w.m) - visited
  {
    var nxt := Next(w, cur, visited);
    if nxt.Some? {
      assert nxt.value in Cells(w.m) - visited;
      var rest := ChainFrom(w, nxt.value, visited + {nxt.value});
      assert |p| > 1;
      TailPath(w.m, p);
      var q := p[1..];
      var mux := NextIsForced(w, cur, visited);
      if mux.None? {
        assert q[0] == nxt.value;
        ChainDominates(w, nxt.value, visited + {nxt.value}, q);
      } else {
        assert q[0] == mux.value;
        assert |q| > 1;
        TailPath(w.m, q);
        assert q[1..][0] == nxt.value;
        ChainDominates(w, nxt.value, visited + {nxt.value}, q[1..]);
        assert Subsequence(rest, q);
      }
      assert ChainFrom(w, cur, visited)[1..] == rest;
    }
  }

  // --- what the walk must find ------------------------------------------

  // One-bit flops in a row in one clock after the head, each fed by the Q before
  // it, directly or through its reset mux, with no other reader.
  ghost predicate Stages(w: Walk, p: seq<nat>)
    requires ValidWalk(w)
  {
    && p != [] && Simple(p)
    && (forall i :: 0 <= i < |p| ==> IsFlop(w.m, p[i]) && |D(w.m, p[i])| == 1)
    && (forall i :: 0 < i < |p| ==> p[i] in w.domains && w.domains[p[i]] == w.clock)
    && (forall i :: 0 <= i < |p| - 1 ==> Linked(w, p[i], p[i + 1]))
  }

  ghost predicate Linked(w: Walk, i: nat, j: nat)
    requires ValidWalk(w)
  {
    i < |w.m.cells| && exists b: int :: Q(w.m, i) == [Net(b)] && CountOf(w.counts, b) == 1 && FedBy(w, j, b)
  }

  ghost predicate FedBy(w: Walk, j: nat, b: int)
    requires ValidWalk(w)
  {
    OneBitFlopOn(w.m, j, b) || FedThroughMux(w, j, b, "A", "B") || FedThroughMux(w, j, b, "B", "A")
  }

  // The one D net of flop j is the output of a `$mux`, read by nothing else, with net b on one
  // data pin and a constant on the other.
  ghost predicate FedThroughMux(w: Walk, j: nat, b: int, data: string, tied: string) {
    && IsFlop(w.m, j)
    && exists y: int, mux: nat, ch ::
         && D(w.m, j) == [Net(y)] && y in w.drivers && w.drivers[y] == Driver(mux, "Y") && CountOf(w.counts, y) == 1
         && mux < |w.m.cells| && w.m.cells[mux].ctype == "$mux" && Conn(w.m.cells[mux], "Y") == [Net(y)]
         && Conn(w.m.cells[mux], data) == [Net(b)] && Conn(w.m.cells[mux], tied) == [Const(ch)]
  }

  lemma MuxIsFedThrough(w: Walk, j: nat, b: int, mux: nat, data: string, tied: string)
    requires ValidWalk(w) && IsFlop(w.m, j) && |D(w.m, j)| == 1 && D(w.m, j)[0].Net?
    requires D(w.m, j)[0].id in w.drivers && w.drivers[D(w.m, j)[0].id] == Driver(mux, "Y")
    requires IsResetMux(w.m, w.counts, mux, D(w.m, j), data, tied, [Net(b)])
    ensures FedThroughMux(w, j, b, data, tied)
  {
    var y, leg := D(w.m, j)[0].id, Conn(w.m.cells[mux], tied);
    assert D(w.m, j) == [Net(y)] && Net(y) in D(w.m, j);
    assert leg[0] in leg;
    assert leg == [Const(leg[0].ch)];
  }

  lemma FedThroughIsMux(w: Walk, j: nat, b: int, data: string, tied: string)
    requires ValidWalk(w) && FedThroughMux(w, j, b, data, tied)
    ensures |D(w.m, j)| == 1 && D(w.m, j)[0].Net? && D(w.m, j)[0].id in w.drivers
    ensures w.drivers[D(w.m, j)[0].id].port == "Y"
    ensures IsResetMux(w.m, w.counts, w.drivers[D(w.m, j)[0].id].cell, D(w.m, j), data, tied, [Net(b)])
  {
    assert Net(b) in [Net(b)];
  }

  lemma FedThroughIsBehind(w: Walk, j: nat, b: int)
    requires ValidWalk(w)
    ensures FedThroughMux(w, j, b, "A", "B") || FedThroughMux(w, j, b, "B", "A") <==>
            BehindMux(w.m, w.drivers, w.counts, j, b)
  {
    if IsFlop(w.m, j) {
      ResetMuxIff(w.m, D(w.m, j), w.drivers, w.counts, [Net(b)]);
      if BehindMux(w.m, w.drivers, w.counts, j, b) {
        var mux := w.drivers[D(w.m, j)[0].id].cell;
        if IsResetMux(w.m, w.counts, mux, D(w.m, j), "A", "B", [Net(b)]) {
          MuxIsFedThrough(w, j, b, mux, "A", "B");
        } else {
          MuxIsFedThrough(w, j, b, mux, "B", "A");
        }
      }
      if FedThroughMux(w, j, b, "A", "B") {
        FedThroughIsMux(w, j, b, "A", "B");
      }
      if FedThroughMux(w, j, b, "B", "A") {
        FedThroughIsMux(w, j, b, "B", "A");
      }
    }
  }

  ghost function Members(p: seq<nat>): set<nat> {
    set x | x in p
  }

  // Two flops behind reset muxes on one net read once are one flop.
  lemma OneFlopBehindMux(w: Walk, b: int, j: nat, k: nat)
    requires ValidWalk(w) && CountOf(w.counts, b) == 1
    requires BehindMux(w.m, w.drivers, w.counts, j, b) && BehindMux(w.m, w.drivers, w.counts, k, b)
    ensures j == k
  {
    var y, py := MuxShape(w.m, w.drivers, w.counts, j, b);
    var z, pz := MuxShape(w.m, w.drivers, w.counts, k, b);
    OneCellPerNet(w.m, w.counts, b, w.drivers[y].cell, py, w.drivers[z].cell, pz);
    assert [Net(y)] == [Net(z)];
    OneFlopOnNet(w.m, w.counts, y, j, k);
  }

  // A net read once by a reset mux is nobody's D pin.
  lemma NotBoth(m: Module, drivers: map<int, Driver>, counts: map<int, nat>, b: int, j: nat, k: nat)
    requires ValidModule(m) && IsReaderCount(m, counts) && CountOf(counts, b) == 1 && OneBitFlopOn(m, j, b)
    requires forall x :: x in drivers ==> drivers[x].cell < |m.cells|
    ensures !BehindMux(m, drivers, counts, k, b)
  {
    if BehindMux(m, drivers, counts, k, b) {
      var y, port := MuxShape(m, drivers, counts, k, b);
      var mux := drivers[y].cell;
      MuxIsNoFlop(m.cells[mux]);
      OneCellPerNet(m, counts, b, j, "D", mux, port);
    }
  }

  // A net read once is read by one cell.
  lemma OneCellPerNet(m: Module, counts: map<int, nat>, b: int, j: nat, p: string, k: nat, q: string)
    requires ValidModule(m) && IsReaderCount(m, counts) && CountOf(counts, b) == 1
    requires j < |m.cells| && p !in NON_READER_PORTS && Net(b) in Conn(m.cells[j], p)
    requires k < |m.cells| && q !in NON_READER_PORTS && Net(b) in Conn(m.cells[k], q)
    ensures j == k
  {
    var s := ReadingCell(m, j, p, b);
    var t := ReadingCell(m, k, q, b);
    SingleReader(m, counts, b, s, t);
  }

  lemma MuxIsNoFlop(c: Cell)
    requires c.ctype == "$mux"
    ensures FlopOf(c).None?
  {
    assert c.ctype[1] == 'm';
    assert forall p :: p in GATE_LEVEL_FF_PREFIXES ==> p[1] == '_';
  }

  // The walk's two indexes find the flop the net feeds.
  lemma NextOnNet(w: Walk, b: int, j: nat)
    requires ValidWalk(w) && CountOf(w.counts, b) == 1 && FedBy(w, j, b)
    ensures OneBitFlopOn(w.m, j, b) ==> b in w.byD && w.byD[b] == j
    ensures !OneBitFlopOn(w.m, j, b) ==> b !in w.byD && b in w.byMux && w.byMux[b] == j
  {
    if OneBitFlopOn(w.m, j, b) {
      assert b in w.byD && OneBitFlopOn(w.m, w.byD[b], b);
      OneFlopOnNet(w.m, w.counts, b, j, w.byD[b]);
    } else {
      FedThroughIsBehind(w, j, b);
      if b in w.byD {
        NotBoth(w.m, w.drivers, w.counts, b, w.byD[b], j);
      }
      assert b in w.byMux;
      OneFlopBehindMux(w, b, j, w.byMux[b]);
    }
  }

  // A stage not met before is where the walk goes next.
  lemma LinkedIsNext(w: Walk, i: nat, j: nat, visited: set<nat>)
    requires ValidWalk(w) && Linked(w, i, j) && |D(w.m, i)| == 1
    requires j !in visited && j in w.domains && w.domains[j] == w.clock
    ensures Next(w, i, visited) == Some(j)
  {
    var b: int :| Q(w.m, i) == [Net(b)] && CountOf(w.counts, b) == 1 && FedBy(w, j, b);
    NextOnNet(w, b, j);
  }

  lemma MembersStep(p: seq<nat>, k: nat)
    requires k + 1 < |p|
    ensures Members(p[..k + 2]) == Members(p[..k + 1]) + {p[k + 1]}
    ensures Simple(p) ==> p[k + 1] !in Members(p[..k + 1])
    ensures p[k..] == [p[k]] + p[k + 1..]
  {
    assert p[..k + 2] == p[..k + 1] + [p[k + 1]];
  }

  lemma {:induction false} StagesAreChain(w: Walk, p: seq<nat>, k: nat)
    requires ValidWalk(w) && Stages(w, p) && k < |p|
    ensures p[k..] <= ChainFrom(w, p[k], Members(p[..k + 1]))
    decreases |p| - k
  {
    var visited := Members(p[..k + 1]);
    if k + 1 < |p| {
      MembersStep(p, k);
      assert Linked(w, p[k], p[k + 1]);
      LinkedIsNext(w, p[k], p[k + 1], visited);
      StagesAreChain(w, p, k + 1);
      ChainStep(w, [], p[k], visited);
      assert ChainFrom(w, p[k], visited) == [p[k]] + ChainFrom(w, p[k + 1], visited + {p[k + 1]});
    }
  }

  // Every stage of a chain is recognised: N separate flops give depth N, or
  // more when the chain goes on.
  lemma StagesAreRecognised(w: Walk, p: seq<nat>)
    requires ValidWalk(w) && Stages(w, p)
    ensures p <= ChainFrom(w, p[0], {p[0]})
  {
    assert p[0..] == p && Members(p[..1]) == {p[0]};
    StagesAreChain(w, p, 0);
  }

  lemma NextIsLinked(w: Walk, cur: nat, visited: set<nat>)
    requires ValidWalk(w) && cur < |w.m.cells| && Next(w, cur, visited).Some?
    ensures Linked(w, cur, Next(w, cur, visited).value) && |D(w.m, cur)| == 1
    ensures |D(w.m, Next(w, cur, visited).value)| == 1
  {
    var b, nxt := Q(w.m, cur)[0].id, Next(w, cur, visited).value;
    assert Q(w.m, cur) == [Net(b)];
    FedThroughIsBehind(w, nxt, b);
    assert b in w.byD ==> OneBitFlopOn(w.m, nxt, b);
    assert b !in w.byD ==> BehindMux(w.m, w.drivers, w.counts, nxt, b);
    assert FedBy(w, nxt, b);
  }

  ghost predicate LinkedOneBit(w: Walk, i: nat, j: nat)
    requires ValidWalk(w)
  {
    Linked(w, i, j) && |D(w.m, i)| == 1 && j < |w.m.cells| && |D(w.m, j)| == 1
  }

  ghost predicate LinkedInTurn(w: Walk, chain: seq<nat>)
    requires ValidWalk(w)
  {
    forall i :: 0 <= i < |chain| - 1 ==> LinkedOneBit(w, chain[i], chain[i + 1])
  }

  lemma {:induction false} ChainIsLinked(w: Walk, cur: nat, visited: set<nat>)
    requires ValidWalk(w) && cur < |w.m.cells| && cur in visited
    ensures LinkedInTurn(w, ChainFrom(w, cur, visited))
    decreases Cells(w.m) - visited
  {
    var nxt := Next(w, cur, visited);
    if nxt.Some? {
      assert nxt.value in Cells(w.m) - visited;
      NextIsLinked(w, cur, visited);
      ChainIsLinked(w, nxt.value, visited + {nxt.value});
      var rest := ChainFrom(w, nxt.value, visited + {nxt.value});
      var chain := ChainFrom(w, cur, visited);
      assert chain == [cur] + rest;
      forall i | 0 <= i < |chain| - 1 ensures LinkedOneBit(w, chain[i], chain[i + 1]) {
        if i > 0 {
          assert LinkedOneBit(w, rest[i - 1], rest[i - 1 + 1]);
        }
      }
    }
  }

  // The chain of a one-bit flop is a list of stages, the longest there is from it.
  lemma ChainIsLongest(w: Walk, head: nat)
    requires ValidWalk(w) && IsFlop(w.m, head) && |D(w.m, head)| == 1
    ensures Stages(w, ChainFrom(w, head, {head}))
    ensures forall p :: Stages(w, p) && p[0] == head ==> p <= ChainFrom(w, head, {head})
  {
    var chain := ChainFrom(w, head, {head});
    ChainShape(w, head, {head});
    ChainIsLinked(w, head, {head});
    forall i | 0 <= i < |chain|
      ensures IsFlop(w.m, chain[i]) && |D(w.m, chain[i])| == 1
      ensures i > 0 ==> chain[i] in w.domains && w.domains[chain[i]] == w.clock
    {
      if i > 0 {
        assert chain[i] in chain && chain[i] != chain[0];
        assert StageOk(w, {head}, chain[i]);
        assert LinkedOneBit(w, chain[i - 1], chain[i - 1 + 1]);
      }
    }
    forall i | 0 <= i < |chain| - 1 ensures Linked(w, chain[i], chain[i + 1]) {
      assert LinkedOneBit(w, chain[i], chain[i + 1]);
    }
    forall p | Stages(w, p) && p[0] == head ensures p <= chain {
      StagesAreRecognised(w, p);
    }
  }
}
