/**
 What the standalone pass finds on a module's own cells holds of the cells of an
 instance in the flat design: the clock of an output is that of the flops behind
 it, and the clock of an input that of the flops it reaches first.
 */
module BlockBodies {
  import opened Netlist
  import opened Graph
  import opened Fanout
  import opened FanoutFilter
  import opened CrossingSearch
  import opened Crossings
  import opened Drivers
  import opened CellWalk
  import opened Fanin
  import opened BoundaryCover
  import opened BoundarySummaries
  import opened Composition
  import opened ComposedCover

  // ---- what the standalone pass finds --------------------------------------

  function DomainOf(domains: map<nat, string>, i: nat): Option<string> {
    if i in domains then Some(domains[i]) else None
  }

  // A flop of domain c that the port's nets reach first, or one behind them.
  ghost predicate CapturesAs(m: Module, domains: map<nat, string>, bits: seq<int>, maxDepth: nat, c: Option<string>) {
    exists i: nat {:trigger ReachedForward(m, bits, maxDepth, i)} ::
      ReachedForward(m, bits, maxDepth, i) && i < |m.cells| && IsFf(m.cells[i].ctype) && c == DomainOf(domains, i)
  }

  ghost predicate LaunchesAs(m: Module, drivers: map<int, Driver>, domains: map<nat, string>, bits: seq<int>,
                             maxDepth: nat, c: Option<string>)
  {
    exists i: nat {:trigger FlopBehind(m, drivers, bits, maxDepth, i)} ::
      FlopBehind(m, drivers, bits, maxDepth, i) && c == DomainOf(domains, i)
  }

  ghost function CaptureDomains(m: Module, domains: map<nat, string>, bits: seq<int>,
                                maxDepth: nat): iset<Option<string>> {
    iset c: Option<string> | CapturesAs(m, domains, bits, maxDepth, c)
  }

  ghost function LaunchDomains(m: Module, drivers: map<int, Driver>, domains: map<nat, string>, bits: seq<int>,
                               maxDepth: nat): iset<Option<string>>
  {
    iset c: Option<string> | LaunchesAs(m, drivers, domains, bits, maxDepth, c)
  }

  // A set of domains collapsed to one clock, or to none and whether that is ambiguous.
  ghost predicate Collapses(seen: iset<Option<string>>, f: PortFacts) {
    if f.clock.Some? then seen == iset{f.clock} && !f.ambiguous
    else if f.ambiguous then exists a, b :: a in seen && b in seen && a != b
    else forall c :: c in seen ==> c == None
  }

  // ---- a module and its place in the flat design --------------------------

  // Where each net of the module ends up.
  type Renaming = int -> int

  function MapBit(at: Renaming, bit: Bit): Bit {
    if bit.Net? then Net(at(bit.id)) else bit
  }

  ghost predicate IsImage(at: Renaming, bits: seq<Bit>, image: seq<Bit>) {
    |image| == |bits| && forall i :: 0 <= i < |bits| ==> image[i] == MapBit(at, bits[i])
  }

  // Flat cell `c` is module cell `k` with its nets renamed.
  ghost predicate IsCopy(sub: Module, at: Renaming, k: nat, c: Cell) {
    && k < |sub.cells| && c.ctype == sub.cells[k].ctype && |c.pins| == |sub.cells[k].pins|
    && forall p :: 0 <= p < |c.pins| ==>
         c.pins[p].port == sub.cells[k].pins[p].port && IsImage(at, sub.cells[k].pins[p].bits, c.pins[p].bits)
  }

  ghost predicate IsCopiedFlop(sub: Module, at: Renaming, domains: map<nat, string>, k: nat, fd: FlopDomain) {
    && k < |sub.cells| && IsFf(sub.cells[k].ctype) && fd.clock == DomainOf(domains, k)
    && IsImage(at, Conn(sub.cells[k], "Q"), fd.flop.q) && IsImage(at, Conn(sub.cells[k], "D"), fd.flop.d)
  }

  // Every net of the module has one driver, its inputs have none, and a cell with a `Y`
  // has no `Q`.
  ghost predicate OneDriver(sub: Module) {
    && (forall d, e, x: int {:trigger Outputs(sub, d, x), Outputs(sub, e, x)} ::
          Outputs(sub, d, x) && Outputs(sub, e, x) ==> d == e)
    && (forall port, d, x: int {:trigger Outputs(sub, d, x), port in sub.ports} ::
          port in sub.ports && Enters(port) && Net(x) in port.bits ==> !Outputs(sub, d, x))
    && (forall k :: 0 <= k < |sub.cells| && Transit(sub.cells[k]) && Conn(sub.cells[k], "Y") != [] ==>
          Conn(sub.cells[k], "Q") == [])
  }

  // A net the module drives is not tied to another of its nets from outside.
  ghost predicate DrivenApart(sub: Module, at: Renaming) {
    forall d, x: int, y: int {:trigger Outputs(sub, d, x), at(y)} :: Outputs(sub, d, x) && at(x) == at(y) ==> x == y
  }

  ghost predicate IsBody(g: Design, b: nat, sub: Module, at: Renaming, domains: map<nat, string>)
    requires IsBlock(g, b)
  {
    && ValidModule(sub) && OneDriver(sub) && DrivenApart(sub, at)
    && (forall i :: 0 <= i < |g.cellOwner| && i < |g.flat.cells| && g.cellOwner[i] == Some(b) ==>
          ValidCell(g.flat.cells[i]) && exists k: nat :: IsCopy(sub, at, k, g.flat.cells[i]))
    && (forall f :: 0 <= f < |g.flopOwner| && f < |g.flops| && g.flopOwner[f] == Some(b) ==>
          exists k: nat :: IsCopiedFlop(sub, at, domains, k, g.flops[f]))
    && (forall port :: port in sub.ports ==> IsImage(at, port.bits, Conn(g.top.cells[b], port.name)))
  }

  // ---- one step -----------------------------------------------------------

  // Cell k of the module passes net s to net t: it reads s on a pin that is no clock,
  // and drives t.
  ghost predicate SubStep(sub: Module, k: nat, p: nat, s: int, t: int) {
    && k < |sub.cells| && Transit(sub.cells[k]) && p < |sub.cells[k].pins|
    && sub.cells[k].pins[p].port != "CLK" && Net(s) in sub.cells[k].pins[p].bits && Net(t) in Conn(sub.cells[k], "Y")
  }

  lemma ImageOf(at: Renaming, bits: seq<Bit>, image: seq<Bit>, x: int) returns (s: int)
    requires IsImage(at, bits, image) && Net(x) in image
    ensures Net(s) in bits && at(s) == x
  {
    var i :| 0 <= i < |image| && image[i] == Net(x);
    s := bits[i].id;
  }

  // A pin of the copy, and the same pin of the cell.
  lemma CopiedConn(sub: Module, at: Renaming, k: nat, c: Cell, port: string)
    requires IsCopy(sub, at, k, c) && ValidCell(c) && ValidCell(sub.cells[k])
    ensures IsImage(at, Conn(sub.cells[k], port), Conn(c, port))
  {
    if i :| 0 <= i < |c.pins| && c.pins[i].port == port {
      ConnIsPin(c, i);
      ConnIsPin(sub.cells[k], i);
    } else {
      assert forall i :: 0 <= i < |c.pins| ==> sub.cells[k].pins[i].port == c.pins[i].port;
    }
  }

  // A step of the block in the flat design is one in the module.
  lemma StepInBody(g: Design, b: nat, sub: Module, at: Renaming, domains: map<nat, string>, x: int, y: int)
    returns (k: nat, p: nat, s: int, t: int)
    requires OwnersValid(g) && IsBlock(g, b) && IsBody(g, b, sub, at, domains) && StepBy(g, Some(b), x, y)
    ensures SubStep(sub, k, p, s, t) && at(s) == x && at(t) == y
  {
    var i: nat :| i < |g.cellOwner| && g.cellOwner[i] == Some(b) && Passes(g, i, x, y);
    k :| IsCopy(sub, at, k, g.flat.cells[i]);
    p, s, t := StepOfCopy(sub, at, k, g.flat, i, x, y);
  }

  lemma StepOfCopy(sub: Module, at: Renaming, k: nat, flat: Module, i: nat, x: int, y: int)
    returns (p: nat, s: int, t: int)
    requires i < |flat.cells| && IsCopy(sub, at, k, flat.cells[i]) && ValidCell(flat.cells[i]) && ValidModule(sub)
    requires exists site: Site :: site.cell == i && Feeds(flat, true, site, x, y)
    ensures SubStep(sub, k, p, s, t) && at(s) == x && at(t) == y
  {
    var site: Site :| site.cell == i && Feeds(flat, true, site, x, y);
    var c := flat.cells[i];
    CopiedConn(sub, at, k, c, "Y");
    t := ImageOf(at, Conn(sub.cells[k], "Y"), Conn(c, "Y"), y);
    p := site.pin;
    s := ImageOf(at, sub.cells[k].pins[p].bits, c.pins[p].bits, x);
  }

  // ---- walks --------------------------------------------------------------

  ghost predicate SubLinked(sub: Module, s: int, t: int) {
    exists k: nat, p: nat :: SubStep(sub, k, p, s, t)
  }

  ghost predicate SubWalk(sub: Module, r: seq<int>) {
    |r| > 0 && forall i {:trigger LinkedAt(sub, r, i)} :: 0 < i < |r| ==> LinkedAt(sub, r, i)
  }

  ghost predicate LinkedAt(sub: Module, r: seq<int>, i: int)
    requires 0 < i < |r|
  {
    SubLinked(sub, r[i - 1], r[i])
  }

  lemma LinkedIsDriven(sub: Module, s: int, t: int) returns (d: Driver)
    requires SubLinked(sub, s, t)
    ensures Outputs(sub, d, t) && d.port == "Y"
  {
    var k: nat, p: nat :| SubStep(sub, k, p, s, t);
    d := Driver(k, "Y");
  }

  // A walk through the block is one through the module, net by net.
  lemma {:induction false} LiftWalk(g: Design, b: nat, sub: Module, at: Renaming, domains: map<nat, string>,
                                    q: seq<int>)
    returns (r: seq<int>)
    requires OwnersValid(g) && IsBlock(g, b) && IsBody(g, b, sub, at, domains) && Inside(g, b, q) && |q| > 1
    ensures |r| == |q| && SubWalk(sub, r) && at(r[0]) == q[0] && at(r[|r| - 1]) == q[|q| - 1]
    decreases |q|
  {
    var n := |q| - 1;
    assert StepInto(g, Some(b), q, n);
    var k, p, s, t := StepInBody(g, b, sub, at, domains, q[n - 1], q[n]);
    if n == 1 {
      r := [s, t];
      assert LinkedAt(sub, r, 1);
    } else {
      PrefixInside(g, b, q);
      var r' := LiftWalk(g, b, sub, at, domains, q[..n]);
      PrefixWalk(sub, r');
      EndIsIts(sub, at, r'[n - 2], r'[n - 1], s);
      r := r' + [t];
      WalkExtends(sub, r', t);
    }
  }

  lemma EndIsIts(sub: Module, at: Renaming, u: int, v: int, s: int)
    requires DrivenApart(sub, at) && SubLinked(sub, u, v) && at(v) == at(s)
    ensures v == s
  {
    var d := LinkedIsDriven(sub, u, v);
  }

  lemma PrefixInside(g: Design, b: nat, q: seq<int>)
    requires Inside(g, b, q) && |q| > 1
    ensures Inside(g, b, q[..|q| - 1])
  {
    var front := q[..|q| - 1];
    forall i | 0 < i < |front| ensures StepInto(g, Some(b), front, i) {
      assert StepInto(g, Some(b), q, i);
    }
  }

  lemma WalkExtends(sub: Module, r: seq<int>, t: int)
    requires SubWalk(sub, r) && SubLinked(sub, r[|r| - 1], t)
    ensures SubWalk(sub, r + [t])
  {
    var all := r + [t];
    forall i | 0 < i < |all| ensures LinkedAt(sub, all, i) {
      if i < |r| {
        assert LinkedAt(sub, r, i);
      }
    }
  }

  lemma PrefixWalk(sub: Module, r: seq<int>)
    requires SubWalk(sub, r) && |r| > 1
    ensures SubWalk(sub, r[..|r| - 1]) && SubLinked(sub, r[|r| - 2], r[|r| - 1])
  {
    var front := r[..|r| - 1];
    assert LinkedAt(sub, r, |r| - 1);
    forall i | 0 < i < |front| ensures LinkedAt(sub, front, i) {
      assert LinkedAt(sub, r, i);
    }
  }

  // ---- backward -----------------------------------------------------------

  lemma {:induction false} PrependStep(e: Edges, t: int, u: int, n: nat, z: int)
    requires (t, u) in e && z in Ball(e, iset{u}, n)
    ensures z in Ball(e, iset{t}, n + 1)
    decreases n
  {
    assert t in Ball(e, iset{t}, 0);
    if n == 0 {
      BallStep(e, iset{t}, 0, t, u);
    } else if z in Ball(e, iset{u}, n - 1) {
      PrependStep(e, t, u, n - 1, z);
    } else {
      var a := LastStep(e, iset{u}, z, n);
      PrependStep(e, t, u, n - 1, a);
      BallStep(e, iset{t}, n, a, z);
    }
  }

  // Whatever follows u follows t.
  ghost predicate Covers(e: Edges, u: int, t: int) {
    forall y: int {:trigger Follows(e, u, y)} :: Follows(e, u, y) ==> Follows(e, t, y)
  }

  ghost predicate Follows(e: Edges, u: int, y: int) {
    (u, y) in e
  }

  lemma {:induction false} SameSuccessors(e: Edges, u: int, t: int, n: nat, z: int)
    requires Covers(e, u, t) && z in Ball(e, iset{u}, n) && z != u
    ensures z in Ball(e, iset{t}, n)
    decreases n
  {
    if n > 0 {
      if z in Ball(e, iset{u}, n - 1) {
        SameSuccessors(e, u, t, n - 1, z);
      } else {
        var a := LastStep(e, iset{u}, z, n);
        assert t in Ball(e, iset{t}, 0);
        BallGrows(e, iset{t}, 0, n - 1);
        if a == u {
          assert Follows(e, u, z) && Follows(e, t, z);
          BallStep(e, iset{t}, n - 1, t, z);
        } else {
          SameSuccessors(e, u, t, n - 1, a);
          BallStep(e, iset{t}, n - 1, a, z);
        }
      }
    }
  }

  lemma DriverIsIts(sub: Module, drivers: map<int, Driver>, d: Driver, x: int)
    requires OneDriver(sub) && IsDriverIndex(sub, drivers) && Outputs(sub, d, x)
    ensures x in drivers && drivers[x] == d
  {
    assert IsEntry(sub, drivers, x);
  }

  // One step of a walk: the walk back from t takes it in reverse, or t and s have one driver.
  lemma StepBackward(sub: Module, drivers: map<int, Driver>, s: int, t: int)
    requires ValidModule(sub) && OneDriver(sub) && IsDriverIndex(sub, drivers) && SubLinked(sub, s, t)
    ensures t in drivers && drivers[t].port == "Y"
    ensures (t, s) in BackwardEdges(sub, drivers) || (s in drivers && drivers[s] == drivers[t])
  {
    var k: nat, p: nat :| SubStep(sub, k, p, s, t);
    DriverIsIts(sub, drivers, Driver(k, "Y"), t);
    ConnIsPin(sub.cells[k], p);
    if sub.cells[k].pins[p].port == "Y" {
      DriverIsIts(sub, drivers, Driver(k, "Y"), s);
    } else {
      assert sub.cells[k].pins[p].port != "Q";
      assert InputOf(sub, k, s);
    }
  }

  lemma SameDriver(sub: Module, drivers: map<int, Driver>, u: int, t: int)
    requires u in drivers && t in drivers && drivers[u] == drivers[t]
    ensures Covers(BackwardEdges(sub, drivers), u, t)
  {
  }

  lemma OneFurtherBack(sub: Module, drivers: map<int, Driver>, z: int, u: int, t: int, m: nat) returns (n: nat)
    requires z in Ball(BackwardEdges(sub, drivers), iset{u}, m) && z in drivers && drivers[z].port == "Q"
    requires t in drivers && drivers[t].port == "Y"
    requires (t, u) in BackwardEdges(sub, drivers) || (u in drivers && drivers[u] == drivers[t])
    ensures z in Ball(BackwardEdges(sub, drivers), iset{t}, n)
  {
    var e := BackwardEdges(sub, drivers);
    if (t, u) in e {
      PrependStep(e, t, u, m, z);
      n := m + 1;
    } else {
      SameDriver(sub, drivers, u, t);
      SameSuccessors(e, u, t, m, z);
      n := m;
    }
  }

  // The walk back from the end of a walk finds its start, if a flop drives it.
  lemma {:induction false} WalkBackward(sub: Module, drivers: map<int, Driver>, r: seq<int>) returns (n: nat)
    requires ValidModule(sub) && OneDriver(sub) && IsDriverIndex(sub, drivers) && SubWalk(sub, r)
    requires r[0] in drivers && drivers[r[0]].port == "Q"
    ensures r[0] in Ball(BackwardEdges(sub, drivers), iset{r[|r| - 1]}, n)
    decreases |r|
  {
    var e := BackwardEdges(sub, drivers);
    n := 0;
    if |r| > 1 {
      var u, t := r[|r| - 2], r[|r| - 1];
      PrefixWalk(sub, r);
      var m := WalkBackward(sub, drivers, r[..|r| - 1]);
      StepBackward(sub, drivers, u, t);
      n := OneFurtherBack(sub, drivers, r[0], u, t, m);
    }
  }

  // ---- forward ------------------------------------------------------------

  lemma {:induction false} HasPredecessor(e: Edges, s: int, n: nat, z: int) returns (c: int, m: nat)
    requires z in Ball(e, iset{s}, n) && z != s
    ensures c in Ball(e, iset{s}, m) && (c, z) in e
    decreases n
  {
    if z in Ball(e, iset{s}, n - 1) {
      c, m := HasPredecessor(e, s, n - 1, z);
    } else {
      c := LastStep(e, iset{s}, z, n);
      m := n - 1;
    }
  }

  // What feeds one output of a cell feeds the others.
  lemma SameCellForward(sub: Module, k: nat, c: int, s: int, t: int)
    requires OneDriver(sub) && Outputs(sub, Driver(k, "Y"), s) && Outputs(sub, Driver(k, "Y"), t)
    requires (c, s) in ForwardEdges(sub)
    ensures (c, t) in ForwardEdges(sub)
  {
    var i :| ForwardStep(sub, i, c, s);
    assert Outputs(sub, Driver(i, "Y"), s) || Outputs(sub, Driver(i, "Q"), s);
    assert ForwardStep(sub, k, c, t);
  }

  lemma OneFurther(e: Edges, s: int, u: int, t: int, m: nat) returns (n: nat)
    requires u in Ball(e, iset{s}, m)
    requires (u, t) in e || (u != s && forall c: int {:trigger (c, u) in e} :: (c, u) in e ==> (c, t) in e)
    ensures t in Ball(e, iset{s}, n)
  {
    var c, k := u, m;
    if (u, t) !in e {
      c, k := HasPredecessor(e, s, m, u);
    }
    BallStep(e, iset{s}, k, c, t);
    n := k + 1;
  }

  // One step of a walk: the forward walk takes it, or whatever leads to s leads to t.
  lemma StepForward(sub: Module, s: int, t: int)
    requires ValidModule(sub) && OneDriver(sub) && SubLinked(sub, s, t)
    ensures (s, t) in ForwardEdges(sub) ||
            ((exists d :: Outputs(sub, d, s)) && forall c: int {:trigger (c, s) in ForwardEdges(sub)} ::
               (c, s) in ForwardEdges(sub) ==> (c, t) in ForwardEdges(sub))
  {
    var k: nat, p: nat :| SubStep(sub, k, p, s, t);
    var pin := sub.cells[k].pins[p];
    ConnIsPin(sub.cells[k], p);
    if pin.port == "Y" {
      assert Outputs(sub, Driver(k, "Y"), s);
      forall c: int | (c, s) in ForwardEdges(sub) ensures (c, t) in ForwardEdges(sub) {
        SameCellForward(sub, k, c, s, t);
      }
    } else {
      var idx: nat :| idx < |pin.bits| && pin.bits[idx] == Net(s);
      assert pin.port != "Q";
      assert DataReads(sub, Site(k, p, idx), s);
      assert ForwardStep(sub, k, s, t);
    }
  }

  lemma ForwardOne(sub: Module, s: int, u: int, t: int, m: nat) returns (n: nat)
    requires ValidModule(sub) && OneDriver(sub) && SubLinked(sub, u, t)
    requires (forall d :: !Outputs(sub, d, s)) && u in Ball(ForwardEdges(sub), iset{s}, m)
    ensures t in Ball(ForwardEdges(sub), iset{s}, n)
  {
    StepForward(sub, u, t);
    n := OneFurther(ForwardEdges(sub), s, u, t, m);
  }

  lemma {:induction false} WalkForward(sub: Module, r: seq<int>) returns (n: nat)
    requires ValidModule(sub) && OneDriver(sub) && SubWalk(sub, r) && forall d :: !Outputs(sub, d, r[0])
    ensures r[|r| - 1] in Ball(ForwardEdges(sub), iset{r[0]}, n)
    decreases |r|
  {
    var e := ForwardEdges(sub);
    n := 0;
    if |r| > 1 {
      var u, t := r[|r| - 2], r[|r| - 1];
      PrefixWalk(sub, r);
      var m := WalkForward(sub, r[..|r| - 1]);
      n := ForwardOne(sub, r[0], u, t, m);
    }
  }

  // ---- the facts of a port ------------------------------------------------

  // The walk's bound does not cut the cone off.
  ghost predicate Fits(e: Edges, bits: seq<int>, depth: nat) {
    forall n: nat {:trigger Ball(e, Start(bits), n)} :: Ball(e, Start(bits), n) <= Ball(e, Start(bits), depth)
  }

  lemma FromOneBit(e: Edges, bits: seq<int>, depth: nat, s: int, n: nat, z: int)
    requires Fits(e, bits, depth) && s in bits && z in Ball(e, iset{s}, n)
    ensures z in Ball(e, Start(bits), depth)
  {
    BallMonotone(e, e, iset{s}, Start(bits), n);
  }

  // The net of the module a driven net of the flat design is, on a port.
  lemma PortNet(g: Design, b: nat, sub: Module, at: Renaming, domains: map<nat, string>, port: Port, s: int, d: Driver)
    requires IsBlock(g, b) && IsBody(g, b, sub, at, domains) && port in sub.ports
    requires Outputs(sub, d, s) && OnPort(g, b, port, at(s))
    ensures s in NetSeq(port.bits)
  {
    var u := ImageOf(at, port.bits, Conn(g.top.cells[b], port.name), at(s));
  }

  // A flop of the block with a walk to an output port is behind that port in the module.
  lemma LauncherIsBehind(g: Design, b: nat, sub: Module, at: Renaming, domains: map<nat, string>,
                         drivers: map<int, Driver>, depth: nat, port: Port, f: nat, x: int, y: int)
    returns (k: nat)
    requires OwnersValid(g) && IsBlock(g, b) && IsBody(g, b, sub, at, domains) && IsDriverIndex(sub, drivers)
    requires port in sub.ports && Fits(BackwardEdges(sub, drivers), NetSeq(port.bits), depth)
    requires f < |g.flops| && f < |g.flopOwner| && g.flopOwner[f] == Some(b) && Net(x) in g.flops[f].flop.q
    requires Connects(g, b, x, y) && OnPort(g, b, port, y)
    ensures FlopBehind(sub, drivers, NetSeq(port.bits), depth, k) && g.flops[f].clock == DomainOf(domains, k)
  {
    k :| IsCopiedFlop(sub, at, domains, k, g.flops[f]);
    var s := ImageOf(at, Conn(sub.cells[k], "Q"), g.flops[f].flop.q, x);
    DriverIsIts(sub, drivers, Driver(k, "Q"), s);
    var t, d, n := LaunchWalk(g, b, sub, at, domains, drivers, s, y);
    PortNet(g, b, sub, at, domains, port, t, d);
    FromOneBit(BackwardEdges(sub, drivers), NetSeq(port.bits), depth, t, n, s);
  }

  // From a net a flop drives, to the net of the module the walk ends at.
  lemma LaunchWalk(g: Design, b: nat, sub: Module, at: Renaming, domains: map<nat, string>,
                   drivers: map<int, Driver>, s: int, y: int)
    returns (t: int, d: Driver, n: nat)
    requires OwnersValid(g) && IsBlock(g, b) && IsBody(g, b, sub, at, domains) && IsDriverIndex(sub, drivers)
    requires s in drivers && drivers[s].port == "Q" && Connects(g, b, at(s), y)
    ensures Outputs(sub, d, t) && at(t) == y && s in Ball(BackwardEdges(sub, drivers), iset{t}, n)
  {
    var q :| Inside(g, b, q) && q[0] == at(s) && q[|q| - 1] == y;
    assert IsEntry(sub, drivers, s);
    if |q| == 1 {
      t, d, n := s, drivers[s], 0;
    } else {
      var r := LiftWalk(g, b, sub, at, domains, q);
      assert r[0] == s;
      n := WalkBackward(sub, drivers, r);
      t := r[|r| - 1];
      PrefixWalk(sub, r);
      d := LinkedIsDriven(sub, r[|r| - 2], t);
    }
  }

  // What the standalone pass found of an output: the collapse of the domains behind it.
  ghost predicate IsFoundOutput(sub: Module, drivers: map<int, Driver>, domains: map<nat, string>, depth: nat,
                                port: Port,
                                f: PortFacts) {
    && Collapses(LaunchDomains(sub, drivers, domains, NetSeq(port.bits), depth), f)
    && Fits(BackwardEdges(sub, drivers), NetSeq(port.bits), depth)
  }

  lemma CollapsedClock(seen: iset<Option<string>>, f: PortFacts, c: Option<string>)
    requires Collapses(seen, f) && c in seen
    ensures f.clock.None? || f.clock == c
  {
  }

  lemma LauncherIsSeen(g: Design, b: nat, sub: Module, at: Renaming, domains: map<nat, string>,
                       drivers: map<int, Driver>, depth: nat, port: Port, f: nat, x: int, y: int)
    requires OwnersValid(g) && IsBlock(g, b) && IsBody(g, b, sub, at, domains) && IsDriverIndex(sub, drivers)
    requires port in sub.ports && Fits(BackwardEdges(sub, drivers), NetSeq(port.bits), depth)
    requires f < |g.flops| && f < |g.flopOwner| && g.flopOwner[f] == Some(b) && Net(x) in g.flops[f].flop.q
    requires Connects(g, b, x, y) && OnPort(g, b, port, y)
    ensures g.flops[f].clock in LaunchDomains(sub, drivers, domains, NetSeq(port.bits), depth)
  {
    var k := LauncherIsBehind(g, b, sub, at, domains, drivers, depth, port, f, x, y);
    assert LaunchesAs(sub, drivers, domains, NetSeq(port.bits), depth, DomainOf(domains, k));
  }

  // So an output the pass gave a clock is launched in that clock alone.
  lemma FoundLaunchIsRight(g: Design, b: nat, sub: Module, at: Renaming, domains: map<nat, string>,
                           drivers: map<int, Driver>, depth: nat, pins: PinMap, a: ModuleAnalysis, port: Port,
                           f: nat, x: int, y: int)
    requires OwnersValid(g) && IsBlock(g, b) && IsBody(g, b, sub, at, domains) && IsDriverIndex(sub, drivers)
    requires port in sub.ports && port.name in a.ports
    requires IsFoundOutput(sub, drivers, domains, depth, port, a.ports[port.name])
    ensures LaunchRight(g, b, pins, a, port, f, x, y)
  {
    if f < |g.flops| && f < |g.flopOwner| && g.flopOwner[f] == Some(b) && Net(x) in g.flops[f].flop.q &&
       Connects(g, b, x, y) && OnPort(g, b, port, y)
    {
      LauncherIsSeen(g, b, sub, at, domains, drivers, depth, port, f, x, y);
      CollapsedClock(LaunchDomains(sub, drivers, domains, NetSeq(port.bits), depth), a.ports[port.name],
                     g.flops[f].clock);
    }
  }

  // ---- capture ------------------------------------------------------------

  // A net of the module that a cell reads on a pin that is no clock.
  ghost predicate ReadInside(sub: Module, s: int) {
    exists k: nat, p: nat :: k < |sub.cells| && ReadsOn(sub.cells[k], p, s)
  }

  ghost predicate ReadsOn(c: Cell, p: nat, s: int) {
    p < |c.pins| && c.pins[p].port != "CLK" && Net(s) in c.pins[p].bits
  }

  ghost predicate OnInputPort(sub: Module, pins: PinMap, port: Port, s: int) {
    port in sub.ports && Enters(port) && port.name !in pins && Net(s) in port.bits
  }

  // What enters the block and is read in it comes by a data input.
  ghost predicate EntersByPorts(g: Design, b: nat, sub: Module, at: Renaming, pins: PinMap)
    requires IsBlock(g, b)
  {
    forall s: int {:trigger ReadInside(sub, s)} ::
      ReadInside(sub, s) && EntersBlock(g, b, at(s)) ==> exists port :: OnInputPort(sub, pins, port, s)
  }

  // A walk of the block from net x to the D pin of a flop: the input net of the module it
  // starts at, and the net its flop reads.
  lemma CaptureWalk(g: Design, b: nat, sub: Module, at: Renaming, domains: map<nat, string>, pins: PinMap, d: nat,
                    x: int, y: int)
    returns (k: nat, port: Port, s: int, t: int, n: nat)
    requires OwnersValid(g) && IsBlock(g, b) && IsBody(g, b, sub, at, domains) && EntersByPorts(g, b, sub, at, pins)
    requires d < |g.flops| && d < |g.flopOwner| && g.flopOwner[d] == Some(b) && IsDNet(g.flops[d], y)
    requires EntersBlock(g, b, x) && Connects(g, b, x, y)
    ensures IsCopiedFlop(sub, at, domains, k, g.flops[d]) && Net(t) in Conn(sub.cells[k], "D")
    ensures OnInputPort(sub, pins, port, s) && at(s) == x && t in Ball(ForwardEdges(sub), iset{s}, n)
  {
    k :| IsCopiedFlop(sub, at, domains, k, g.flops[d]);
    t := ImageOf(at, Conn(sub.cells[k], "D"), g.flops[d].flop.d, y);
    var q :| Inside(g, b, q) && q[0] == x && q[|q| - 1] == y;
    if |q| == 1 {
      s, n := t, 0;
      DPinReads(sub, k, t);
      port :| OnInputPort(sub, pins, port, s);
    } else {
      var r := LiftWalk(g, b, sub, at, domains, q);
      s := r[0];
      FirstIsRead(sub, r);
      port :| OnInputPort(sub, pins, port, s);
      n := WalkForward(sub, r);
      PrefixWalk(sub, r);
      var e := LinkedIsDriven(sub, r[|r| - 2], r[|r| - 1]);
      assert t == r[|r| - 1];
    }
  }

  lemma DPinReads(sub: Module, k: nat, t: int)
    requires k < |sub.cells| && Net(t) in Conn(sub.cells[k], "D")
    ensures ReadInside(sub, t) && ReadsNet(sub, k, t)
  {
    var c := sub.cells[k];
    var p: nat :| p < |c.pins| && c.pins[p] == Pin("D", Conn(c, "D"));
    var i: nat :| i < |c.pins[p].bits| && c.pins[p].bits[i] == Net(t);
    assert ReadsOn(c, p, t);
    assert "D" !in NON_READER_PORTS && "D" != "CLK";
    assert DataReads(sub, Site(k, p, i), t);
  }

  lemma FirstIsRead(sub: Module, r: seq<int>)
    requires SubWalk(sub, r) && |r| > 1
    ensures ReadInside(sub, r[0])
  {
    assert LinkedAt(sub, r, 1);
    var k: nat, p: nat :| SubStep(sub, k, p, r[0], r[1]);
    assert ReadsOn(sub.cells[k], p, r[0]);
  }

  // What the standalone pass found of an input: the collapse of the domains it reaches.
  ghost predicate IsFoundInput(sub: Module, domains: map<nat, string>, depth: nat, port: Port, f: PortFacts) {
    && Collapses(CaptureDomains(sub, domains, NetSeq(port.bits), depth), f)
    && Fits(ForwardEdges(sub), NetSeq(port.bits), depth)
  }

  lemma CapturerIsSeen(sub: Module, domains: map<nat, string>, depth: nat, port: Port, k: nat, s: int, t: int, n: nat)
    requires Fits(ForwardEdges(sub), NetSeq(port.bits), depth) && Net(s) in port.bits
    requires k < |sub.cells| && IsFf(sub.cells[k].ctype) && Net(t) in Conn(sub.cells[k], "D")
    requires t in Ball(ForwardEdges(sub), iset{s}, n)
    ensures DomainOf(domains, k) in CaptureDomains(sub, domains, NetSeq(port.bits), depth)
  {
    FromOneBit(ForwardEdges(sub), NetSeq(port.bits), depth, s, n, t);
    DPinReads(sub, k, t);
    assert ReachedForward(sub, NetSeq(port.bits), depth, k);
    assert CapturesAs(sub, domains, NetSeq(port.bits), depth, DomainOf(domains, k));
  }

  ghost predicate FoundInputs(sub: Module, domains: map<nat, string>, depth: nat, pins: PinMap, a: ModuleAnalysis) {
    forall port :: port in sub.ports && Enters(port) && port.name !in pins ==>
      port.name in a.ports && IsFoundInput(sub, domains, depth, port, a.ports[port.name])
  }

  // A module that got a summary has no input captured in two clocks.
  ghost predicate NoneAmbiguous(sub: Module, pins: PinMap, a: ModuleAnalysis) {
    forall port :: port in sub.ports ==> !AmbiguousInput(port, pins.Keys, a)
  }

  // So data captured by a flop of the block enters by an input the pass gave its clock.
  lemma FoundCaptureIsRight(g: Design, b: nat, sub: Module, at: Renaming, domains: map<nat, string>, depth: nat,
                            pins: PinMap, a: ModuleAnalysis, d: nat)
    requires OwnersValid(g) && IsBlock(g, b) && IsBody(g, b, sub, at, domains) && EntersByPorts(g, b, sub, at, pins)
    requires FoundInputs(sub, domains, depth, pins, a) && NoneAmbiguous(sub, pins, a)
    requires d < |g.flops| && d < |g.flopOwner| && g.flopOwner[d] == Some(b) && g.flops[d].clock.Some?
    ensures CaptureRight(g, b, sub, pins, a, d)
  {
    forall x, y | EntersBlock(g, b, x) && Connects(g, b, x, y) && IsDNet(g.flops[d], y)
      ensures InputIn(g, b, sub, pins, a, x, g.flops[d].clock)
    {
      InputIsFound(g, b, sub, at, domains, depth, pins, a, d, x, y);
    }
  }

  lemma InputIsFound(g: Design, b: nat, sub: Module, at: Renaming, domains: map<nat, string>, depth: nat,
                     pins: PinMap, a: ModuleAnalysis, d: nat, x: int, y: int)
    requires OwnersValid(g) && IsBlock(g, b) && IsBody(g, b, sub, at, domains) && EntersByPorts(g, b, sub, at, pins)
    requires FoundInputs(sub, domains, depth, pins, a) && NoneAmbiguous(sub, pins, a)
    requires d < |g.flops| && d < |g.flopOwner| && g.flopOwner[d] == Some(b) && g.flops[d].clock.Some?
    requires EntersBlock(g, b, x) && Connects(g, b, x, y) && IsDNet(g.flops[d], y)
    ensures InputIn(g, b, sub, pins, a, x, g.flops[d].clock)
  {
    var k, port, s, t, n := CaptureWalk(g, b, sub, at, domains, pins, d, x, y);
    CapturerIsSeen(sub, domains, depth, port, k, s, t, n);
    CollapsedInput(CaptureDomains(sub, domains, NetSeq(port.bits), depth), a.ports[port.name], g.flops[d].clock);
    InputOnPort(g, b, sub, at, domains, pins, a, port, s);
  }

  lemma CollapsedInput(seen: iset<Option<string>>, f: PortFacts, c: Option<string>)
    requires Collapses(seen, f) && !f.ambiguous && c.Some? && c in seen
    ensures f.clock == c
  {
  }

  lemma InputOnPort(g: Design, b: nat, sub: Module, at: Renaming, domains: map<nat, string>, pins: PinMap,
                    a: ModuleAnalysis, port: Port, s: int)
    requires IsBlock(g, b) && IsBody(g, b, sub, at, domains) && OnInputPort(sub, pins, port, s) && port.name in a.ports
    ensures InputIn(g, b, sub, pins, a, at(s), a.ports[port.name].clock)
  {
    var conn := Conn(g.top.cells[b], port.name);
    var i :| 0 <= i < |port.bits| && port.bits[i] == Net(s);
    assert conn[i] == Net(at(s));
    assert OnPort(g, b, port, at(s)) && IsAttributed(port, pins, a, a.ports[port.name].clock);
  }

  // ---- together -----------------------------------------------------------

  // An instance whose ports the pass found so, left to assume of it only that no output
  // with a clock is fed through to, and that inout ports launch as they capture.
  ghost predicate ThroughsRight(g: Design, b: nat, sub: Module, pins: PinMap, a: ModuleAnalysis)
    requires IsBlock(g, b)
  {
    && (forall port, x, y {:trigger ThroughRight(g, b, sub, pins, a, port, x, y)} ::
          port in sub.ports && Leaves(port) && port.name !in pins && port.name in a.ports ==>
          ThroughRight(g, b, sub, pins, a, port, x, y))
    && (forall port, f: nat, x, y {:trigger LaunchRight(g, b, pins, a, port, f, x, y)} ::
          port in sub.ports && Leaves(port) && Enters(port) && port.name !in pins && port.name in a.ports ==>
          LaunchRight(g, b, pins, a, port, f, x, y))
  }

  ghost predicate FoundOutputs(sub: Module, drivers: map<int, Driver>, domains: map<nat, string>, depth: nat,
                               pins: PinMap, a: ModuleAnalysis) {
    forall port :: port in sub.ports && Leaves(port) && !Enters(port) && port.name !in pins && port.name in a.ports ==>
      IsFoundOutput(sub, drivers, domains, depth, port, a.ports[port.name])
  }

  // The port facts of the standalone pass give what the covering theorem asks of a
  // multi-clock instance, feed-through aside.
  lemma FoundPortsAreRight(g: Design, b: nat, sub: Module, at: Renaming, domains: map<nat, string>,
                           drivers: map<int, Driver>, depth: nat, pins: PinMap, a: ModuleAnalysis)
    requires OwnersValid(g) && IsBlock(g, b) && IsBody(g, b, sub, at, domains) && IsDriverIndex(sub, drivers)
    requires FoundOutputs(sub, drivers, domains, depth, pins, a) && ThroughsRight(g, b, sub, pins, a)
    ensures PortsRight(g, b, sub, pins, a)
  {
    forall port, f: nat, x, y | port in sub.ports && Leaves(port) && port.name !in pins && port.name in a.ports
      ensures LaunchRight(g, b, pins, a, port, f, x, y)
    {
      if !Enters(port) {
        FoundLaunchIsRight(g, b, sub, at, domains, drivers, depth, pins, a, port, f, x, y);
      }
    }
  }

  // ---- the whole walk -----------------------------------------------------

  // What is known of an instance: its module's cells and how they are placed.
  datatype Body = Body(at: Renaming, domains: map<nat, string>, drivers: map<int, Driver>, depth: nat)

  ghost predicate IsFoundBody(g: Design, b: nat, sub: Module, body: Body, pins: PinMap, a: ModuleAnalysis)
    requires IsBlock(g, b)
  {
    && IsBody(g, b, sub, body.at, body.domains) && IsDriverIndex(sub, body.drivers)
    && EntersByPorts(g, b, sub, body.at, pins)
    && FoundOutputs(sub, body.drivers, body.domains, body.depth, pins, a)
    && FoundInputs(sub, body.domains, body.depth, pins, a)
  }

  // A multi-clock instance with the facts found in its cells, no clocked output of which
  // is fed through to; other instances as before.
  ghost predicate InstanceFound(g: Design, e: Env, b: nat, body: Body)
    requires ValidEnv(e) && IsBlock(g, b) && IsBoundary(e, b)
  {
    if OutcomeOf(e, b).Generic? && !IsOneDomain(e, OutcomeOf(e, b).key) then
      var key := OutcomeOf(e, b).key;
      var sub, a := e.blackboxes[key.0], e.analyse(key);
      a.Some? ==> IsFoundBody(g, b, sub, body, key.1, a.value) && ThroughsRight(g, b, sub, key.1, a.value)
    else InstanceRight(g, e, b)
  }

  // Of the destination's block nothing more is assumed when it has several clocks.
  ghost predicate DestinationFound(g: Design, e: Env, b: nat, d: nat)
    requires ValidEnv(e) && IsBlock(g, b) && IsBoundary(e, b) && d < |g.flops|
  {
    (OutcomeOf(e, b).Generic? && !IsOneDomain(e, OutcomeOf(e, b).key)) || DestinationRight(g, e, b, d)
  }

  lemma InstanceFoundIsRight(g: Design, e: Env, b: nat, body: Body)
    requires ValidEnv(e) && OwnersValid(g) && IsBlock(g, b) && IsBoundary(e, b) && InstanceFound(g, e, b, body)
    ensures InstanceRight(g, e, b)
  {
    if OutcomeOf(e, b).Generic? && !IsOneDomain(e, OutcomeOf(e, b).key) {
      var key := OutcomeOf(e, b).key;
      var sub, a := e.blackboxes[key.0], e.analyse(key);
      if a.Some? {
        FoundPortsAreRight(g, b, sub, body.at, body.domains, body.drivers, body.depth, key.1, a.value);
      }
    }
  }

  lemma DestinationFoundIsRight(g: Design, e: Env, st: State, b: nat, body: Body, d: nat)
    requires Composed(g, e, st) && OwnersValid(g) && IsBlock(g, b) && IsBoundary(e, b) && InstanceFound(g, e, b, body)
    requires d < |g.flops| && d < |g.flopOwner| && g.flopOwner[d] == Some(b) && g.flops[d].clock.Some?
    requires DestinationFound(g, e, b, d)
    ensures DestinationRight(g, e, b, d)
  {
    if OutcomeOf(e, b).Generic? && !IsOneDomain(e, OutcomeOf(e, b).key) {
      var key := OutcomeOf(e, b).key;
      var sub, a := e.blackboxes[key.0], e.analyse(key);
      GenericSummary(g, e, st, b);
      if a.Some? {
        MultiClockDeclinesIff(sub, key.1.Keys, a.value);
        FoundCaptureIsRight(g, b, sub, body.at, body.domains, body.depth, key.1, a.value, d);
      }
    }
  }

  // With the port facts found in the modules' own cells, the boundaries the walk composes
  // hide no crossing as long as no clocked output of a multi-clock block is fed through to.
  lemma FoundFactsNeverUnderReport(g: Design, e: Env, st: State, bodies: nat -> Body, portClock: map<string, string>,
                                   maxHops: nat, flatFound: Found, found: Found, f: nat, d: nat, p: seq<int>)
    returns (o: Origin, t: nat)
    requires Composed(g, e, st) && Flattens(g) && TopExact(g, portClock, maxHops, found)
    requires forall b: nat :: IsBlock(g, b) && IsBoundary(e, b) ==> InstanceFound(g, e, b, bodies(b))
    requires FlatReports(g, maxHops, flatFound, f, d, p) && CrossesPort(g, f, d, p)
    requires forall b: nat ::
      g.flopOwner[d] == Some(b) && IsBlock(g, b) && IsBoundary(e, b) ==> DestinationFound(g, e, b, d)
    ensures LeavesRecord(g, portClock, found, p, |p|, o, t) && g.topDomains[t].clock == g.flops[d].clock
  {
    FlatPairIsForeign(g, maxHops, flatFound, f, d, p);
    forall b: nat | IsBlock(g, b) && IsBoundary(e, b) ensures InstanceRight(g, e, b) {
      InstanceFoundIsRight(g, e, b, bodies(b));
    }
    forall b: nat | g.flopOwner[d] == Some(b) && IsBlock(g, b) &&
        IsBoundary(e, b) ensures DestinationRight(g, e, b, d) {
      DestinationFoundIsRight(g, e, st, b, bodies(b), d);
    }
    o, t := ComposedNeverUnderReports(g, e, st, portClock, maxHops, flatFound, found, f, d, p);
  }
}
