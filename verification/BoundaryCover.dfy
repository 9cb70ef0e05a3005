/**
 Replacing blocks by their port boundary never hides a crossing between them, as
 long as their ports are stamped as what is behind them demands.

 `flat` is the flattened design and `top` the same parent with every block kept
 as an opaque instance.  Each path that is a crossing in `flat` leaves at least
 one record in `top` whose source and sink both lie on that path, captured in the
 same clock, whatever mix of parent logic, feed-through blocks and chained blocks
 the path runs through.
 */
module BoundaryCover {
  import opened Netlist
  import opened Graph
  import opened Fanout
  import opened FanoutFilter
  import opened CrossingSearch
  import opened Crossings

  // Owner of a flat cell or flop: the parent, or a block instance of `top`.
  type Owner = Option<nat>

  datatype Design = Design(
    flat: Module,
    cellOwner: seq<Owner>,
    flops: seq<FlopDomain>,
    flopOwner: seq<Owner>,
    top: Module,
    topDomains: seq<FlopDomain>,
    boundaries: Boundaries
  )

  ghost predicate IsBlock(g: Design, b: nat) {
    b < |g.top.cells| && BoundaryFor(g.boundaries, g.top.cells[b]).Some?
  }

  function Summary(g: Design, b: nat): BoundarySummary
    requires b < |g.top.cells| && BoundaryFor(g.boundaries, g.top.cells[b]).Some?
  {
    BoundaryFor(g.boundaries, g.top.cells[b]).value
  }

  // --- who drives and who reads a net -----------------------------------

  // Cell `i` of the flat design passes net a to net b.
  ghost predicate Passes(g: Design, i: nat, a: int, b: int) {
    exists s: Site :: s.cell == i && Feeds(g.flat, true, s, a, b)
  }

  ghost predicate LaunchedBy(g: Design, x: int, who: Owner) {
    || (exists i: nat, a :: i < |g.cellOwner| && g.cellOwner[i] == who && Passes(g, i, a, x))
    || (exists f: nat :: f < |g.flops| && f < |g.flopOwner| && g.flopOwner[f] == who && Net(x) in g.flops[f].flop.q)
  }

  ghost predicate ReceivedBy(g: Design, x: int, who: Owner) {
    || (exists i: nat, b :: i < |g.cellOwner| && g.cellOwner[i] == who && Passes(g, i, x, b))
    || (exists f: nat :: f < |g.flops| && f < |g.flopOwner| && g.flopOwner[f] == who && IsDNet(g.flops[f], x))
  }

  ghost predicate OnOutput(g: Design, b: nat, j: nat, x: int)
    requires IsBlock(g, b)
  {
    j < |Summary(g, b).ports| && Net(x) in Conn(g.top.cells[b], Summary(g, b).ports[j].port)
  }

  ghost predicate OnInput(g: Design, b: nat, j: nat, x: int)
    requires IsBlock(g, b)
  {
    j < |Summary(g, b).inputPorts| && Net(x) in Conn(g.top.cells[b], Summary(g, b).inputPorts[j].port)
  }

  // The clock a port's walks start from, and the one its virtual sink captures in.
  function LaunchClock(g: Design, b: nat, j: nat): Option<string>
    requires IsBlock(g, b) && j < |Summary(g, b).ports|
  {
    Summary(g, b).ports[j].srcClock
  }

  function CaptureClock(g: Design, b: nat, j: nat): Option<string>
    requires IsBlock(g, b) && j < |Summary(g, b).inputPorts|
  {
    var pb := Summary(g, b).inputPorts[j];
    if pb.srcClock.Some? then pb.srcClock else Summary(g, b).clock
  }

  // Net x is on a data input of block `b` that captures in `clock`.
  ghost predicate CapturedIn(g: Design, b: nat, x: int, clock: Option<string>)
    requires IsBlock(g, b)
  {
    exists j: nat :: OnInput(g, b, j, x) && CaptureClock(g, b, j) == clock
  }

  // --- what flattening means --------------------------------------------

  ghost predicate OwnersValid(g: Design) {
    && |g.cellOwner| == |g.flat.cells| && |g.flopOwner| == |g.flops|
    && (forall i :: 0 <= i < |g.cellOwner| && g.cellOwner[i].Some? ==> IsBlock(g, g.cellOwner[i].value))
    && (forall f :: 0 <= f < |g.flopOwner| && g.flopOwner[f].Some? ==> IsBlock(g, g.flopOwner[f].value))
  }

  // The parent's own cells and flops are in `top` unchanged, and so is every virtual sink.
  ghost predicate ParentKept(g: Design) {
    && (forall i :: 0 <= i < |g.cellOwner| && i < |g.flat.cells| && g.cellOwner[i].None? ==>
        g.flat.cells[i] in g.top.cells)
    && (forall f :: 0 <= f < |g.flopOwner| && f < |g.flops| && g.flopOwner[f].None? ==> g.flops[f] in g.topDomains)
    && (forall i: nat, j: nat, fd :: IsSink(g.top, g.boundaries, i, j, fd) ==> fd in g.topDomains)
    && (forall c, d :: 0 <= c < d < |g.topDomains| ==> g.topDomains[c].flop.name != g.topDomains[d].flop.name)
  }

  // A walk through the cells of block `b` alone.
  ghost predicate Inside(g: Design, b: nat, q: seq<int>) {
    |q| > 0 && forall i {:trigger StepInto(g, Some(b), q, i)} :: 0 < i < |q| ==> StepInto(g, Some(b), q, i)
  }

  // The block has combinational logic, or just a wire, from net x to net y.
  ghost predicate Connects(g: Design, b: nat, x: int, y: int) {
    exists q :: Inside(g, b, q) && q[0] == x && q[|q| - 1] == y
  }

  // The i-th step of a walk is by a cell of `who`.
  ghost predicate StepInto(g: Design, who: Owner, q: seq<int>, i: int)
    requires 0 < i < |q|
  {
    StepBy(g, who, q[i - 1], q[i])
  }

  ghost predicate StepBy(g: Design, who: Owner, a: int, b: int) {
    exists i: nat :: i < |g.cellOwner| && g.cellOwner[i] == who && Passes(g, i, a, b)
  }

  // What an output port is stamped with, if anything, is the clock of every flop
  // of the block that reaches it.
  ghost predicate LaunchStamped(g: Design, b: nat, f: nat, j: nat, x: int, y: int)
    requires IsBlock(g, b)
  {
    && f < |g.flops| && f < |g.flopOwner| && g.flopOwner[f] == Some(b) && g.flops[f].clock.Some?
    && Net(x) in g.flops[f].flop.q && Connects(g, b, x, y) && OnOutput(g, b, j, y)
    ==> LaunchClock(g, b, j).None? || LaunchClock(g, b, j) == g.flops[f].clock
  }

  // Net x is handed to block `b` by somebody else.
  ghost predicate EntersBlock(g: Design, b: nat, x: int) {
    ReceivedBy(g, x, Some(b)) && LaunchedElsewhere(g, b, x)
  }

  ghost predicate LaunchedElsewhere(g: Design, b: nat, x: int) {
    exists who :: who != Some(b) && LaunchedBy(g, x, who)
  }

  // An output the block feeds through to is stamped like the input it comes from.
  ghost predicate ThroughStamped(g: Design, b: nat, j: nat, x: int, y: int)
    requires IsBlock(g, b)
  {
    EntersBlock(g, b, x) && Connects(g, b, x, y) && OnOutput(g, b, j, y) && LaunchClock(g, b, j).Some?
    ==> CapturedIn(g, b, x, LaunchClock(g, b, j))
  }

  ghost predicate BlockStamped(g: Design, b: nat)
    requires IsBlock(g, b)
  {
    && (forall f: nat, j: nat, x, y {:trigger LaunchStamped(g, b, f, j, x, y)} :: LaunchStamped(g, b, f, j, x, y))
    && (forall j: nat, x, y {:trigger ThroughStamped(g, b, j, x, y)} :: ThroughStamped(g, b, j, x, y))
  }

  ghost predicate PortsStamped(g: Design) {
    forall b: nat {:trigger IsBlock(g, b)} :: IsBlock(g, b) ==> BlockStamped(g, b)
  }

  // Wherever data reaches flop `d` from outside its block, the block captures it
  // in that flop's clock.
  ghost predicate CaptureStamped(g: Design, d: nat)
    requires d < |g.flops|
  {
    forall b: nat, x, y {:trigger Connects(g, b, x, y)} ::
      && d < |g.flopOwner| && g.flopOwner[d] == Some(b) && IsBlock(g, b)
      && EntersBlock(g, b, x) && Connects(g, b, x, y) && IsDNet(g.flops[d], y)
      ==> CapturedIn(g, b, x, g.flops[d].clock)
  }

  // A net a block drives for somebody else is on one of its output ports.
  ghost predicate ExitsByOutput(g: Design) {
    forall x, b: nat, who {:trigger LaunchedBy(g, x, Some(b)), ReceivedBy(g, x, who)} ::
      IsBlock(g, b) && LaunchedBy(g, x, Some(b)) && ReceivedBy(g, x, who) && who != Some(b) ==>
      exists j: nat :: OnOutput(g, b, j, x)
  }

  // `g.top` is the flat design with its blocks closed.
  ghost predicate Flattens(g: Design) {
    OwnersValid(g) && ParentKept(g) && ExitsByOutput(g)
  }

  ghost predicate Abstracts(g: Design) {
    Flattens(g) && PortsStamped(g)
  }

  // --- a path with its owners -------------------------------------------

  // `own[i]` launches p[i] and `own[i + 1]` receives it; `own[0]` is the source
  // flop's owner and `own[|p|]` the destination's.
  ghost predicate OwnedPath(g: Design, f: nat, d: nat, p: seq<int>, own: seq<Owner>) {
    && f < |g.flops| && d < |g.flops| && f < |g.flopOwner| && d < |g.flopOwner|
    && |p| > 0 && |own| == |p| + 1
    && Net(p[0]) in g.flops[f].flop.q && own[0] == g.flopOwner[f]
    && IsDNet(g.flops[d], p[|p| - 1]) && own[|p|] == g.flopOwner[d]
    && (forall i {:trigger StepInto(g, own[i], p, i)} :: 0 < i < |p| ==> StepInto(g, own[i], p, i))
  }

  lemma Launched(g: Design, f: nat, d: nat, p: seq<int>, own: seq<Owner>, i: nat)
    requires OwnedPath(g, f, d, p, own) && i < |p|
    ensures LaunchedBy(g, p[i], own[i])
  {
    if i > 0 {
      assert StepInto(g, own[i], p, i);
    }
  }

  lemma Received(g: Design, f: nat, d: nat, p: seq<int>, own: seq<Owner>, i: nat)
    requires OwnedPath(g, f, d, p, own) && i < |p|
    ensures ReceivedBy(g, p[i], own[i + 1])
  {
    if i < |p| - 1 {
      assert StepInto(g, own[i + 1], p, i + 1);
    }
  }

  lemma OwnersAreBlocks(g: Design, f: nat, d: nat, p: seq<int>, own: seq<Owner>, i: nat)
    requires OwnersValid(g) && OwnedPath(g, f, d, p, own) && i < |own| && own[i].Some?
    ensures IsBlock(g, own[i].value)
  {
    if 0 < i < |p| {
      assert StepInto(g, own[i], p, i);
    }
  }

  // A stretch run entirely by parent cells is a walk in `top`.
  lemma {:induction false} ParentStretch(g: Design, f: nat, d: nat, p: seq<int>, own: seq<Owner>, i: nat, j: nat)
    requires OwnersValid(g) && ParentKept(g) && OwnedPath(g, f, d, p, own)
    requires i <= j < |p| && forall k :: i < k <= j ==> own[k].None?
    ensures IsPath(DataEdges(g.top, true), p[i..j + 1])
  {
    var q := p[i..j + 1];
    forall k | 0 <= k < |q| - 1 ensures (q[k], q[k + 1]) in DataEdges(g.top, true) {
      assert StepInto(g, own[i + k + 1], p, i + k + 1);
      ParentStep(g, p[i + k], p[i + k + 1]);
    }
  }

  lemma ParentStep(g: Design, a: int, b: int)
    requires OwnersValid(g) && ParentKept(g) && StepBy(g, None, a, b)
    ensures (a, b) in DataEdges(g.top, true)
  {
    var i: nat :| i < |g.cellOwner| && g.cellOwner[i] == None && Passes(g, i, a, b);
    var s: Site :| s.cell == i && Feeds(g.flat, true, s, a, b);
    var j :| 0 <= j < |g.top.cells| && g.top.cells[j] == g.flat.cells[i];
    EdgeByCell(g.flat, g.top, true, s, j, a, b);
  }

  // --- the record that must exist ---------------------------------------

  // Origin `o` reports sink `t`, from a net of the path to a net of the path, both
  // among its first `n`.
  ghost predicate LeavesRecord(g: Design, portClock: map<string, string>, found: Found, p: seq<int>, n: nat,
                               o: Origin, t: nat)
  {
    && o in found && t in found[o] && t < |g.topDomains|
    && exists i, j :: 0 <= i <= j < n && j < |p| && StartsAt(g, portClock, o, p[i]) && IsDNet(g.topDomains[t], p[j])
  }

  ghost predicate StartsAt(g: Design, portClock: map<string, string>, o: Origin, x: int) {
    && SourceOf(g.top, g.topDomains, portClock, g.boundaries, o).Some?
    && x in SourceOf(g.top, g.topDomains, portClock, g.boundaries, o).value.seeds
  }

  ghost predicate TopExact(g: Design, portClock: map<string, string>, maxHops: nat, found: Found) {
    FoundExact(g.top, g.topDomains, portClock, g.boundaries, maxHops, AllOrigins(), found)
  }

  // A foreign sink reached through parent logic from an origin's net is recorded.
  lemma RecordFrom(g: Design, portClock: map<string, string>, maxHops: nat, found: Found, p: seq<int>,
                   o: Origin, t: nat, i: nat, j: nat)
    requires TopExact(g, portClock, maxHops, found)
    requires i <= j < |p| && j - i <= maxHops && t < |g.topDomains|
    requires IsPath(DataEdges(g.top, true), p[i..j + 1])
    requires SourceOf(g.top, g.topDomains, portClock, g.boundaries, o).Some?
    requires var s := SourceOf(g.top, g.topDomains, portClock, g.boundaries, o).value;
             p[i] in s.seeds && Foreign(g.topDomains[t], s.clock, s.self)
    requires IsDNet(g.topDomains[t], p[j])
    ensures LeavesRecord(g, portClock, found, p, j + 1, o, t)
  {
    var s := SourceOf(g.top, g.topDomains, portClock, g.boundaries, o).value;
    var q := p[i..j + 1];
    AllOutputsCoverLanes(g.top);
    assert IsPath(DataEdges(g.top, s.lanes), q) by {
      forall k | 0 <= k < |q| - 1 ensures (q[k], q[k + 1]) in DataEdges(g.top, s.lanes) {
        assert (q[k], q[k + 1]) in DataEdges(g.top, true);
      }
    }
    assert CrossingPath(g.top, s, g.topDomains[t], maxHops, q);
    assert o in AllOrigins();
    ReportedIffPath(g.top, g.topDomains, s, maxHops, found[o], t);
  }

  // First index of the run of owner `who` that ends at `i`.
  lemma {:induction false} RunStart(own: seq<Owner>, who: Owner, i: nat) returns (h: nat)
    requires i < |own| && own[i] == who
    ensures h <= i && (forall k :: h <= k <= i ==> own[k] == who) && (h > 0 ==> own[h - 1] != who)
    decreases i
  {
    if i > 0 && own[i - 1] == who {
      h := RunStart(own, who, i - 1);
    } else {
      h := i;
    }
  }

  // Last index up to `j` that is owned by a block, or 0.
  lemma {:induction false} ParentRun(own: seq<Owner>, j: nat) returns (i: nat)
    requires j < |own|
    ensures i <= j && (i == 0 || own[i].Some?) && forall k :: i < k <= j ==> own[k].None?
    decreases j
  {
    if j > 0 && own[j].None? {
      i := ParentRun(own, j - 1);
    } else {
      i := j;
    }
  }

  // The sink standing for an input port of block `b` on net x.
  lemma InputSink(g: Design, b: nat, x: int, clock: Option<string>) returns (t: nat)
    requires IsBlock(g, b) && ParentKept(g) && CapturedIn(g, b, x, clock)
    ensures SinkOf(g, b, t) && IsDNet(g.topDomains[t], x) && g.topDomains[t].clock == clock
  {
    var s := Summary(g, b);
    var j: nat :| OnInput(g, b, j, x) && CaptureClock(g, b, j) == clock;
    var fd := SinkFlop(g.top.cells[b], s, s.inputPorts[j]);
    assert Net(x) in fd.flop.d;
    assert IsSink(g.top, g.boundaries, b, j, fd);
    t :| t < |g.topDomains| && g.topDomains[t] == fd;
  }

  // Entry `t` of the abstracted parent stands for a data input of block `b`.
  ghost predicate SinkOf(g: Design, b: nat, t: nat) {
    t < |g.topDomains| && exists j: nat :: IsSink(g.top, g.boundaries, b, j, g.topDomains[t])
  }

  lemma EntryNet(g: Design, f: nat, d: nat, p: seq<int>, own: seq<Owner>, h: nat, b: nat)
    requires OwnedPath(g, f, d, p, own) && h < |p| && own[h + 1] == Some(b) && own[h] != Some(b)
    ensures EntersBlock(g, b, p[h])
  {
    Launched(g, f, d, p, own, h);
    Received(g, f, d, p, own, h);
  }

  // A net leaving a block is on one of its outputs.
  lemma ExitPort(g: Design, f: nat, d: nat, p: seq<int>, own: seq<Owner>, i: nat, b: nat)
    requires ExitsByOutput(g) && OwnedPath(g, f, d, p, own) && i < |p|
    requires own[i] == Some(b) && own[i] != own[i + 1] && IsBlock(g, b)
    ensures exists j: nat :: OnOutput(g, b, j, p[i])
  {
    Launched(g, f, d, p, own, i);
    Received(g, f, d, p, own, i);
  }

  // The stretch of a path that one block owns.
  lemma StretchInside(g: Design, f: nat, d: nat, p: seq<int>, own: seq<Owner>, h: nat, i: nat, b: nat)
    requires OwnedPath(g, f, d, p, own) && h <= i < |p|
    requires forall k :: h < k <= i ==> own[k] == Some(b)
    ensures Inside(g, b, p[h..i + 1])
  {
    var q := p[h..i + 1];
    forall k | 0 < k < |q| ensures StepInto(g, Some(b), q, k) {
      assert StepInto(g, own[h + k], p, h + k);
    }
  }

  lemma InsideConnects(g: Design, b: nat, q: seq<int>, x: int, y: int)
    requires Inside(g, b, q) && q[0] == x && q[|q| - 1] == y
    ensures Connects(g, b, x, y)
  {
  }

  lemma OwnedStretch(g: Design, f: nat, d: nat, p: seq<int>, own: seq<Owner>, h: nat, i: nat, b: nat)
    requires OwnedPath(g, f, d, p, own) && h <= i < |p|
    requires forall k :: h < k <= i ==> own[k] == Some(b)
    ensures Connects(g, b, p[h], p[i])
  {
    StretchInside(g, f, d, p, own, h, i, b);
    InsideConnects(g, b, p[h..i + 1], p[h], p[i]);
  }

  lemma ThroughIsCaptured(g: Design, b: nat, j: nat, x: int, y: int)
    requires IsBlock(g, b) && BlockStamped(g, b)
    requires EntersBlock(g, b, x) && Connects(g, b, x, y) && OnOutput(g, b, j, y) && LaunchClock(g, b, j).Some?
    ensures CapturedIn(g, b, x, LaunchClock(g, b, j))
  {
    assert ThroughStamped(g, b, j, x, y);
  }

  lemma DestinationIsCaptured(g: Design, d: nat, b: nat, x: int, y: int)
    requires d < |g.flops| && d < |g.flopOwner| && g.flopOwner[d] == Some(b) && IsBlock(g, b) && CaptureStamped(g, d)
    requires EntersBlock(g, b, x) && Connects(g, b, x, y) && IsDNet(g.flops[d], y)
    ensures CapturedIn(g, b, x, g.flops[d].clock)
  {
  }

  lemma ExitFromStart(g: Design, f: nat, d: nat, p: seq<int>, own: seq<Owner>, i: nat, b: nat, j: nat)
    requires Abstracts(g) && OwnedPath(g, f, d, p, own) && g.flops[f].clock.Some?
    requires i < |p| && IsBlock(g, b) && (forall k :: 0 <= k <= i ==> own[k] == Some(b)) && OnOutput(g, b, j, p[i])
    ensures LaunchClock(g, b, j).None? || LaunchClock(g, b, j) == g.flops[f].clock
  {
    OwnedStretch(g, f, d, p, own, 0, i, b);
    assert own[0] == Some(b) && LaunchStamped(g, b, f, j, p[0], p[i]);
  }

  // Going back from an output in the destination's clock: the path did not start
  // in that block, and entered it by an input captured in the same clock.
  lemma EntryOfExit(g: Design, f: nat, d: nat, p: seq<int>, own: seq<Owner>, i: nat, b: nat, j: nat) returns (h: nat)
    requires Abstracts(g) && OwnedPath(g, f, d, p, own) && ForeignPair(g, f, d)
    requires i < |p| && own[i] == Some(b) && IsBlock(g, b)
    requires OnOutput(g, b, j, p[i]) && LaunchClock(g, b, j) == g.flops[d].clock
    ensures h < i && own[h] != own[h + 1] && own[h + 1] == Some(b)
    ensures CapturedIn(g, b, p[h], g.flops[d].clock)
  {
    var start := RunStart(own, own[i], i);
    if start == 0 {
      ExitFromStart(g, f, d, p, own, i, b, j);
      assert false;
    }
    h := start - 1;
    EntryNet(g, f, d, p, own, h, b);
    OwnedStretch(g, f, d, p, own, h, i, b);
    ThroughIsCaptured(g, b, j, p[h], p[i]);
  }

  // Where the path last enters the destination's block.
  lemma LastEntry(g: Design, f: nat, d: nat, p: seq<int>, own: seq<Owner>, b: nat) returns (h: nat)
    requires OwnedPath(g, f, d, p, own) && CaptureStamped(g, d)
    requires own[|p|] == Some(b) && IsBlock(g, b) && exists k :: 0 <= k < |p| && own[k] != Some(b)
    ensures h < |p| && own[h] != own[h + 1]
    ensures CapturedIn(g, b, p[h], g.flops[d].clock)
  {
    var start := RunStart(own, own[|p|], |p|);
    h := start - 1;
    EntryNet(g, f, d, p, own, h, b);
    OwnedStretch(g, f, d, p, own, h, |p| - 1, b);
    DestinationIsCaptured(g, d, b, p[h], p[|p| - 1]);
  }

  ghost predicate ForeignPair(g: Design, f: nat, d: nat) {
    && f < |g.flops| && d < |g.flops|
    && g.flops[f].clock.Some? && g.flops[d].clock.Some? && g.flops[f].clock != g.flops[d].clock
  }

  // What the two base cases share: sink `t` at p[j], in the destination's clock,
  // and only parent logic between p[i] and p[j].
  ghost predicate SinkAt(g: Design, portClock: map<string, string>, maxHops: nat, found: Found,
                         f: nat, d: nat, p: seq<int>, own: seq<Owner>, j: nat, t: nat) {
    && Flattens(g) && OwnedPath(g, f, d, p, own) && TopExact(g, portClock, maxHops, found)
    && |p| - 1 <= maxHops && ForeignPair(g, f, d)
    && j < |p| && t < |g.topDomains| && IsDNet(g.topDomains[t], p[j])
    && g.topDomains[t].clock == g.flops[d].clock
    && (own[j + 1].None? || own[j] != own[j + 1])
  }

  // The stretch starts at the source flop itself, in the parent.
  lemma RecordFromFlop(g: Design, portClock: map<string, string>, maxHops: nat, found: Found,
                       f: nat, d: nat, p: seq<int>, own: seq<Owner>, j: nat, t: nat) returns (o: Origin)
    requires SinkAt(g, portClock, maxHops, found, f, d, p, own, j, t)
    requires forall k :: 0 <= k <= j ==> own[k].None?
    ensures LeavesRecord(g, portClock, found, p, j + 1, o, t)
  {
    ParentStretch(g, f, d, p, own, 0, j);
    assert own[0].None? && g.flops[f] in g.topDomains;
    var s: nat :| s < |g.topDomains| && g.topDomains[s] == g.flops[f];
    o := FromFlop(s);
    FlopSource(g, portClock, f, s, p[0]);
    NamesDiffer(g, s, t);
    RecordFrom(g, portClock, maxHops, found, p, o, t, 0, j);
  }

  lemma FlopSource(g: Design, portClock: map<string, string>, f: nat, s: nat, x: int)
    requires f < |g.flops| && s < |g.topDomains| && g.topDomains[s] == g.flops[f]
    requires g.flops[f].clock.Some? && Net(x) in g.flops[f].flop.q
    ensures SourceOf(g.top, g.topDomains, portClock, g.boundaries, FromFlop(s)).Some?
    ensures var src := SourceOf(g.top, g.topDomains, portClock, g.boundaries, FromFlop(s)).value;
            x in src.seeds && src.clock == g.flops[f].clock && src.self == Some(g.flops[f].flop.name)
  {
  }

  lemma NamesDiffer(g: Design, s: nat, t: nat)
    requires ParentKept(g) && s < |g.topDomains| && t < |g.topDomains|
    requires g.topDomains[s].clock != g.topDomains[t].clock
    ensures g.topDomains[s].flop.name != g.topDomains[t].flop.name
  {
    if s > t {
      assert g.topDomains[t].flop.name != g.topDomains[s].flop.name;
    }
  }

  // The stretch starts at an output of a block in another clock, or in none.
  lemma RecordFromOutput(g: Design, portClock: map<string, string>, maxHops: nat, found: Found,
                         f: nat, d: nat, p: seq<int>, own: seq<Owner>, j: nat, t: nat, i: nat, b: nat, q: nat)
    returns (o: Origin)
    requires SinkAt(g, portClock, maxHops, found, f, d, p, own, j, t)
    requires i <= j && own[i] == Some(b) && IsBlock(g, b) && forall k :: i < k <= j ==> own[k].None?
    requires OnOutput(g, b, q, p[i]) && LaunchClock(g, b, q) != g.flops[d].clock
    ensures o == FromBoundary(b, q) && LeavesRecord(g, portClock, found, p, j + 1, o, t)
  {
    ParentStretch(g, f, d, p, own, i, j);
    o := FromBoundary(b, q);
    RecordFrom(g, portClock, maxHops, found, p, o, t, i, j);
  }

  // The output port by which the path last left a block before p[j].
  lemma LastExit(g: Design, f: nat, d: nat, p: seq<int>, own: seq<Owner>, i: nat, j: nat) returns (b: nat, q: nat)
    requires Flattens(g) && OwnedPath(g, f, d, p, own) && i <= j < |p|
    requires own[i].Some? && (forall k :: i < k <= j ==> own[k].None?)
    requires own[j + 1].None? || own[j] != own[j + 1]
    ensures own[i] == Some(b) && IsBlock(g, b) && OnOutput(g, b, q, p[i])
  {
    b := own[i].value;
    OwnersAreBlocks(g, f, d, p, own, i);
    ExitPort(g, f, d, p, own, i, b);
    q :| OnOutput(g, b, q, p[i]);
  }

  // The block was entered by an input in the destination's clock.
  lemma SinkBefore(g: Design, portClock: map<string, string>, maxHops: nat, found: Found,
                   f: nat, d: nat, p: seq<int>, own: seq<Owner>, j: nat, t: nat, i: nat, b: nat, q: nat)
    returns (h: nat, e: nat)
    requires SinkAt(g, portClock, maxHops, found, f, d, p, own, j, t) && PortsStamped(g)
    requires i <= j && own[i] == Some(b) && IsBlock(g, b)
    requires OnOutput(g, b, q, p[i]) && LaunchClock(g, b, q) == g.flops[d].clock
    ensures h < i && SinkAt(g, portClock, maxHops, found, f, d, p, own, h, e)
  {
    h := EntryOfExit(g, f, d, p, own, i, b, q);
    e := InputSink(g, b, p[h], g.flops[d].clock);
  }

  // One step back from a sink in the destination's clock: the record it leaves,
  // or the sink before it.
  lemma RecordOrSinkBefore(g: Design, portClock: map<string, string>, maxHops: nat, found: Found,
                           f: nat, d: nat, p: seq<int>, own: seq<Owner>, j: nat, t: nat)
    returns (o: Option<Origin>, h: nat, e: nat)
    requires SinkAt(g, portClock, maxHops, found, f, d, p, own, j, t) && PortsStamped(g)
    ensures o.Some? ==> LeavesRecord(g, portClock, found, p, j + 1, o.value, t)
    ensures o.None? ==> h < j && SinkAt(g, portClock, maxHops, found, f, d, p, own, h, e)
  {
    var i := ParentRun(own, j);
    h, e := 0, 0;
    if own[i].None? {
      var origin := RecordFromFlop(g, portClock, maxHops, found, f, d, p, own, j, t);
      return Some(origin), h, e;
    }
    var b, q := LastExit(g, f, d, p, own, i, j);
    if LaunchClock(g, b, q) == g.flops[d].clock {
      o := None;
      h, e := SinkBefore(g, portClock, maxHops, found, f, d, p, own, j, t, i, b, q);
    } else {
      var origin := RecordFromOutput(g, portClock, maxHops, found, f, d, p, own, j, t, i, b, q);
      o := Some(origin);
    }
  }

  // A sink on the path in the destination's clock has a foreign source before
  // it: the record is found at the last place the clock changes, and in that clock.
  lemma {:induction false} CoverFrom(g: Design, portClock: map<string, string>, maxHops: nat, found: Found,
                                     f: nat, d: nat, p: seq<int>, own: seq<Owner>, j: nat, t: nat)
    returns (o: Origin, t': nat)
    requires SinkAt(g, portClock, maxHops, found, f, d, p, own, j, t) && PortsStamped(g)
    ensures LeavesRecord(g, portClock, found, p, j + 1, o, t') && g.topDomains[t'].clock == g.flops[d].clock
    decreases j
  {
    var origin, h, e := RecordOrSinkBefore(g, portClock, maxHops, found, f, d, p, own, j, t);
    if origin.Some? {
      o, t' := origin.value, t;
    } else {
      o, t' := CoverFrom(g, portClock, maxHops, found, f, d, p, own, h, e);
    }
  }

  // The path is not wholly inside the destination's block.
  ghost predicate CrossesPort(g: Design, f: nat, d: nat, p: seq<int>) {
    && f < |g.flopOwner| && d < |g.flopOwner|
    && (g.flopOwner[d].Some? ==> g.flopOwner[f] != g.flopOwner[d] || !Inside(g, g.flopOwner[d].value, p))
  }

  lemma SomewhereElse(g: Design, f: nat, d: nat, p: seq<int>, own: seq<Owner>, b: nat)
    requires OwnedPath(g, f, d, p, own) && CrossesPort(g, f, d, p) && own[|p|] == Some(b)
    ensures exists k :: 0 <= k < |p| && own[k] != Some(b)
  {
    if forall k :: 0 <= k < |p| ==> own[k] == Some(b) {
      forall i | 0 < i < |p| ensures StepInto(g, Some(b), p, i) {
        assert StepInto(g, own[i], p, i);
      }
    }
  }

  lemma CoverPath(g: Design, portClock: map<string, string>, maxHops: nat, found: Found,
                  f: nat, d: nat, p: seq<int>, own: seq<Owner>)
    returns (o: Origin, t: nat)
    requires Abstracts(g) && OwnedPath(g, f, d, p, own) && TopExact(g, portClock, maxHops, found)
    requires |p| - 1 <= maxHops && ForeignPair(g, f, d) && CaptureStamped(g, d) && CrossesPort(g, f, d, p)
    ensures LeavesRecord(g, portClock, found, p, |p|, o, t) && g.topDomains[t].clock == g.flops[d].clock
  {
    var h: nat, e: nat := |p| - 1, 0;
    if own[|p|].None? {
      e :| e < |g.topDomains| && g.topDomains[e] == g.flops[d];
    } else {
      var b := own[|p|].value;
      OwnersAreBlocks(g, f, d, p, own, |p|);
      SomewhereElse(g, f, d, p, own, b);
      h := LastEntry(g, f, d, p, own, b);
      e := InputSink(g, b, p[h], g.flops[d].clock);
    }
    o, t := CoverFrom(g, portClock, maxHops, found, f, d, p, own, h, e);
  }

  lemma StepOwner(g: Design, a: int, b: int) returns (who: Owner)
    requires OwnersValid(g) && (a, b) in DataEdges(g.flat, true)
    ensures StepBy(g, who, a, b)
  {
    assert HasEdge(g.flat, true, a, b);
    var s :| Feeds(g.flat, true, s, a, b);
    assert Passes(g, s.cell, a, b);
    who := g.cellOwner[s.cell];
  }

  // Any path through the flat design can be labelled with owners.
  lemma {:induction false} StepOwners(g: Design, p: seq<int>) returns (steps: seq<Owner>)
    requires OwnersValid(g) && IsPath(DataEdges(g.flat, true), p)
    ensures |steps| == |p| - 1
    ensures forall i :: 0 <= i < |p| - 1 ==> StepBy(g, steps[i], p[i], p[i + 1])
    decreases |p|
  {
    if |p| == 1 {
      return [];
    }
    var q := p[..|p| - 1];
    PathPrefix(DataEdges(g.flat, true), p);
    var rest := StepOwners(g, q);
    var who := StepOwner(g, p[|p| - 2], p[|p| - 2 + 1]);
    steps := rest + [who];
    forall i | 0 <= i < |p| - 1 ensures StepBy(g, steps[i], p[i], p[i + 1]) {
      if i < |p| - 2 {
        assert StepBy(g, rest[i], q[i], q[i + 1]);
      }
    }
  }

  // The walk in the flat design reports flop `d` for flop `f`, along path `p`.
  ghost predicate FlatReports(g: Design, maxHops: nat, flatFound: Found, f: nat, d: nat, p: seq<int>) {
    && FoundExact(g.flat, g.flops, map[], map[], maxHops, AllOrigins(), flatFound)
    && f < |g.flops| && d < |g.flops| && FromFlop(f) in flatFound && d in flatFound[FromFlop(f)]
    && CrossingPath(g.flat, FlopSourceOf(g.flops[f]), g.flops[d], maxHops, p)
  }

  ghost function FlopSourceOf(fd: FlopDomain): Source {
    Source(NetSeq(fd.flop.q), fd.clock, Some(fd.flop.name), true)
  }

  // The theorem: whatever `find_crossings` reports between two flops of the flat
  // design that do not share a block, on each of its paths the abstracted parent
  // reports something too, captured in the same clock.
  lemma AbstractionNeverUnderReports(g: Design, portClock: map<string, string>, maxHops: nat,
                                     flatFound: Found, found: Found, f: nat, d: nat, p: seq<int>)
    returns (o: Origin, t: nat)
    requires Abstracts(g) && TopExact(g, portClock, maxHops, found)
    requires FlatReports(g, maxHops, flatFound, f, d, p)
    requires CaptureStamped(g, d) && CrossesPort(g, f, d, p)
    ensures LeavesRecord(g, portClock, found, p, |p|, o, t) && g.topDomains[t].clock == g.flops[d].clock
  {
    FlatPairIsForeign(g, maxHops, flatFound, f, d, p);
    var own := PathOwners(g, f, d, p);
    o, t := CoverPath(g, portClock, maxHops, found, f, d, p, own);
  }

  lemma FlatPairIsForeign(g: Design, maxHops: nat, flatFound: Found, f: nat, d: nat, p: seq<int>)
    requires FlatReports(g, maxHops, flatFound, f, d, p)
    ensures ForeignPair(g, f, d) && |p| - 1 <= maxHops && IsPath(DataEdges(g.flat, true), p)
    ensures Net(p[0]) in g.flops[f].flop.q && IsDNet(g.flops[d], p[|p| - 1])
  {
    assert FromFlop(f) in AllOrigins();
    assert SourceOf(g.flat, g.flops, map[], map[], FromFlop(f)) == Some(FlopSourceOf(g.flops[f]));
    ReportedIffPath(g.flat, g.flops, FlopSourceOf(g.flops[f]), maxHops, flatFound[FromFlop(f)], d);
  }

  lemma PathOwners(g: Design, f: nat, d: nat, p: seq<int>) returns (own: seq<Owner>)
    requires OwnersValid(g) && f < |g.flops| && d < |g.flops|
    requires IsPath(DataEdges(g.flat, true), p)
    requires Net(p[0]) in g.flops[f].flop.q && IsDNet(g.flops[d], p[|p| - 1])
    ensures OwnedPath(g, f, d, p, own)
  {
    var steps := StepOwners(g, p);
    own := [g.flopOwner[f]] + steps + [g.flopOwner[d]];
    forall i | 0 < i < |p| ensures StepInto(g, own[i], p, i) {
      assert StepBy(g, steps[i - 1], p[i - 1], p[i - 1 + 1]);
    }
  }

  // --- blocks of one clock ----------------------------------------------

  // A single-clock summary stamps every port with the block's one clock.
  ghost predicate Uniform(s: BoundarySummary) {
    && (forall j :: 0 <= j < |s.ports| ==> s.ports[j].srcClock == s.clock)
    && (forall j :: 0 <= j < |s.inputPorts| ==> s.inputPorts[j].srcClock == s.clock)
  }

  // If the block was given a clock, its flops with a known clock are on it, and
  // whatever enters it does so by a data input.
  ghost predicate SingleClock(g: Design, b: nat)
    requires IsBlock(g, b)
  {
    && Uniform(Summary(g, b))
    && (forall f ::
          && 0 <= f < |g.flopOwner| && f < |g.flops| && g.flopOwner[f] == Some(b)
          && g.flops[f].clock.Some? && Summary(g, b).clock.Some?
          ==> Summary(g, b).clock == g.flops[f].clock)
    && (forall x {:trigger EntersBlock(g, b, x)} :: EntersBlock(g, b, x) ==> exists j: nat :: OnInput(g, b, j, x))
  }

  lemma SingleClockCaptures(g: Design, b: nat, x: int)
    requires IsBlock(g, b) && SingleClock(g, b) && EntersBlock(g, b, x)
    ensures CapturedIn(g, b, x, Summary(g, b).clock)
  {
    var j: nat :| OnInput(g, b, j, x);
    assert CaptureClock(g, b, j) == Summary(g, b).clock;
  }

  lemma SingleClockIsStamped(g: Design, b: nat)
    requires IsBlock(g, b) && SingleClock(g, b)
    ensures BlockStamped(g, b)
  {
    forall j: nat, x, y ensures ThroughStamped(g, b, j, x, y) {
      if EntersBlock(g, b, x) {
        SingleClockCaptures(g, b, x);
      }
    }
  }

  lemma ClockFoundIsCapture(g: Design, d: nat, b: nat)
    requires d < |g.flops| && d < |g.flopOwner| && g.flopOwner[d] == Some(b) && g.flops[d].clock.Some?
    requires IsBlock(g, b) && SingleClock(g, b) && Summary(g, b).clock.Some?
    ensures CaptureStamped(g, d)
  {
    forall x | EntersBlock(g, b, x) ensures CapturedIn(g, b, x, g.flops[d].clock) {
      SingleClockCaptures(g, b, x);
    }
  }

  // All blocks have at most one clock, and one was found for the destination's:
  // every flat crossing is then covered, clockless blocks on the way included.
  lemma SingleClockNeverUnderReports(g: Design, portClock: map<string, string>, maxHops: nat,
                                     flatFound: Found, found: Found, f: nat, d: nat, p: seq<int>)
    returns (o: Origin, t: nat)
    requires Flattens(g) && TopExact(g, portClock, maxHops, found)
    requires forall b: nat :: IsBlock(g, b) ==> SingleClock(g, b)
    requires FlatReports(g, maxHops, flatFound, f, d, p)
    requires g.flopOwner[d].Some? ==> Summary(g, g.flopOwner[d].value).clock.Some?
    ensures LeavesRecord(g, portClock, found, p, |p|, o, t) && g.topDomains[t].clock == g.flops[d].clock
  {
    forall b: nat | IsBlock(g, b) ensures BlockStamped(g, b) {
      SingleClockIsStamped(g, b);
    }
    FlatPairIsForeign(g, maxHops, flatFound, f, d, p);
    if g.flopOwner[d].Some? {
      ClockFoundIsCapture(g, d, g.flopOwner[d].value);
    }
    o, t := AbstractionNeverUnderReports(g, portClock, maxHops, flatFound, found, f, d, p);
  }

  // --- the conditions are exact -----------------------------------------

  // Nothing the path meets up to p[h] is stamped with the destination's clock.
  ghost predicate FirstOfItsClock(g: Design, d: nat, p: seq<int>, own: seq<Owner>, h: nat)
    requires h < |p| && h < |own| && d < |g.flops|
  {
    forall k: nat, b: nat, j: nat {:trigger OnOutput(g, b, j, p[k])} ::
      k <= h && own[k] == Some(b) && IsBlock(g, b) && OnOutput(g, b, j, p[k]) ==>
          LaunchClock(g, b, j) != g.flops[d].clock
  }

  // A record from the path into block `b` by p[h], captured in `clock`.
  ghost predicate RecordInto(g: Design, portClock: map<string, string>, found: Found, p: seq<int>, h: nat,
                             o: Origin, t: nat, b: nat, clock: Option<string>)
    requires h < |p|
  {
    && LeavesRecord(g, portClock, found, p, h + 1, o, t)
    && SinkOf(g, b, t) && IsDNet(g.topDomains[t], p[h]) && g.topDomains[t].clock == clock
  }

  // Where a path enters a block, a record into the block in the destination's
  // clock is left if and only if the block captures that input in that clock: an
  // input stamped otherwise, or with nothing, loses the crossing there.
  lemma EntryReportedIff(g: Design, portClock: map<string, string>, maxHops: nat, found: Found,
                         f: nat, d: nat, p: seq<int>, own: seq<Owner>, h: nat, b: nat)
    requires Flattens(g) && OwnedPath(g, f, d, p, own) && TopExact(g, portClock, maxHops, found)
    requires |p| - 1 <= maxHops && ForeignPair(g, f, d)
    requires h < |p| && own[h] != Some(b) && own[h + 1] == Some(b) && IsBlock(g, b)
    requires FirstOfItsClock(g, d, p, own, h)
    ensures (exists o, t :: RecordInto(g, portClock, found, p, h, o, t, b, g.flops[d].clock))
       <==> CapturedIn(g, b, p[h], g.flops[d].clock)
  {
    var clock := g.flops[d].clock;
    if CapturedIn(g, b, p[h], clock) {
      var o, t := EntryRecord(g, portClock, maxHops, found, f, d, p, own, h, b);
    }
    if o, t: nat :| RecordInto(g, portClock, found, p, h, o, t, b, clock) {
      var j: nat :| IsSink(g.top, g.boundaries, b, j, g.topDomains[t]);
      assert OnInput(g, b, j, p[h]) && CaptureClock(g, b, j) == clock;
    }
  }

  lemma EntryRecord(g: Design, portClock: map<string, string>, maxHops: nat, found: Found,
                    f: nat, d: nat, p: seq<int>, own: seq<Owner>, h: nat, b: nat) returns (o: Origin, t: nat)
    requires Flattens(g) && OwnedPath(g, f, d, p, own) && TopExact(g, portClock, maxHops, found)
    requires |p| - 1 <= maxHops && ForeignPair(g, f, d)
    requires h < |p| && own[h] != Some(b) && own[h + 1] == Some(b) && IsBlock(g, b)
    requires FirstOfItsClock(g, d, p, own, h) && CapturedIn(g, b, p[h], g.flops[d].clock)
    ensures RecordInto(g, portClock, found, p, h, o, t, b, g.flops[d].clock)
  {
    t := InputSink(g, b, p[h], g.flops[d].clock);
    var i := ParentRun(own, h);
    if own[i].None? {
      o := RecordFromFlop(g, portClock, maxHops, found, f, d, p, own, h, t);
    } else {
      var c, q := LastExit(g, f, d, p, own, i, h);
      o := RecordFromOutput(g, portClock, maxHops, found, f, d, p, own, h, t, i, c, q);
    }
  }

  // Where a path leaves a block for a sink in the destination's clock, the output
  // reports that sink if and only if it is not stamped with that clock.
  lemma ExitReportedIff(g: Design, portClock: map<string, string>, maxHops: nat, found: Found,
                        f: nat, d: nat, p: seq<int>, own: seq<Owner>, j: nat, t: nat, i: nat, b: nat, q: nat)
    requires SinkAt(g, portClock, maxHops, found, f, d, p, own, j, t)
    requires i <= j && own[i] == Some(b) && IsBlock(g, b) && forall k :: i < k <= j ==> own[k].None?
    requires OnOutput(g, b, q, p[i])
    ensures FromBoundary(b, q) in found
    ensures t in found[FromBoundary(b, q)] <==> LaunchClock(g, b, q) != g.flops[d].clock
  {
    assert FromBoundary(b, q) in AllOrigins();
    if LaunchClock(g, b, q) != g.flops[d].clock {
      var o := RecordFromOutput(g, portClock, maxHops, found, f, d, p, own, j, t, i, b, q);
    } else {
      var s := SourceOf(g.top, g.topDomains, portClock, g.boundaries, FromBoundary(b, q)).value;
      ReportedIffPath(g.top, g.topDomains, s, maxHops, found[FromBoundary(b, q)], t);
    }
  }

  // A block on the path, entered by p[h] and left by its output q on p[i] for sink t
  // at p[j]: what the path leaves there is a record into the block or one from the
  // output, in the destination's clock.
  ghost predicate ReportedAcross(g: Design, portClock: map<string, string>, found: Found, p: seq<int>, h: nat,
                                 b: nat, q: nat, t: nat, clock: Option<string>)
    requires h < |p|
  {
    || (FromBoundary(b, q) in found && t in found[FromBoundary(b, q)])
    || exists o, e :: RecordInto(g, portClock, found, p, h, o, e, b, clock)
  }

  // Across a block the crossing is reported if and only if the input captures in the
  // destination's clock or the output is not stamped with it.
  lemma AcrossReportedIff(g: Design, portClock: map<string, string>, maxHops: nat, found: Found,
                          f: nat, d: nat, p: seq<int>, own: seq<Owner>, h: nat, i: nat, j: nat, t: nat, b: nat, q: nat)
    requires SinkAt(g, portClock, maxHops, found, f, d, p, own, j, t)
    requires h < i <= j && own[h] != Some(b) && own[h + 1] == Some(b) && own[i] == Some(b) && IsBlock(g, b)
    requires OnOutput(g, b, q, p[i]) && forall k :: i < k <= j ==> own[k].None?
    requires FirstOfItsClock(g, d, p, own, h)
    ensures ReportedAcross(g, portClock, found, p, h, b, q, t, g.flops[d].clock)
       <==> CapturedIn(g, b, p[h], g.flops[d].clock) || LaunchClock(g, b, q) != g.flops[d].clock
  {
    EntryReportedIff(g, portClock, maxHops, found, f, d, p, own, h, b);
    ExitReportedIff(g, portClock, maxHops, found, f, d, p, own, j, t, i, b, q);
  }

  // A block of one clock captures what enters it in the clock of its flops if and
  // only if a clock was found for it at all.
  lemma SingleClockCapturesIff(g: Design, d: nat, b: nat, x: int)
    requires d < |g.flops| && d < |g.flopOwner| && g.flopOwner[d] == Some(b) && g.flops[d].clock.Some?
    requires IsBlock(g, b) && SingleClock(g, b) && EntersBlock(g, b, x)
    ensures CapturedIn(g, b, x, g.flops[d].clock) <==> Summary(g, b).clock.Some?
  {
    SingleClockCaptures(g, b, x);
    if CapturedIn(g, b, x, g.flops[d].clock) {
      var j: nat :| OnInput(g, b, j, x) && CaptureClock(g, b, j) == g.flops[d].clock;
    }
  }

  // No record ends at a data input of a block without a clock, and none at an
  // input that captures in no clock.
  lemma ClocklessIsNoSink(g: Design, portClock: map<string, string>, maxHops: nat, found: Found, o: Origin, t: nat)
    requires TopExact(g, portClock, maxHops, found)
    requires t < |g.topDomains| && g.topDomains[t].clock.None? && o in found
    ensures t !in found[o]
  {
    assert o in AllOrigins();
    var s := SourceOf(g.top, g.topDomains, portClock, g.boundaries, o).value;
    ReportedIffPath(g.top, g.topDomains, s, maxHops, found[o], t);
  }
}
