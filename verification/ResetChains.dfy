/**
 Reset-synchroniser chains: flops of one clock and one reset source, linked Q to
 D from a constant at the head.  The recogniser walks back from every
 asynchronously reset flop; the enumeration keeps the longest chain per head.
 */
module ResetChains {
  import opened Netlist
  import opened Drivers

  // ---- reset assignment -------------------------------------------------

  const ASYNC_RESET_PINS: map<string, string> := map[
    "$adff" := "ARST", "$adffe" := "ARST", "$aldff" := "ALOAD", "$aldffe" := "ALOAD",
    "$dffsr" := "CLR", "$dffsre" := "CLR"
  ]

  const SYNC_RESET_PINS: map<string, string> := map["$sdff" := "SRST", "$sdffe" := "SRST", "$sdffce" := "SRST"]

  datatype ResetKind = FromPort | Inferred | Constant | Comb

  datatype ResetSource = ResetSource(name: string, kind: ResetKind, isAsync: bool, activeHigh: bool)

  function ClassifyResetSource(m: Module, bit: Bit, drivers: map<int, Driver>): (string, ResetKind)
    requires forall b :: b in drivers ==> drivers[b].cell < |m.cells|
  {
    if bit.Const? then ([bit.ch], Constant)
    else
      var port := PortOfBit(m.ports, bit);
      if port.Some? && port.value.direction == Input then (port.value.name, FromPort)
      else if bit.id !in drivers || drivers[bit.id].port != "Q" then ("", Comb)
      else (m.cells[drivers[bit.id].cell].name, Inferred)
  }

  // Polarity comes from a cell parameter, which the netlist here does not hold.
  function ResetOf(m: Module, drivers: map<int, Driver>, activeHigh: nat -> bool, i: nat): Option<ResetSource>
    requires (forall b :: b in drivers ==> drivers[b].cell < |m.cells|) && i < |m.cells|
  {
    var c := m.cells[i];
    if c.ctype !in ASYNC_RESET_PINS && c.ctype !in SYNC_RESET_PINS then None
    else
      var isAsync := c.ctype in ASYNC_RESET_PINS;
      var bits := Conn(c, if isAsync then ASYNC_RESET_PINS[c.ctype] else SYNC_RESET_PINS[c.ctype]);
      if bits == [] then None
      else
        var (name, kind) := ClassifyResetSource(m, bits[0], drivers);
        Some(ResetSource(name, kind, isAsync, activeHigh(i)))
  }

  // ---- the walk ---------------------------------------------------------

  datatype Netlisted = Netlisted(m: Module, drivers: map<int, Driver>, activeHigh: nat -> bool,
                                 clocks: map<nat, string>)

  // Every driver is a cell of the netlist.
  type Context = w: Netlisted | forall b :: b in w.drivers ==> w.drivers[b].cell < |w.m.cells|
    witness Netlisted(Module([], []), map[], (i: nat) => false, map[])

  predicate IsFlop(w: Context, i: nat) {
    i < |w.m.cells| && FlopOf(w.m.cells[i]).Some?
  }

  function Reset(w: Context, i: nat): Option<ResetSource>
    requires IsFlop(w, i)
  {
    ResetOf(w.m, w.drivers, w.activeHigh, i)
  }

  // What the walk compares along a chain.
  datatype Signature = Signature(clock: string, name: string, kind: ResetKind)

  function SignatureOf(w: Context, i: nat): Option<Signature>
    requires IsFlop(w, i)
  {
    if i !in w.clocks || Reset(w, i).None? then None
    else Some(Signature(w.clocks[i], Reset(w, i).value.name, Reset(w, i).value.kind))
  }

  // The first reset bit of a flop whose type has a reset pin.
  ghost predicate ResetBit(w: Context, i: nat, bit: Bit)
    requires IsFlop(w, i)
  {
    var c := w.m.cells[i];
    || (c.ctype in ASYNC_RESET_PINS && Conn(c, ASYNC_RESET_PINS[c.ctype]) != [] &&
        bit == Conn(c, ASYNC_RESET_PINS[c.ctype])[0])
    || (c.ctype !in ASYNC_RESET_PINS && c.ctype in SYNC_RESET_PINS && Conn(c, SYNC_RESET_PINS[c.ctype]) != [] &&
        bit == Conn(c, SYNC_RESET_PINS[c.ctype])[0])
  }

  // The input port a net comes in by: the first port with it on, if that is an input.
  ghost predicate EntersBy(w: Context, b: int, k: nat) {
    && k < |w.m.ports| && w.m.ports[k].direction == Input && Net(b) in w.m.ports[k].bits
    && forall j :: 0 <= j < k ==> Net(b) !in w.m.ports[j].bits
  }

  ghost predicate IsEntered(w: Context, b: int) {
    exists k: nat :: EntersBy(w, b, k)
  }

  ghost predicate FromFlop(w: Context, b: int, x: nat) {
    !IsEntered(w, b) && b in w.drivers && w.drivers[b] == Driver(x, "Q")
  }

  // Two reset bits of one source: the same constant, the same input port, the Q pin of the
  // same cell, or neither of them any of these.
  ghost predicate SameSource(w: Context, x: Bit, y: Bit) {
    if x.Const? || y.Const? then x == y
    else if IsEntered(w, x.id) || IsEntered(w, y.id) then
      exists k: nat :: EntersBy(w, x.id, k) && EntersBy(w, y.id, k)
    else (exists c: nat :: FromFlop(w, x.id, c) || FromFlop(w, y.id, c)) ==>
      exists c: nat :: FromFlop(w, x.id, c) && FromFlop(w, y.id, c)
  }

  lemma {:induction false} EntryPort(ports: seq<Port>, bit: Bit) returns (k: nat)
    requires PortOfBit(ports, bit).Some?
    ensures k < |ports| && bit in ports[k].bits && forall j :: 0 <= j < k ==> bit !in ports[j].bits
    ensures PortOfBit(ports, bit) == Some(ports[k])
  {
    if bit in ports[0].bits {
      k := 0;
    } else {
      var i := EntryPort(ports[1..], bit);
      k := i + 1;
    }
  }

  // What a net is classified as, in the netlist's own terms.
  lemma ClassifiedNet(w: Context, b: int) returns (k: nat)
    ensures IsEntered(w, b) <==> ClassifyResetSource(w.m, Net(b), w.drivers).1 == FromPort
    ensures IsEntered(w, b) ==>
      EntersBy(w, b, k) && ClassifyResetSource(w.m, Net(b), w.drivers) == (w.m.ports[k].name, FromPort)
    ensures forall c: nat :: FromFlop(w, b, c) ==>
      c < |w.m.cells| && ClassifyResetSource(w.m, Net(b), w.drivers) == (w.m.cells[c].name, Inferred)
    ensures !IsEntered(w, b) && (forall c: nat :: !FromFlop(w, b, c)) ==>
      ClassifyResetSource(w.m, Net(b), w.drivers) == ("", Comb)
  {
    k := 0;
    if PortOfBit(w.m.ports, Net(b)).Some? {
      k := EntryPort(w.m.ports, Net(b));
      forall i: nat | EntersBy(w, b, i) ensures i == k {
      }
      assert w.m.ports[k].direction == Input ==> EntersBy(w, b, k);
    }
    if !IsEntered(w, b) && b in w.drivers && w.drivers[b].port == "Q" {
      assert FromFlop(w, b, w.drivers[b].cell);
    }
  }

  // Two bits are classified alike exactly when they are of one source.
  lemma ClassifiedAlikeIff(w: Context, x: Bit, y: Bit)
    requires ValidModule(w.m)
    requires forall i, j :: 0 <= i < j < |w.m.ports| ==> w.m.ports[i].name != w.m.ports[j].name
    ensures ClassifyResetSource(w.m, x, w.drivers) == ClassifyResetSource(w.m, y, w.drivers) <==> SameSource(w, x, y)
  {
    if x.Net? && y.Net? {
      var kx := ClassifiedNet(w, x.id);
      var ky := ClassifiedNet(w, y.id);
    } else if x.Net? {
      var kx := ClassifiedNet(w, x.id);
    } else if y.Net? {
      var ky := ClassifiedNet(w, y.id);
    }
  }

  lemma ResetIsItsBit(w: Context, i: nat, x: Bit)
    requires IsFlop(w, i) && ResetBit(w, i, x)
    ensures Reset(w, i).Some?
    ensures (Reset(w, i).value.name, Reset(w, i).value.kind) == ClassifyResetSource(w.m, x, w.drivers)
  {
  }

  lemma ResetHasBit(w: Context, i: nat) returns (x: Bit)
    requires IsFlop(w, i) && Reset(w, i).Some?
    ensures ResetBit(w, i, x)
  {
    var c := w.m.cells[i];
    x := Conn(c, if c.ctype in ASYNC_RESET_PINS then ASYNC_RESET_PINS[c.ctype] else SYNC_RESET_PINS[c.ctype])[0];
  }

  // Two flops can stand on one chain exactly when they have one clock and their resets,
  // asynchronous or not, one source.
  lemma SameDomainIff(w: Context, i: nat, j: nat)
    requires ValidModule(w.m) && IsFlop(w, i) && IsFlop(w, j)
    requires forall i, j :: 0 <= i < j < |w.m.ports| ==> w.m.ports[i].name != w.m.ports[j].name
    ensures SignatureOf(w, i).Some? && SignatureOf(w, i) == SignatureOf(w, j) <==>
            && i in w.clocks && j in w.clocks && w.clocks[i] == w.clocks[j]
            && exists x, y :: ResetBit(w, i, x) && ResetBit(w, j, y) && SameSource(w, x, y)
  {
    if Reset(w, i).Some? && Reset(w, j).Some? {
      var x := ResetHasBit(w, i);
      var y := ResetHasBit(w, j);
      ResetIsItsBit(w, i, x);
      ResetIsItsBit(w, j, y);
      ClassifiedAlikeIff(w, x, y);
      assert forall u, v :: ResetBit(w, i, u) && ResetBit(w, j, v) ==> u == x && v == y;
    } else {
      forall x, y | ResetBit(w, i, x) && ResetBit(w, j, y) ensures false {
        ResetIsItsBit(w, i, x);
        ResetIsItsBit(w, j, y);
      }
    }
  }

  datatype Step = Head(ch: char) | Prev(flop: nat) | Stop

  // What feeds the D pin of a flop.
  function StepBack(w: Context, sig: Signature, cur: nat): (r: Step)
    ensures r.Prev? ==> IsFlop(w, r.flop) && SignatureOf(w, r.flop) == Some(sig)
  {
    if !IsFlop(w, cur) || |Conn(w.m.cells[cur], "D")| != 1 then Stop
    else
      var d := Conn(w.m.cells[cur], "D")[0];
      if d.Const? then Head(d.ch)
      else if d.id !in w.drivers then Stop
      else
        var drv := w.drivers[d.id];
        if drv.port != "Q" || !IsFlop(w, drv.cell) then Stop
        else if SignatureOf(w, drv.cell) != Some(sig) then Stop
        else Prev(drv.cell)
  }

  function Steps(w: Context, sig: Signature): nat -> Step {
    (cur: nat) => StepBack(w, sig, cur)
  }

  datatype Chain = NoChain | Chain(flops: seq<nat>, constant: char)

  // The chain from `cur` up to its head, within `fuel` flops.
  function WalkBack(step: nat -> Step, cur: nat, fuel: nat): (r: Chain)
    ensures r.Chain? ==> 0 < |r.flops| <= fuel && r.flops[0] == cur
    decreases fuel
  {
    if fuel == 0 then NoChain
    else match step(cur) {
      case Stop => NoChain
      case Head(ch) => Chain([cur], ch)
      case Prev(p) => Joined([cur], WalkBack(step, p, fuel - 1))
    }
  }

  function Joined(before: seq<nat>, c: Chain): Chain {
    if c.NoChain? then NoChain else Chain(before + c.flops, c.constant)
  }

  function Trace(w: Context, start: nat, maxDepth: nat): Chain
    requires IsFlop(w, start)
  {
    if SignatureOf(w, start).None? then NoChain
    else WalkBack(Steps(w, SignatureOf(w, start).value), start, maxDepth)
  }

  // `_trace_reset_sync_chain`: grow the list until the head or a dead end.
  method TraceResetSyncChain(w: Context, start: nat, maxDepth: nat) returns (r: Chain)
    requires IsFlop(w, start)
    ensures r == Trace(w, start, maxDepth)
  {
    if SignatureOf(w, start).None? {
      return NoChain;
    }
    r := Climb(Steps(w, SignatureOf(w, start).value), start, maxDepth);
  }

  method Climb(step: nat -> Step, start: nat, maxDepth: nat) returns (r: Chain)
    ensures r == WalkBack(step, start, maxDepth)
  {
    ghost var whole := WalkBack(step, start, maxDepth);
    JoinNothing(whole);
    var chain, cur, left := [start], start, maxDepth;
    ghost var before: seq<nat> := [];
    while left > 0
      invariant chain == before + [cur]
      invariant Joined(before, WalkBack(step, cur, left)) == whole
    {
      match step(cur) {
        case Stop => return NoChain;
        case Head(ch) => return Chain(chain, ch);
        case Prev(p) =>
          JoinTwice(before, cur, WalkBack(step, p, left - 1));
          before := chain;
          chain := chain + [p];
          cur, left := p, left - 1;
      }
    }
    return NoChain;
  }

  lemma JoinNothing(c: Chain)
    ensures Joined([], c) == c
  {
    if c.Chain? {
      assert [] + c.flops == c.flops;
    }
  }

  lemma JoinTwice(before: seq<nat>, cur: nat, c: Chain)
    ensures Joined(before, Joined([cur], c)) == Joined(before + [cur], c)
  {
    if c.Chain? {
      assert before + ([cur] + c.flops) == before + [cur] + c.flops;
    }
  }

  // ---- the shape of a walk ----------------------------------------------

  // Each flop steps back to the next, the last one to its constant.
  ghost predicate Stepped(step: nat -> Step, c: Chain) {
    && c.Chain? && c.flops != []
    && (forall i :: 0 <= i < |c.flops| - 1 ==> step(c.flops[i]) == Prev(c.flops[i + 1]))
    && step(c.flops[|c.flops| - 1]) == Head(c.constant)
  }

  lemma {:induction false} WalkIsStepped(step: nat -> Step, cur: nat, fuel: nat)
    requires WalkBack(step, cur, fuel).Chain?
    ensures Stepped(step, WalkBack(step, cur, fuel))
    decreases fuel
  {
    if step(cur).Prev? {
      var p := step(cur).flop;
      WalkIsStepped(step, p, fuel - 1);
      var rest, all := WalkBack(step, p, fuel - 1).flops, WalkBack(step, cur, fuel).flops;
      forall i | 0 <= i < |all| - 1
        ensures step(all[i]) == Prev(all[i + 1])
      {
        if i > 0 {
          assert step(rest[i - 1]) == Prev(rest[i]);
        }
      }
    }
  }

  // More fuel than the chain is long makes no difference.
  lemma {:induction false} FuelIsSpare(step: nat -> Step, cur: nat, f: nat, g: nat)
    requires WalkBack(step, cur, f).Chain? && |WalkBack(step, cur, f).flops| <= g
    ensures WalkBack(step, cur, g) == WalkBack(step, cur, f)
    decreases f
  {
    if step(cur).Prev? {
      FuelIsSpare(step, step(cur).flop, f - 1, g - 1);
    }
  }

  // The walk from any flop of a chain is the rest of the chain.
  lemma {:induction false} WalkFromWithin(step: nat -> Step, cur: nat, fuel: nat, k: nat)
    requires WalkBack(step, cur, fuel).Chain? && k < |WalkBack(step, cur, fuel).flops|
    ensures var c := WalkBack(step, cur, fuel);
      WalkBack(step, c.flops[k], fuel) == Chain(c.flops[k..], c.constant)
    decreases fuel
  {
    var c := WalkBack(step, cur, fuel);
    if k == 0 {
      assert c.flops[0..] == c.flops;
    } else {
      var p := step(cur).flop;
      WalkFromWithin(step, p, fuel - 1, k - 1);
      var rest := WalkBack(step, p, fuel - 1);
      assert c.flops[k..] == rest.flops[k - 1..];
      FuelIsSpare(step, rest.flops[k - 1], fuel - 1, fuel);
    }
  }

  // A walk meets no flop twice.
  lemma WalkIsSimple(step: nat -> Step, cur: nat, fuel: nat, i: nat, j: nat)
    requires WalkBack(step, cur, fuel).Chain? && i < j < |WalkBack(step, cur, fuel).flops|
    ensures WalkBack(step, cur, fuel).flops[i] != WalkBack(step, cur, fuel).flops[j]
  {
    WalkFromWithin(step, cur, fuel, i);
    WalkFromWithin(step, cur, fuel, j);
  }

  // ---- the shape of a chain ---------------------------------------------

  // D of one flop is Q of the next, in one clock and with one reset source.
  ghost predicate Linked(w: Context, sig: Signature, flops: seq<nat>) {
    && (forall i :: 0 <= i < |flops| ==> InDomain(w, sig, flops[i]))
    && (forall i :: 0 <= i < |flops| - 1 ==> FedBy(w, flops[i], flops[i + 1]))
  }

  ghost predicate InDomain(w: Context, sig: Signature, i: nat) {
    IsFlop(w, i) && SignatureOf(w, i) == Some(sig)
  }

  // The one D bit of flop i is the Q pin of flop j.
  ghost predicate FedBy(w: Context, i: nat, j: nat) {
    IsFlop(w, i) && exists b: int ::
        Conn(w.m.cells[i], "D") == [Net(b)] && b in w.drivers && w.drivers[b] == Driver(j, "Q")
  }

  ghost predicate FedByConstant(w: Context, i: nat, ch: char) {
    IsFlop(w, i) && Conn(w.m.cells[i], "D") == [Const(ch)]
  }

  lemma StepBackMeaning(w: Context, sig: Signature, i: nat)
    ensures StepBack(w, sig, i).Prev? ==>
        FedBy(w, i, StepBack(w, sig, i).flop) && InDomain(w, sig, StepBack(w, sig, i).flop)
    ensures StepBack(w, sig, i).Head? ==> FedByConstant(w, i, StepBack(w, sig, i).ch)
  {
    if StepBack(w, sig, i).Prev? {
      var b := Conn(w.m.cells[i], "D")[0].id;
      assert Conn(w.m.cells[i], "D") == [Net(b)];
    }
  }

  lemma ChainIsLinked(w: Context, start: nat, maxDepth: nat)
    requires IsFlop(w, start) && Trace(w, start, maxDepth).Chain?
    ensures SignatureOf(w, start).Some?
    ensures Linked(w, SignatureOf(w, start).value, Trace(w, start, maxDepth).flops)
    ensures FedByConstant(w, HeadOf(Trace(w, start, maxDepth)), Trace(w, start, maxDepth).constant)
  {
    var sig := SignatureOf(w, start).value;
    var step := Steps(w, sig);
    var c := Trace(w, start, maxDepth);
    WalkIsStepped(step, start, maxDepth);
    forall i | 0 <= i < |c.flops|
      ensures InDomain(w, sig, c.flops[i])
      ensures i < |c.flops| - 1 ==> FedBy(w, c.flops[i], c.flops[i + 1])
    {
      if i > 0 {
        assert step(c.flops[i - 1]) == Prev(c.flops[i]);
        StepBackMeaning(w, sig, c.flops[i - 1]);
      }
      StepBackMeaning(w, sig, c.flops[i]);
      assert i < |c.flops| - 1 ==> step(c.flops[i]) == Prev(c.flops[i + 1]);
    }
    StepBackMeaning(w, sig, HeadOf(c));
  }

  function HeadOf(c: Chain): nat
    requires c.Chain? && c.flops != []
  {
    c.flops[|c.flops| - 1]
  }

  // Chains are Q-to-D linked in one clock and one reset source, constant at the
  // head, simple and no longer than the bound, and every suffix is the chain of
  // its own first flop.
  lemma ChainShape(w: Context, start: nat, maxDepth: nat, j: nat)
    requires IsFlop(w, start) && Trace(w, start, maxDepth).Chain?
    requires j < |Trace(w, start, maxDepth).flops|
    ensures var c := Trace(w, start, maxDepth);
      && c.flops[0] == start && |c.flops| <= maxDepth
      && Linked(w, SignatureOf(w, start).value, c.flops)
      && FedByConstant(w, HeadOf(c), c.constant)
      && (forall i :: 0 <= i < j ==> c.flops[i] != c.flops[j])
      && IsFlop(w, c.flops[j])
      && Trace(w, c.flops[j], maxDepth) == Chain(c.flops[j..], c.constant)
  {
    var sig := SignatureOf(w, start).value;
    var flops := Trace(w, start, maxDepth).flops;
    ChainIsLinked(w, start, maxDepth);
    forall i | 0 <= i < j
      ensures flops[i] != flops[j]
    {
      WalkIsSimple(Steps(w, sig), start, maxDepth, i, j);
    }
    WalkFromWithin(Steps(w, sig), start, maxDepth, j);
    assert InDomain(w, sig, flops[j]);
  }

  lemma StepBackIsForced(w: Context, sig: Signature, i: nat)
    ensures forall j: nat :: FedBy(w, i, j) && InDomain(w, sig, j) ==> StepBack(w, sig, i) == Prev(j)
    ensures forall ch :: FedByConstant(w, i, ch) ==> StepBack(w, sig, i) == Head(ch)
  {
  }

  lemma {:induction false} SteppedIsWalked(step: nat -> Step, c: Chain, fuel: nat)
    requires Stepped(step, c) && |c.flops| <= fuel
    ensures WalkBack(step, c.flops[0], fuel) == c
    decreases fuel
  {
    var flops := c.flops;
    if |flops| == 1 {
      assert flops == [flops[0]];
    } else {
      var rest := Chain(flops[1..], c.constant);
      assert step(flops[0]) == Prev(flops[1]);
      forall i | 0 <= i < |rest.flops| - 1 ensures step(rest.flops[i]) == Prev(rest.flops[i + 1]) {
        assert step(flops[i + 1]) == Prev(flops[i + 1 + 1]);
      }
      SteppedIsWalked(step, rest, fuel - 1);
      assert flops == [flops[0]] + rest.flops;
    }
  }

  lemma LinkedIsStepped(w: Context, sig: Signature, flops: seq<nat>, ch: char)
    requires flops != [] && Linked(w, sig, flops) && FedByConstant(w, flops[|flops| - 1], ch)
    ensures Stepped(Steps(w, sig), Chain(flops, ch))
  {
    StepBackIsForced(w, sig, flops[|flops| - 1]);
    forall i | 0 <= i < |flops| - 1 ensures StepBack(w, sig, flops[i]) == Prev(flops[i + 1]) {
      assert FedBy(w, flops[i], flops[i + 1]) && InDomain(w, sig, flops[i + 1]);
      StepBackIsForced(w, sig, flops[i]);
    }
  }

  // What the recogniser returns: a list of flops is the chain of its first one
  // exactly when it is linked in one domain, fed by the constant and in bounds.
  lemma TraceIff(w: Context, flops: seq<nat>, ch: char, maxDepth: nat)
    requires flops != [] && IsFlop(w, flops[0]) && SignatureOf(w, flops[0]).Some?
    ensures Trace(w, flops[0], maxDepth) == Chain(flops, ch) <==>
      && |flops| <= maxDepth && Linked(w, SignatureOf(w, flops[0]).value, flops)
      && FedByConstant(w, flops[|flops| - 1], ch)
  {
    var sig := SignatureOf(w, flops[0]).value;
    if Trace(w, flops[0], maxDepth) == Chain(flops, ch) {
      ChainIsLinked(w, flops[0], maxDepth);
    }
    if |flops| <= maxDepth && Linked(w, sig, flops) && FedByConstant(w, flops[|flops| - 1], ch) {
      LinkedIsStepped(w, sig, flops, ch);
      SteppedIsWalked(Steps(w, sig), Chain(flops, ch), maxDepth);
    }
  }

  // ---- recognising and enumerating --------------------------------------

  // `max_depth=min_depth + 4`
  function MaxDepth(minDepth: int): nat {
    if minDepth + 4 < 0 then 0 else minDepth + 4
  }

  predicate AsyncReset(w: Context, i: nat) {
    IsFlop(w, i) && Reset(w, i).Some? && Reset(w, i).value.isAsync
  }

  // The chain an asynchronously reset flop starts, if it is long enough to count.
  function ChainOf(w: Context, minDepth: int, s: nat): Chain {
    if !AsyncReset(w, s) then NoChain
    else
      var c := Trace(w, s, MaxDepth(minDepth));
      if c.Chain? && |c.flops| >= minDepth then c else NoChain
  }

  function Chains(w: Context, minDepth: int): (r: nat -> Chain)
    ensures forall s: nat :: r(s).Chain? ==> r(s).flops != []
  {
    (s: nat) => ChainOf(w, minDepth, s)
  }

  ghost predicate OnChain(chains: nat -> Chain, n: nat, i: nat) {
    exists s: nat :: s < n && chains(s).Chain? && i in chains(s).flops
  }

  // None stands for the error raised on a depth below one.
  method FindResetSynchronizers(w: Context, minDepth: int, extra: set<nat>) returns (out: Option<set<nat>>)
    ensures out.None? <==> minDepth < 1
    ensures out.Some? ==>
      forall i: nat :: i in out.value <==> i in extra || OnChain(Chains(w, minDepth), |w.m.cells|, i)
  {
    if minDepth < 1 {
      return None;
    }
    ghost var chains := Chains(w, minDepth);
    var found := extra;
    for s := 0 to |w.m.cells|
      invariant forall i: nat :: i in found <==> i in extra || OnChain(chains, s, i)
    {
      ghost var before := found;
      if AsyncReset(w, s) {
        var c := TraceResetSyncChain(w, s, MaxDepth(minDepth));
        assert chains(s) == ChainOf(w, minDepth, s);
        if c.Chain? && |c.flops| >= minDepth {
          found := found + set x | x in c.flops;
        }
      }
      assert chains(s) == ChainOf(w, minDepth, s);
      OneMoreStart(chains, s, extra, before, found);
    }
    return Some(found);
  }

  lemma OneMoreStart(chains: nat -> Chain, s: nat, extra: set<nat>, before: set<nat>, found: set<nat>)
    requires forall i: nat :: i in before <==> i in extra || OnChain(chains, s, i)
    requires forall i: nat :: i in found <==> i in before || (chains(s).Chain? && i in chains(s).flops)
    ensures forall i: nat :: i in found <==> i in extra || OnChain(chains, s + 1, i)
  {
    forall i: nat
      ensures i in found <==> i in extra || OnChain(chains, s + 1, i)
    {
      if OnChain(chains, s, i) {
        var t: nat :| t < s && chains(t).Chain? && i in chains(t).flops;
      }
    }
  }

  datatype ResetSyncChain = ResetSyncChain(flops: seq<nat>, constant: char, activeHigh: bool)

  // Among the starts below n: one entry per head, a longest chain that has it.
  ghost predicate BestBelow(chains: nat -> Chain, activeHigh: nat -> bool, best: map<nat, ResetSyncChain>, n: nat) {
    && (forall h :: h in best ==> EntryBelow(chains, activeHigh, h, best[h], n))
    && (forall s: nat :: s < n && chains(s).Chain? && chains(s).flops != [] ==> Served(chains(s), best))
  }

  ghost predicate EntryBelow(chains: nat -> Chain, activeHigh: nat -> bool, h: nat, e: ResetSyncChain, n: nat) {
    exists s: nat :: s < n && IsEntry(chains(s), activeHigh(s), h, e)
  }

  // No chain with this head is longer, and of those as long none starts earlier.
  ghost predicate IsFirstLongest(chains: nat -> Chain, h: nat, flops: seq<nat>, n: nat) {
    exists s: nat :: s < n && chains(s).Chain? && chains(s).flops == flops && PrecedesIn(chains, h, s, n)
  }

  ghost predicate PrecedesIn(chains: nat -> Chain, h: nat, s: nat, n: nat) {
    && HasHead(chains(s), h)
    && forall t: nat :: t < n && HasHead(chains(t), h) ==>
         |chains(t).flops| <= |chains(s).flops| && (t < s ==> |chains(t).flops| < |chains(s).flops|)
  }

  ghost predicate HasHead(c: Chain, h: nat) {
    c.Chain? && c.flops != [] && HeadOf(c) == h
  }

  ghost predicate FirstsBelow(chains: nat -> Chain, best: map<nat, ResetSyncChain>, n: nat) {
    && (forall h :: h in best ==> IsFirstLongest(chains, h, best[h].flops, n))
    && (forall h, t: nat :: t < n && HasHead(chains(t), h) ==> h in best)
  }

  // One more start: the entry of another head stays, that of its own is replaced if shorter.
  lemma FirstsGrow(chains: nat -> Chain, best: map<nat, ResetSyncChain>, activeHigh: bool, s: nat)
    requires FirstsBelow(chains, best, s) && (chains(s).Chain? ==> chains(s).flops != [])
    ensures FirstsBelow(chains, KeepChain(best, chains(s), activeHigh), s + 1)
  {
    var c, n := chains(s), s + 1;
    var kept := KeepChain(best, c, activeHigh);
    forall h | h in kept
      ensures IsFirstLongest(chains, h, kept[h].flops, n)
    {
      if h in best && kept[h] == best[h] {
        var t: nat :| t < s && chains(t).Chain? && chains(t).flops == best[h].flops && PrecedesIn(chains, h, t, s);
        assert PrecedesIn(chains, h, t, n);
      } else {
        assert HasHead(c, h) && kept[h].flops == c.flops;
        if h in best {
          var t: nat :| t < s && chains(t).Chain? && chains(t).flops == best[h].flops && PrecedesIn(chains, h, t, s);
        }
        assert PrecedesIn(chains, h, s, n);
      }
    }
  }

  // The entry is the chain, which ends at head h, with the polarity of its start.
  ghost predicate IsEntry(c: Chain, activeHigh: bool, h: nat, e: ResetSyncChain) {
    c.Chain? && c.flops != [] && HeadOf(c) == h && e == ResetSyncChain(c.flops, c.constant, activeHigh)
  }

  // The chain is kept, or one at least as long with the same head.
  ghost predicate Served(c: Chain, best: map<nat, ResetSyncChain>)
    requires c.Chain? && c.flops != []
  {
    HeadOf(c) in best && |c.flops| <= |best[HeadOf(c)].flops|
  }

  ghost predicate EntriesBelow(chains: nat -> Chain, activeHigh: nat -> bool, best: map<nat, ResetSyncChain>, n: nat) {
    BestBelow(chains, activeHigh, best, n) && FirstsBelow(chains, best, n)
  }

  lemma OneMoreEntry(chains: nat -> Chain, activeHigh: nat -> bool, best: map<nat, ResetSyncChain>, s: nat)
    requires EntriesBelow(chains, activeHigh, best, s) && (chains(s).Chain? ==> chains(s).flops != [])
    ensures EntriesBelow(chains, activeHigh, KeepChain(best, chains(s), activeHigh(s)), s + 1)
  {
    KeepLonger(chains, activeHigh, best, s);
    FirstsGrow(chains, best, activeHigh(s), s);
  }

  method IterResetSyncChains(w: Context, minDepth: int) returns (best: map<nat, ResetSyncChain>)
    ensures BestBelow(Chains(w, minDepth), w.activeHigh, best, |w.m.cells|)
    ensures FirstsBelow(Chains(w, minDepth), best, |w.m.cells|)
  {
    ghost var chains := Chains(w, minDepth);
    best := map[];
    for s := 0 to |w.m.cells|
      invariant EntriesBelow(chains, w.activeHigh, best, s)
    {
      ghost var before := best;
      assert chains(s) == ChainOf(w, minDepth, s);
      if AsyncReset(w, s) {
        var c := TraceResetSyncChain(w, s, MaxDepth(minDepth));
        if c.Chain? && |c.flops| >= minDepth {
          best := Keep(best, HeadOf(c), ResetSyncChain(c.flops, c.constant, Reset(w, s).value.activeHigh));
        }
      }
      assert best == KeepChain(before, chains(s), w.activeHigh(s));
      OneMoreEntry(chains, w.activeHigh, before, s);
    }
  }

  function Keep(best: map<nat, ResetSyncChain>, head: nat, entry: ResetSyncChain): map<nat, ResetSyncChain> {
    if head !in best || |entry.flops| > |best[head].flops| then best[head := entry] else best
  }

  function KeepChain(best: map<nat, ResetSyncChain>, c: Chain, activeHigh: bool): map<nat, ResetSyncChain>
    requires c.Chain? ==> c.flops != []
  {
    if c.NoChain? then best else Keep(best, HeadOf(c), ResetSyncChain(c.flops, c.constant, activeHigh))
  }

  lemma KeepLonger(chains: nat -> Chain, activeHigh: nat -> bool, best: map<nat, ResetSyncChain>, s: nat)
    requires BestBelow(chains, activeHigh, best, s) && (chains(s).Chain? ==> chains(s).flops != [])
    ensures BestBelow(chains, activeHigh, KeepChain(best, chains(s), activeHigh(s)), s + 1)
  {
    var kept := KeepChain(best, chains(s), activeHigh(s));
    forall t: nat | t < s + 1 && chains(t).Chain? && chains(t).flops != []
      ensures Served(chains(t), kept)
    {
      assert t < s ==> Served(chains(t), best);
    }
    forall h | h in kept
      ensures EntryBelow(chains, activeHigh, h, kept[h], s + 1)
    {
      if h in best && kept[h] == best[h] {
        assert EntryBelow(chains, activeHigh, h, best[h], s);
        var t: nat :| t < s && IsEntry(chains(t), activeHigh(t), h, best[h]);
      } else {
        assert IsEntry(chains(s), activeHigh(s), h, kept[h]);
      }
    }
  }

  // ---- enumeration against recognition ----------------------------------

  type Feeding = iset<(nat, nat)>

  ghost function Feeds(w: Context): Feeding {
    iset p: (nat, nat) | FedBy(w, p.0, p.1)
  }

  // No flop feeds the one-bit D pins of two flops.
  ghost predicate NoFork(fed: Feeding) {
    forall i, j, k :: (i, k) in fed && (j, k) in fed ==> i == j
  }

  ghost predicate FedInTurn(fed: Feeding, flops: seq<nat>) {
    forall i :: 0 <= i < |flops| - 1 ==> (flops[i], flops[i + 1]) in fed
  }

  // Without forks two chains with one head agree counted from the head.
  lemma {:induction false} AlignedFromHead(fed: Feeding, a: seq<nat>, b: seq<nat>, k: nat)
    requires NoFork(fed) && FedInTurn(fed, a) && FedInTurn(fed, b)
    requires k < |a| && k < |b| && a[|a| - 1] == b[|b| - 1]
    ensures a[|a| - 1 - k] == b[|b| - 1 - k]
  {
    if k > 0 {
      AlignedFromHead(fed, a, b, k - 1);
      var x, y := |a| - 1 - k, |b| - 1 - k;
      assert (a[x], a[x + 1]) in fed && (b[y], b[y + 1]) in fed;
    }
  }

  lemma AlignedContains(fed: Feeding, a: seq<nat>, b: seq<nat>, i: nat)
    requires NoFork(fed) && FedInTurn(fed, a) && FedInTurn(fed, b)
    requires a != [] && |a| <= |b| && a[|a| - 1] == b[|b| - 1] && i in a
    ensures i in b
  {
    var k: nat :| k < |a| && a[k] == i;
    AlignedFromHead(fed, a, b, |a| - 1 - k);
    assert i == b[|b| - 1 - (|a| - 1 - k)];
  }

  lemma ChainIsFed(w: Context, minDepth: int, s: nat)
    requires ChainOf(w, minDepth, s).Chain?
    ensures FedInTurn(Feeds(w), ChainOf(w, minDepth, s).flops)
  {
    ChainIsLinked(w, s, MaxDepth(minDepth));
    var flops := ChainOf(w, minDepth, s).flops;
    forall i | 0 <= i < |flops| - 1
      ensures (flops[i], flops[i + 1]) in Feeds(w)
    {
      assert FedBy(w, flops[i], flops[i + 1]);
    }
  }

  // The chain kept in place of a counted one.
  lemma ServedBy(chains: nat -> Chain, activeHigh: nat -> bool, best: map<nat, ResetSyncChain>, n: nat, s: nat)
    returns (t: nat)
    requires BestBelow(chains, activeHigh, best, n) && s < n && chains(s).Chain? && chains(s).flops != []
    ensures chains(t).Chain? && chains(t).flops != [] && HeadOf(chains(t)) == HeadOf(chains(s))
    ensures |chains(s).flops| <= |chains(t).flops|
    ensures HeadOf(chains(s)) in best && best[HeadOf(chains(s))].flops == chains(t).flops
  {
    assert Served(chains(s), best);
    var h := HeadOf(chains(s));
    assert EntryBelow(chains, activeHigh, h, best[h], n);
    t :| t < n && IsEntry(chains(t), activeHigh(t), h, best[h]);
  }

  ghost predicate OnEntry(best: map<nat, ResetSyncChain>, i: nat) {
    exists h :: h in best && i in best[h].flops
  }

  // Every flop of an enumerated chain is recognised.
  lemma EntriesAreChains(chains: nat -> Chain, activeHigh: nat -> bool, best: map<nat, ResetSyncChain>, n: nat, i: nat)
    requires BestBelow(chains, activeHigh, best, n) && OnEntry(best, i)
    ensures OnChain(chains, n, i)
  {
    var h :| h in best && i in best[h].flops;
    assert EntryBelow(chains, activeHigh, h, best[h], n);
    var s: nat :| s < n && IsEntry(chains(s), activeHigh(s), h, best[h]);
    assert i in chains(s).flops;
  }

  // Without forks every recognised flop is on an enumerated chain.
  lemma ChainsAreEntries(fed: Feeding, chains: nat -> Chain, activeHigh: nat -> bool, best: map<nat, ResetSyncChain>,
                         n: nat, i: nat)
    requires forall s: nat :: chains(s).Chain? ==> chains(s).flops != [] && FedInTurn(fed, chains(s).flops)
    requires NoFork(fed) && BestBelow(chains, activeHigh, best, n) && OnChain(chains, n, i)
    ensures OnEntry(best, i)
  {
    var s: nat :| s < n && chains(s).Chain? && i in chains(s).flops;
    var t := ServedBy(chains, activeHigh, best, n, s);
    AlignedContains(fed, chains(s).flops, chains(t).flops, i);
    assert i in best[HeadOf(chains(s))].flops;
  }

  // The enumerated flops are recognised ones, and all of them when no flop feeds
  // two others.
  lemma EnumerationAgainstRecognition(w: Context, minDepth: int, best: map<nat, ResetSyncChain>, i: nat)
    requires BestBelow(Chains(w, minDepth), w.activeHigh, best, |w.m.cells|)
    ensures OnEntry(best, i) ==> OnChain(Chains(w, minDepth), |w.m.cells|, i)
    ensures NoFork(Feeds(w)) ==> (OnEntry(best, i) <==> OnChain(Chains(w, minDepth), |w.m.cells|, i))
  {
    var chains := Chains(w, minDepth);
    if OnEntry(best, i) {
      EntriesAreChains(chains, w.activeHigh, best, |w.m.cells|, i);
    }
    if NoFork(Feeds(w)) && OnChain(chains, |w.m.cells|, i) {
      forall s: nat | chains(s).Chain?
        ensures FedInTurn(Feeds(w), chains(s).flops)
      {
        ChainIsFed(w, minDepth, s);
      }
      ChainsAreEntries(Feeds(w), chains, w.activeHigh, best, |w.m.cells|, i);
    }
  }

  // The comparison along a chain ignores the kind of reset: a flop that is reset
  // synchronously can head the chain of one that is reset asynchronously.
  lemma ChainMixesResetKinds() returns (w: Context)
    ensures IsDriverIndex(w.m, w.drivers)
    ensures AsyncReset(w, 1) && IsFlop(w, 0) && Reset(w, 0).Some? && !Reset(w, 0).value.isAsync
    ensures Trace(w, 1, MaxDepth(2)) == Chain([1, 0], '1')
  {
    var head := [Pin("CLK", [Net(1)]), Pin("SRST", [Net(2)]), Pin("D", [Const('1')]), Pin("Q", [Net(3)])];
    var tail := [Pin("CLK", [Net(1)]), Pin("ARST", [Net(2)]), Pin("D", [Net(3)]), Pin("Q", [Net(4)])];
    var m := Module([Port("rst", Input, [Net(2)])], [Cell("h", "$sdff", head), Cell("t", "$adff", tail)]);
    w := Netlisted(m, map[3 := Driver(0, "Q"), 4 := Driver(1, "Q")], (i: nat) => true, map[0 := "clk", 1 := "clk"]);
    TypesOfResets();
    HasPins(m.cells[0], "SRST");
    HasPins(m.cells[1], "ARST");
    TwoFlopsIndexed(w);
    ResetFromPort(w, 0, "SRST", "rst");
    ResetFromPort(w, 1, "ARST", "rst");
    TwoFlopWalk(w, Signature("clk", "rst", FromPort));
  }

  // Cell i drives net i + 3 from its Q.
  lemma StagesIndexed(m: Module, drivers: map<int, Driver>)
    requires forall i :: 0 <= i < |m.cells| ==> Conn(m.cells[i], "Q") == [Net(i + 3)] && Conn(m.cells[i], "Y") == []
    requires forall b: int :: b in drivers <==> 3 <= b < 3 + |m.cells|
    requires forall b: int {:trigger drivers[b]} :: b in drivers ==> drivers[b] == Driver(b - 3, "Q")
    ensures IsDriverIndex(m, drivers)
  {
    forall b: int | b in drivers ensures Drivers.IsEntry(m, drivers, b) {
      assert drivers[b] == Driver(b - 3, "Q");
      assert Conn(m.cells[b - 3], "Q") == [Net(b - 3 + 3)];
    }
    forall b: int, d | Outputs(m, d, b) ensures b in drivers && d == drivers[b] {
      assert d.port == "Q" && Conn(m.cells[d.cell], "Q") == [Net(d.cell + 3)];
    }
  }

  lemma TwoFlopsIndexed(w: Context)
    requires |w.m.cells| == 2 && Conn(w.m.cells[0], "Y") == [] && Conn(w.m.cells[1], "Y") == []
    requires Conn(w.m.cells[0], "Q") == [Net(3)] && Conn(w.m.cells[1], "Q") == [Net(4)]
    requires w.drivers == map[3 := Driver(0, "Q"), 4 := Driver(1, "Q")]
    ensures IsDriverIndex(w.m, w.drivers)
  {
    StagesIndexed(w.m, w.drivers);
  }

  // Flops linked Q to D in one clock and one reset source, the first of them reset
  // asynchronously and the last fed by a constant, as many as the recogniser accepts.
  ghost predicate IsSyncList(w: Context, minDepth: int, flops: seq<nat>) {
    && flops != [] && AsyncReset(w, flops[0]) && SignatureOf(w, flops[0]).Some?
    && Linked(w, SignatureOf(w, flops[0]).value, flops)
    && IsTied(w, flops[|flops| - 1]) && minDepth <= |flops| <= minDepth + 4
  }

  ghost predicate IsTied(w: Context, i: nat) {
    exists ch :: FedByConstant(w, i, ch)
  }

  // Flop k of a list is reset asynchronously and the one feeding it is not.
  ghost predicate MixesAt(w: Context, flops: seq<nat>, k: nat) {
    k + 1 < |flops| && AsyncReset(w, flops[k]) && !AsyncReset(w, flops[k + 1])
  }

  // Every recognised flop is reset asynchronously if and only if on no such list a flop
  // that is feeds from one that is not.
  lemma AllAsyncIff(w: Context, minDepth: int)
    ensures (forall i: nat :: OnChain(Chains(w, minDepth), |w.m.cells|, i) ==> AsyncReset(w, i)) <==>
            forall flops: seq<nat>, k: nat :: IsSyncList(w, minDepth, flops) ==> !MixesAt(w, flops, k)
  {
    var chains := Chains(w, minDepth);
    if forall flops: seq<nat>, k: nat :: IsSyncList(w, minDepth, flops) ==> !MixesAt(w, flops, k) {
      forall i: nat | OnChain(chains, |w.m.cells|, i) ensures AsyncReset(w, i) {
        var s: nat :| s < |w.m.cells| && chains(s).Chain? && i in chains(s).flops;
        var k: nat :| k < |chains(s).flops| && chains(s).flops[k] == i;
        ChainIsSyncList(w, minDepth, s);
        UnmixedIsAsync(w, chains(s).flops, k);
      }
    }
    forall flops: seq<nat>, k: nat | IsSyncList(w, minDepth, flops) && MixesAt(w, flops, k)
      ensures exists i: nat :: OnChain(chains, |w.m.cells|, i) && !AsyncReset(w, i)
    {
      SyncListIsChain(w, minDepth, flops);
      assert chains(flops[0]).flops == flops && flops[k + 1] in flops;
      assert OnChain(chains, |w.m.cells|, flops[k + 1]);
    }
  }

  lemma ChainIsSyncList(w: Context, minDepth: int, s: nat)
    requires ChainOf(w, minDepth, s).Chain?
    ensures IsSyncList(w, minDepth, ChainOf(w, minDepth, s).flops) && ChainOf(w, minDepth, s).flops[0] == s
  {
    var c := ChainOf(w, minDepth, s);
    ChainIsLinked(w, s, MaxDepth(minDepth));
    RecognisedIff(w, minDepth, c.flops, c.constant);
  }

  lemma SyncListIsChain(w: Context, minDepth: int, flops: seq<nat>)
    requires IsSyncList(w, minDepth, flops)
    ensures ChainOf(w, minDepth, flops[0]).Chain? && ChainOf(w, minDepth, flops[0]).flops == flops
    ensures flops[0] < |w.m.cells|
  {
    var ch :| FedByConstant(w, flops[|flops| - 1], ch);
    RecognisedIff(w, minDepth, flops, ch);
  }

  lemma UnmixedIsAsync(w: Context, flops: seq<nat>, k: nat)
    requires k < |flops| && AsyncReset(w, flops[0]) && forall j: nat :: !MixesAt(w, flops, j)
    ensures AsyncReset(w, flops[k])
  {
    var holds := (x: nat) => AsyncReset(w, x);
    forall j: nat | j + 1 < |flops| && holds(flops[j]) ensures holds(flops[j + 1]) {
      assert !MixesAt(w, flops, j);
    }
    StaysOn(holds, flops, k);
  }

  // What holds of the first and is handed on holds of all.
  lemma {:induction false} StaysOn(holds: nat -> bool, flops: seq<nat>, k: nat)
    requires k < |flops| && holds(flops[0])
    requires forall j: nat :: j + 1 < |flops| && holds(flops[j]) ==> holds(flops[j + 1])
    ensures holds(flops[k])
  {
    if k > 0 {
      StaysOn(holds, flops, k - 1);
      assert holds(flops[k - 1 + 1]);
    }
  }

  // A list counts as the chain of its first flop exactly when that flop is reset
  // asynchronously, the list is linked and fed by the constant, and it has between
  // min_depth and min_depth + 4 flops.
  lemma RecognisedIff(w: Context, minDepth: int, flops: seq<nat>, ch: char)
    requires flops != [] && IsFlop(w, flops[0]) && SignatureOf(w, flops[0]).Some?
    ensures ChainOf(w, minDepth, flops[0]) == Chain(flops, ch) <==>
      && AsyncReset(w, flops[0]) && Linked(w, SignatureOf(w, flops[0]).value, flops)
      && FedByConstant(w, flops[|flops| - 1], ch) && minDepth <= |flops| <= minDepth + 4
  {
    TraceIff(w, flops, ch, MaxDepth(minDepth));
  }

  // Stage i of a chain: its D is net i + 2, or the constant for the first, its Q net i + 3.
  function StageCell(i: nat): Cell {
    Cell(seq(i, _ => 's'), "$adff", [
      Pin("CLK", [Net(1)]), Pin("ARST", [Net(2)]), Pin("D", [if i == 0 then Const('1') else Net(i + 2)]),
      Pin("Q", [Net(i + 3)])
    ])
  }

  lemma StageConns(i: nat)
    ensures Conn(StageCell(i), "CLK") == [Net(1)] && Conn(StageCell(i), "ARST") == [Net(2)]
    ensures Conn(StageCell(i), "D") == [if i == 0 then Const('1') else Net(i + 2)]
    ensures Conn(StageCell(i), "Q") == [Net(i + 3)] && Conn(StageCell(i), "Y") == []
  {
    HasPins(StageCell(i), "ARST");
  }

  function StageDrivers(n: nat): (r: map<int, Driver>)
    ensures forall b: int :: b in r <==> 3 <= b < 3 + n
    ensures forall b: int {:trigger r[b]} :: b in r ==> r[b] == Driver(b - 3, "Q")
  {
    if n == 0 then map[] else StageDrivers(n - 1)[n + 2 := Driver(n - 1, "Q")]
  }

  function StageClocks(n: nat): (r: map<nat, string>)
    ensures forall i: nat :: i < n ==> i in r && r[i] == "clk"
  {
    if n == 0 then map[] else StageClocks(n - 1)[n - 1 := "clk"]
  }

  function Stages(n: nat): (w: Context)
    ensures |w.m.cells| == n && forall i :: 0 <= i < n ==> w.m.cells[i] == StageCell(i)
  {
    Netlisted(Module([Port("rst", Input, [Net(2)])], seq(n, i requires 0 <= i => StageCell(i))),
              StageDrivers(n), (i: nat) => true, StageClocks(n))
  }

  function Down(n: nat): (r: seq<nat>)
    ensures |r| == n && forall i :: 0 <= i < n ==> r[i] == n - 1 - i
  {
    seq(n, i requires 0 <= i < n => n - 1 - i)
  }

  // Chains of every length up to min_depth + 4 are recognised, so the head may be more
  // than `min_depth - 1` hops from the start.
  lemma HeadFurtherThanDocumented(minDepth: nat, n: nat)
    requires 1 <= minDepth && 1 <= n
    ensures var w := Stages(n);
      && IsDriverIndex(w.m, w.drivers) && AsyncReset(w, n - 1)
      && (ChainOf(w, minDepth, n - 1) == Chain(Down(n), '1') <==> minDepth <= n <= minDepth + 4)
  {
    var w, sig := Stages(n), Signature("clk", "rst", FromPort);
    TypesOfResets();
    forall i: nat | i < n ensures AsyncReset(w, i) && InDomain(w, sig, i) {
      StageConns(i);
      ResetFromPort(w, i, "ARST", "rst");
    }
    forall i: nat | i < n ensures Conn(w.m.cells[i], "Q") == [Net(i + 3)] && Conn(w.m.cells[i], "Y") == [] {
      StageConns(i);
    }
    StagesIndexed(w.m, w.drivers);
    StagesLinked(n, sig);
    RecognisedIff(w, minDepth, Down(n), '1');
  }

  lemma StageIsFed(n: nat, i: nat, j: nat)
    requires j + 1 == i < n && IsFlop(Stages(n), i)
    ensures FedBy(Stages(n), i, j)
  {
    StageConns(i);
    assert Stages(n).drivers[i + 2] == Driver(j, "Q");
  }

  lemma StagesLinked(n: nat, sig: Signature)
    requires n > 0 && forall i: nat :: i < n ==> InDomain(Stages(n), sig, i)
    ensures Linked(Stages(n), sig, Down(n)) && FedByConstant(Stages(n), 0, '1')
  {
    StageConns(0);
    var w, flops := Stages(n), Down(n);
    forall k | 0 <= k < n - 1 ensures FedBy(w, flops[k], flops[k + 1]) {
      StageIsFed(n, flops[k], flops[k + 1]);
    }
  }

  lemma TypesOfResets()
    ensures IsFf("$sdff") && IsFf("$adff")
    ensures "$adff" in ASYNC_RESET_PINS && ASYNC_RESET_PINS["$adff"] == "ARST"
    ensures "$sdff" !in ASYNC_RESET_PINS && "$sdff" in SYNC_RESET_PINS && SYNC_RESET_PINS["$sdff"] == "SRST"
  {
    assert "$sdff"[1] == 's';
    assert forall t :: t in ASYNC_RESET_PINS ==> t[1] != 's';
  }

  lemma ResetFromPort(w: Context, i: nat, pin: string, port: string)
    requires i < |w.m.cells| && IsFf(w.m.cells[i].ctype)
    requires Conn(w.m.cells[i], "CLK") == [Net(1)] && Conn(w.m.cells[i], pin) == [Net(2)]
    requires var t := w.m.cells[i].ctype;
      if t in ASYNC_RESET_PINS then ASYNC_RESET_PINS[t] == pin else t in SYNC_RESET_PINS && SYNC_RESET_PINS[t] == pin
    requires w.m.ports == [Port(port, Input, [Net(2)])]
    ensures IsFlop(w, i)
    ensures Reset(w, i) == Some(ResetSource(port, FromPort, w.m.cells[i].ctype in ASYNC_RESET_PINS, w.activeHigh(i)))
    ensures i in w.clocks ==> SignatureOf(w, i) == Some(Signature(w.clocks[i], port, FromPort))
  {
    assert PortOfBit(w.m.ports, Net(2)) == Some(w.m.ports[0]);
  }

  lemma TwoFlopWalk(w: Context, sig: Signature)
    requires IsFlop(w, 0) && IsFlop(w, 1) && SignatureOf(w, 0) == Some(sig) && SignatureOf(w, 1) == Some(sig)
    requires Conn(w.m.cells[0], "D") == [Const('1')] && Conn(w.m.cells[1], "D") == [Net(3)]
    requires 3 in w.drivers && w.drivers[3] == Driver(0, "Q")
    ensures Trace(w, 1, 6) == Chain([1, 0], '1')
  {
    var step := Steps(w, sig);
    assert step(0) == Head('1');
    assert step(1) == Prev(0);
    assert WalkBack(step, 0, 5) == Chain([0], '1');
    assert WalkBack(step, 1, 6) == Joined([1], WalkBack(step, 0, 5));
  }

  lemma HasPins(c: Cell, reset: string)
    requires |c.pins| == 4 && reset != "CLK" && reset != "C" && reset != "D" && reset != "Q"
    requires c.pins[0].port == "CLK" && c.pins[1].port == reset && c.pins[2].port == "D" && c.pins[3].port == "Q"
    ensures Conn(c, "CLK") == c.pins[0].bits && Conn(c, reset) == c.pins[1].bits
    ensures Conn(c, "D") == c.pins[2].bits && Conn(c, "Q") == c.pins[3].bits
    ensures reset != "Y" ==> Conn(c, "Y") == []
  {
    var p, q, r := c.pins[1..], c.pins[1..][1..], c.pins[1..][1..][1..];
    assert "CLK" != reset && |"CLK"| != |"D"| && |"CLK"| != |"Q"| && "D"[0] != "Q"[0];
    assert ConnFrom(r, "Q") == c.pins[3].bits;
    assert ConnFrom(q, "Q") == c.pins[3].bits && ConnFrom(q, "D") == c.pins[2].bits;
    assert ConnFrom(p, "Q") == c.pins[3].bits && ConnFrom(p, "D") == c.pins[2].bits &&
        ConnFrom(p, reset) == c.pins[1].bits;
  }
}
