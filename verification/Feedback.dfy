/**
 The handshake-feedback search of CDC-012, with its shared fan-in cache, and the
 rule's own per-source verdict cache.
 */
module Feedback {
  import opened Netlist
  import opened Graph
  import opened Fanout
  import opened Drivers
  import opened CellWalk
  import opened Fanin

  const FANIN_DEPTH: nat := 12
  const MAX_FLOP_HOPS: nat := 6

  // Every input net of a flop but its clock.
  function InputBits(c: Cell): seq<int> {
    PinNets(c.pins, IsFf(c.ctype))
  }

  function PinNets(pins: seq<Pin>, ff: bool): seq<int> {
    if pins == [] then []
    else
      (if pins[0].port in NON_READER_PORTS || (ff && pins[0].port == "C") then [] else NetSeq(pins[0].bits))
      + PinNets(pins[1..], ff)
  }

  // The pin is neither an output nor the clock pin of a flop, by either name.
  predicate IsDataPin(port: string, ff: bool) {
    port != "Y" && port != "Q" && port != "CLK" && (ff ==> port != "C")
  }

  lemma {:induction false} PinNetsAre(pins: seq<Pin>, ff: bool, b: int)
    ensures b in PinNets(pins, ff) <==>
            exists p :: 0 <= p < |pins| && IsDataPin(pins[p].port, ff) && Net(b) in pins[p].bits
  {
    if pins != [] {
      PinNetsAre(pins[1..], ff, b);
      assert pins == [pins[0]] + pins[1..];
    }
  }

  // The search starts from the nets on exactly those pins.
  lemma InputBitsAre(c: Cell, b: int)
    ensures b in InputBits(c) <==>
            exists p :: 0 <= p < |c.pins| && IsDataPin(c.pins[p].port, IsFf(c.ctype)) && Net(b) in c.pins[p].bits
  {
    PinNetsAre(c.pins, IsFf(c.ctype), b);
  }

  // Flops in the combinational fan-in of flop `f`.
  ghost predicate InFanin(m: Module, drivers: map<int, Driver>, f: nat, g: nat) {
    f < |m.cells| && FlopBehind(m, drivers, InputBits(m.cells[f]), FANIN_DEPTH, g)
  }

  // --- the shared cache -------------------------------------------------

  class FaninCache {
    const m: Module
    const drivers: map<int, Driver>
    ghost const fan: Edges  // (f, g): flop g is in the fan-in of flop f
    var entries: map<int, set<int>>

    ghost predicate Valid()
      reads this
    {
      && IsDriverIndex(m, drivers)
      && IsFanin(m, drivers, fan)
      && forall f :: f in entries ==> 0 <= f < |m.cells| && forall g :: g in entries[f] <==> (f, g) in fan
    }

    constructor (m: Module, drivers: map<int, Driver>)
      requires IsDriverIndex(m, drivers)
      ensures Valid() && this.m == m && this.drivers == drivers && entries == map[]
      ensures fan == FaninEdges(m, drivers)
    {
      this.m, this.drivers, this.entries := m, drivers, map[];
      this.fan := FaninEdges(m, drivers);
      FaninEdgesAre(m, drivers);
    }

    // The flop's fan-in, taken from the cache when it is there.
    method Fanin(f: int) returns (r: set<int>)
      requires Valid() && 0 <= f < |m.cells|
      modifies this
      ensures Valid() && f in entries && entries[f] == r
      ensures forall g :: g in old(entries) ==> g in entries && entries[g] == old(entries)[g]
      ensures forall g :: g in r <==> (f, g) in fan
    {
      if f in entries {
        return entries[f];
      }
      var flops := ComputeFanin(m, drivers, f);
      r := set g | g in flops :: g;
      forall g ensures g in r <==> (f, g) in fan {
        if g >= 0 {
          assert g in flops <==> InFanin(m, drivers, f, g);
        }
      }
      entries := entries[f := r];
    }
  }

  ghost function FaninEdges(m: Module, drivers: map<int, Driver>): Edges {
    iset e: (int, int) | e.0 >= 0 && e.1 >= 0 && InFanin(m, drivers, e.0, e.1)
  }

  // The pairs (f, g) of `fan` are those with flop g in the fan-in of flop f.
  ghost predicate IsFanin(m: Module, drivers: map<int, Driver>, fan: Edges) {
    && (forall f: nat, g: nat {:trigger InFanin(m, drivers, f, g)} :: (f, g) in fan <==> InFanin(m, drivers, f, g))
    && (forall f: int, g: int :: (f, g) in fan ==> f >= 0 && 0 <= g < |m.cells|)
  }

  lemma FaninEdgesAre(m: Module, drivers: map<int, Driver>)
    requires IsDriverIndex(m, drivers)
    ensures IsFanin(m, drivers, FaninEdges(m, drivers))
  {
    FaninInRange(m, drivers);
  }

  lemma FaninInRange(m: Module, drivers: map<int, Driver>)
    requires IsDriverIndex(m, drivers)
    ensures forall f: nat, g: nat :: InFanin(m, drivers, f, g) ==> g < |m.cells|
  {
    forall f: nat, g: nat | InFanin(m, drivers, f, g) ensures g < |m.cells| {
      var b :| b in drivers && drivers[b] == Driver(g, "Q");
      assert drivers[b].cell < |m.cells|;
    }
  }

  method ComputeFanin(m: Module, drivers: map<int, Driver>, f: nat) returns (r: set<nat>)
    requires IsDriverIndex(m, drivers) && f < |m.cells|
    ensures forall g: nat :: g in r <==> InFanin(m, drivers, f, g)
  {
    var bits := InputBits(m.cells[f]);
    if bits == [] {
      r := {};
      NoInputsNoFanin(m, drivers, f);
    } else {
      r := BackwardFlopFanin(m, drivers, bits, FANIN_DEPTH, true);
    }
  }

  lemma NoInputsNoFanin(m: Module, drivers: map<int, Driver>, f: nat)
    requires f < |m.cells| && InputBits(m.cells[f]) == []
    ensures forall g :: !InFanin(m, drivers, f, g)
  {
    forall n: nat ensures Ball(BackwardEdges(m, drivers), Start([]), n) == iset{} {
      EmptyBall(BackwardEdges(m, drivers), n);
    }
  }

  lemma {:induction false} EmptyBall(e: Edges, n: nat)
    ensures Ball(e, Start([]), n) == iset{}
  {
    if n > 0 {
      EmptyBall(e, n - 1);
    }
  }

  // --- the search -------------------------------------------------------

  datatype Crossing = Crossing(src: int, srcClock: string, dstClock: string)

  ghost predicate InDomain(domains: map<int, string>, g: int, clock: string) {
    g in domains && domains[g] == clock
  }

  // One register hop that stays in the source clock.
  ghost function HopEdges(fan: Edges, domains: map<int, string>, srcClock: string): Edges {
    iset e: (int, int) | e in fan && InDomain(domains, e.1, srcClock)
  }

  // Within `hops` registers of the source some other flop of the destination clock feeds back.
  ghost predicate HasFeedback(fan: Edges, domains: map<int, string>, c: Crossing, hops: nat) {
    hops > 0 &&
    exists f, g ::
      f in Ball(HopEdges(fan, domains, c.srcClock), iset{c.src}, hops - 1) && FeedsBack(fan, domains, c, f, g)
  }

  ghost predicate FeedsBack(fan: Edges, domains: map<int, string>, c: Crossing, f: int, g: int) {
    (f, g) in fan && g != c.src && InDomain(domains, g, c.dstClock)
  }

  // --- invariants -------------------------------------------------------

  datatype Query = Query(fan: Edges, flops: int, domains: map<int, string>, c: Crossing)

  ghost predicate ValidQuery(q: Query) {
    0 <= q.c.src < q.flops && forall g :: g in q.domains ==> 0 <= g < q.flops
  }

  ghost function Hops(q: Query): Edges {
    HopEdges(q.fan, q.domains, q.c.srcClock)
  }

  // `disc`: flops of the source clock found so far, with the hop they were found at.
  ghost predicate Found(q: Query, bound: nat, disc: map<int, nat>, seen: set<int>) {
    && q.c.src in disc && disc[q.c.src] == 0
    && (forall f: int :: f in disc ==> FoundAt(q, bound, disc, f))
    && disc.Keys <= seen
    && (forall g: int :: g in seen && g !in disc ==> Uninteresting(q, g))
  }

  ghost predicate FoundAt(q: Query, bound: nat, disc: map<int, nat>, f: int)
    requires f in disc
  {
    && 0 <= f < q.flops && disc[f] <= bound
    && f in Ball(Hops(q), iset{q.c.src}, disc[f])
    && (f != q.c.src ==> !InDomain(q.domains, f, q.c.dstClock))
  }

  ghost predicate Uninteresting(q: Query, g: int) {
    !InDomain(q.domains, g, q.c.dstClock) && !InDomain(q.domains, g, q.c.srcClock)
  }

  // Flop g of f's fan-in was dealt with: not in the destination clock, entered if in the source clock.
  ghost predicate Handled(q: Query, disc: map<int, nat>, g: int, at: nat) {
    && (g != q.c.src ==> !InDomain(q.domains, g, q.c.dstClock))
    && (InDomain(q.domains, g, q.c.srcClock) || g == q.c.src ==> g in disc && disc[g] <= at)
  }

  ghost predicate Searched(q: Query, disc: map<int, nat>, f: int) {
    f in disc && forall g: int :: (f, g) in q.fan ==> Handled(q, disc, g, disc[f] + 1)
  }

  ghost predicate Grows(disc: map<int, nat>, disc': map<int, nat>, at: nat) {
    && (forall f :: f in disc ==> f in disc' && disc'[f] == disc[f])
    && (forall f :: f in disc' && f !in disc ==> disc'[f] == at)
  }

  ghost predicate IsLevel(disc: map<int, nat>, list: seq<int>, at: nat) {
    forall f: int :: f in list <==> f in disc && disc[f] == at
  }

  lemma SearchedSurvives(q: Query, disc: map<int, nat>, disc': map<int, nat>, at: nat, f: int)
    requires Searched(q, disc, f) && Grows(disc, disc', at)
    ensures Searched(q, disc', f)
  {
    forall g: int | (f, g) in q.fan ensures Handled(q, disc', g, disc'[f] + 1) {
      assert Handled(q, disc, g, disc[f] + 1);
    }
  }

  // A flop seen before was dealt with.
  lemma SeenIsHandled(q: Query, disc: map<int, nat>, seen: set<int>, hop: nat, g: int)
    requires Found(q, hop + 1, disc, seen) && g in seen
    ensures Handled(q, disc, g, hop + 1)
  {
    if g in disc {
      assert FoundAt(q, hop + 1, disc, g);
    }
  }

  lemma NewFlopFound(q: Query, disc: map<int, nat>, seen: set<int>, hop: nat, f: int, g: int)
    requires ValidQuery(q) && Found(q, hop + 1, disc, seen) && f in disc && disc[f] == hop
    requires (f, g) in q.fan && g !in seen
    requires InDomain(q.domains, g, q.c.srcClock) && !InDomain(q.domains, g, q.c.dstClock)
    ensures Found(q, hop + 1, disc[g := hop + 1], seen + {g})
  {
    assert FoundAt(q, hop + 1, disc, f);
    assert (f, g) in Hops(q);
    BallStep(Hops(q), iset{q.c.src}, hop, f, g);
    var disc' := disc[g := hop + 1];
    forall x: int | x in disc' ensures FoundAt(q, hop + 1, disc', x) {
      if x != g {
        assert FoundAt(q, hop + 1, disc, x);
      }
    }
  }

  lemma HandledSurvives(q: Query, disc: map<int, nat>, disc': map<int, nat>, at: nat, g: int)
    requires Handled(q, disc, g, at) && Grows(disc, disc', at)
    ensures Handled(q, disc', g, at)
  {
  }

  // What one flop of a fan-in does to the search.
  method HandleFlop(ghost q: Query, domains: map<int, string>, c: Crossing, ghost f: int, g: int, ghost hop: nat,
                    ghost disc: map<int, nat>, seen: set<int>, nxt: seq<int>)
    returns (found: bool, ghost disc': map<int, nat>, seen': set<int>, nxt': seq<int>)
    requires q.domains == domains && q.c == c && ValidQuery(q) && (f, g) in q.fan
    requires Found(q, hop + 1, disc, seen) && IsLevel(disc, nxt, hop + 1) && f in disc && disc[f] == hop
    ensures found ==> FeedsBack(q.fan, domains, c, f, g)
    ensures !found ==> Found(q, hop + 1, disc', seen') && IsLevel(disc', nxt', hop + 1)
    ensures !found ==> Grows(disc, disc', hop + 1) && Handled(q, disc', g, hop + 1)
  {
    found, disc', seen', nxt' := false, disc, seen, nxt;
    if g in seen {
      SeenIsHandled(q, disc, seen, hop, g);
    } else if g in domains && domains[g] == c.dstClock {
      found := true;
    } else if g in domains && domains[g] == c.srcClock {
      NewFlopFound(q, disc, seen, hop, f, g);
      disc' := disc[g := hop + 1];
      seen' := seen + {g};
      nxt' := nxt + [g];
    } else {
      seen' := seen + {g};
      OtherFlopSeen(q, hop, disc, seen, g);
    }
  }

  lemma OtherFlopSeen(q: Query, hop: nat, disc: map<int, nat>, seen: set<int>, g: int)
    requires Found(q, hop + 1, disc, seen) && Uninteresting(q, g)
    ensures Found(q, hop + 1, disc, seen + {g})
  {
  }

  // Go through the fan-in of one flop found at `hop`.
  method SearchFlop(cache: FaninCache, ghost q: Query, domains: map<int, string>, c: Crossing, f: int, ghost hop: nat,
                    ghost disc: map<int, nat>, seen: set<int>, nxt: seq<int>)
    returns (found: bool, ghost disc': map<int, nat>, seen': set<int>, nxt': seq<int>)
    requires cache.Valid() && q == Query(cache.fan, |cache.m.cells|, domains, c) && ValidQuery(q)
    requires Found(q, hop + 1, disc, seen) && IsLevel(disc, nxt, hop + 1) && f in disc && disc[f] == hop
    modifies cache
    ensures cache.Valid()
    ensures found ==> exists g :: FeedsBack(q.fan, domains, c, f, g)
    ensures !found ==> Found(q, hop + 1, disc', seen') && IsLevel(disc', nxt', hop + 1)
    ensures !found ==> Grows(disc, disc', hop + 1) && Searched(q, disc', f)
  {
    found, disc', seen', nxt' := false, disc, seen, nxt;
    assert FoundAt(q, hop + 1, disc, f);
    var fanin := cache.Fanin(f);
    for g := 0 to |cache.m.cells|
      invariant cache.Valid()
      invariant Found(q, hop + 1, disc', seen') && IsLevel(disc', nxt', hop + 1) && Grows(disc, disc', hop + 1)
      invariant forall x :: x in fanin && x < g ==> Handled(q, disc', x, hop + 1)
    {
      if g in fanin {
        ghost var was := disc';
        found, disc', seen', nxt' := HandleFlop(q, domains, c, f, g, hop, disc', seen', nxt');
        if found {
          return;
        }
        forall x | x in fanin && x < g ensures Handled(q, disc', x, hop + 1) {
          HandledSurvives(q, was, disc', hop + 1, x);
        }
      }
    }
    assert Searched(q, disc', f);
  }

  // State after `hop` rounds of the search.
  ghost predicate RoundState(q: Query, hop: nat, disc: map<int, nat>, seen: set<int>, frontier: seq<int>) {
    && Found(q, hop, disc, seen) && IsLevel(disc, frontier, hop)
    && forall f :: f in disc && disc[f] < hop ==> Searched(q, disc, f)
  }

  lemma FoundWeakens(q: Query, hop: nat, disc: map<int, nat>, seen: set<int>)
    requires Found(q, hop, disc, seen)
    ensures Found(q, hop + 1, disc, seen)
  {
    forall f: int | f in disc ensures FoundAt(q, hop + 1, disc, f) {
      assert FoundAt(q, hop, disc, f);
    }
  }

  // One round: every flop of the frontier.
  method SearchRound(cache: FaninCache, ghost q: Query, domains: map<int, string>, c: Crossing, ghost hop: nat,
                     ghost disc: map<int, nat>, seen: set<int>, frontier: seq<int>)
    returns (found: bool, ghost disc': map<int, nat>, seen': set<int>, nxt: seq<int>)
    requires cache.Valid() && q == Query(cache.fan, |cache.m.cells|, domains, c) && ValidQuery(q)
    requires RoundState(q, hop, disc, seen, frontier)
    modifies cache
    ensures cache.Valid()
    ensures found ==> exists f, g :: f in disc && disc[f] == hop && FeedsBack(q.fan, domains, c, f, g)
    ensures !found ==> RoundState(q, hop + 1, disc', seen', nxt)
  {
    found, disc', seen', nxt := false, disc, seen, [];
    FoundWeakens(q, hop, disc, seen);
    NothingAbove(q, hop, disc, seen);
    for i := 0 to |frontier|
      invariant cache.Valid()
      invariant Found(q, hop + 1, disc', seen') && IsLevel(disc', nxt, hop + 1) && Grows(disc, disc', hop + 1)
      invariant forall f :: f in disc && disc[f] < hop ==> Searched(q, disc', f)
      invariant forall j :: 0 <= j < i ==> Searched(q, disc', frontier[j])
    {
      assert frontier[i] in frontier;
      ghost var was := disc';
      found, disc', seen', nxt := SearchFlop(cache, q, domains, c, frontier[i], hop, disc', seen', nxt);
      if found {
        return;
      }
      forall f | Searched(q, was, f) ensures Searched(q, disc', f) {
        SearchedSurvives(q, was, disc', hop + 1, f);
      }
    }
    forall f | f in disc' && disc'[f] < hop + 1 ensures Searched(q, disc', f) {
      if disc'[f] == hop {
        assert f in frontier;
      }
    }
  }

  lemma NothingAbove(q: Query, hop: nat, disc: map<int, nat>, seen: set<int>)
    requires Found(q, hop, disc, seen)
    ensures IsLevel(disc, [], hop + 1)
  {
    forall f: int | f in disc ensures disc[f] <= hop {
      assert FoundAt(q, hop, disc, f);
    }
  }

  // The whole search.  The cached fan-ins never change its answer.
  method HasDstToSrcFeedback(cache: FaninCache, domains: map<int, string>, c: Crossing) returns (feedback: bool)
    requires cache.Valid() && ValidQuery(Query(cache.fan, |cache.m.cells|, domains, c))
    modifies cache
    ensures cache.Valid()
    ensures feedback <==> HasFeedback(cache.fan, domains, c, MAX_FLOP_HOPS)
  {
    ghost var q := Query(cache.fan, |cache.m.cells|, domains, c);
    var seen := {c.src};
    var frontier := [c.src];
    ghost var disc: map<int, nat> := map[c.src := 0];
    var hop := 0;
    while hop < MAX_FLOP_HOPS && frontier != []
      invariant 0 <= hop <= MAX_FLOP_HOPS && cache.Valid()
      invariant RoundState(q, hop, disc, seen, frontier)
      decreases MAX_FLOP_HOPS - hop
    {
      var found, nxt;
      ghost var was := disc;
      found, disc, seen, nxt := SearchRound(cache, q, domains, c, hop, disc, seen, frontier);
      if found {
        ghost var f, g :| f in was && was[f] == hop && FeedsBack(q.fan, domains, c, f, g);
        FoundIsFeedback(q, was, hop, f);
        return true;
      }
      frontier := nxt;
      hop := hop + 1;
    }
    feedback := false;
    AllSearched(q, hop, disc, seen, frontier);
    NothingFound(q, disc);
  }

  lemma AllSearched(q: Query, hop: nat, disc: map<int, nat>, seen: set<int>, frontier: seq<int>)
    requires RoundState(q, hop, disc, seen, frontier) && (hop == MAX_FLOP_HOPS || frontier == [])
    ensures forall f :: f in disc && disc[f] < MAX_FLOP_HOPS ==> Searched(q, disc, f)
  {
    forall f: int | f in disc ensures disc[f] <= hop && (disc[f] == hop ==> f in frontier) {
      assert FoundAt(q, hop, disc, f);
    }
  }

  lemma FoundIsFeedback(q: Query, disc: map<int, nat>, hop: nat, f: int)
    requires f in disc && disc[f] == hop < MAX_FLOP_HOPS && FoundAt(q, hop, disc, f)
    requires exists g :: FeedsBack(q.fan, q.domains, q.c, f, g)
    ensures HasFeedback(q.fan, q.domains, q.c, MAX_FLOP_HOPS)
  {
    BallGrows(Hops(q), iset{q.c.src}, hop, MAX_FLOP_HOPS - 1);
  }

  lemma HopIsFound(q: Query, disc: map<int, nat>, p: int, f: int)
    requires Searched(q, disc, p) && (p, f) in Hops(q)
    ensures f in disc && disc[f] <= disc[p] + 1
  {
    assert Handled(q, disc, f, disc[p] + 1);
  }

  lemma HopsAreClosed(q: Query, disc: map<int, nat>)
    requires forall x :: x in disc && disc[x] < MAX_FLOP_HOPS ==> Searched(q, disc, x)
    ensures EdgeClosed(Hops(q), disc, MAX_FLOP_HOPS)
  {
    forall a, b | (a, b) in Hops(q) && a in disc && disc[a] < MAX_FLOP_HOPS
      ensures b in disc && disc[b] <= disc[a] + 1
    {
      HopIsFound(q, disc, a, b);
    }
  }

  lemma NothingFound(q: Query, disc: map<int, nat>)
    requires q.c.src in disc && disc[q.c.src] == 0
    requires forall f :: f in disc && disc[f] < MAX_FLOP_HOPS ==> Searched(q, disc, f)
    ensures !HasFeedback(q.fan, q.domains, q.c, MAX_FLOP_HOPS)
  {
    HopsAreClosed(q, disc);
    forall f: int, g: int | f in Ball(Hops(q), iset{q.c.src}, MAX_FLOP_HOPS - 1)
      ensures !FeedsBack(q.fan, q.domains, q.c, f, g)
    {
      BallIsSeen(Hops(q), iset{q.c.src}, MAX_FLOP_HOPS, disc, MAX_FLOP_HOPS - 1, f);
      assert Searched(q, disc, f);
      if (f, g) in q.fan {
        assert Handled(q, disc, g, disc[f] + 1);
      }
    }
  }

  // --- the rule's verdict cache -----------------------------------------

  // `truth` is the set of crossings that have feedback.
  ghost predicate IsTruth(fan: Edges, domains: map<int, string>, truth: iset<Crossing>) {
    forall c {:trigger HasFeedback(fan, domains, c, MAX_FLOP_HOPS)} ::
      c in truth <==> HasFeedback(fan, domains, c, MAX_FLOP_HOPS)
  }

  ghost function TruthOf(fan: Edges, domains: map<int, string>): (truth: iset<Crossing>)
    ensures IsTruth(fan, domains, truth)
  {
    iset c: Crossing | HasFeedback(fan, domains, c, MAX_FLOP_HOPS)
  }

  // Verdicts as the rule produces them: computed for the first crossing of a source
  // flop and reused for every later one.
  method CachedVerdicts(cache: FaninCache, domains: map<int, string>, cs: seq<Crossing>, ghost truth: iset<Crossing>)
    returns (verdicts: seq<bool>)
    requires cache.Valid() && IsTruth(cache.fan, domains, truth)
    requires forall i :: 0 <= i < |cs| ==> ValidQuery(Query(cache.fan, |cache.m.cells|, domains, cs[i]))
    modifies cache
    ensures cache.Valid() && |verdicts| == |cs|
    ensures VerdictsRight(cs, verdicts, truth)
  {
    verdicts := [];
    var known: map<int, bool> := map[];
    for i := 0 to |cs|
      invariant cache.Valid() && |verdicts| == i
      invariant KnownUpTo(cs, known, truth, i)
      invariant VerdictsRight(cs, verdicts, truth)
    {
      var c := cs[i];
      if c.src !in known {
        var feedback := Verdict(cache, domains, c, truth);
        KnownOneMore(cs, known, truth, i, feedback);
        known := known[c.src := feedback];
      } else {
        KnownAlready(cs, known, truth, i);
      }
      OneMoreVerdict(cs, known, truth, verdicts, i);
      verdicts := verdicts + [known[c.src]];
    }
  }

  method Verdict(cache: FaninCache, domains: map<int, string>, c: Crossing, ghost truth: iset<Crossing>)
    returns (feedback: bool)
    requires cache.Valid() && IsTruth(cache.fan, domains, truth)
    requires ValidQuery(Query(cache.fan, |cache.m.cells|, domains, c))
    modifies cache
    ensures cache.Valid() && feedback == (c in truth)
  {
    feedback := HasDstToSrcFeedback(cache, domains, c);
  }

  // Each verdict is that of the first crossing with the same source flop.
  ghost predicate VerdictsRight(cs: seq<Crossing>, verdicts: seq<bool>, truth: iset<Crossing>) {
    |verdicts| <= |cs| && forall j :: 0 <= j < |verdicts| ==> verdicts[j] == (First(cs, cs[j]) in truth)
  }

  lemma OneMoreVerdict(cs: seq<Crossing>, known: map<int, bool>, truth: iset<Crossing>, verdicts: seq<bool>, i: nat)
    requires i < |cs| && |verdicts| == i && KnownUpTo(cs, known, truth, i + 1) && VerdictsRight(cs, verdicts, truth)
    ensures cs[i].src in known && VerdictsRight(cs, verdicts + [known[cs[i].src]], truth)
  {
  }

  // The verdict cache after `i` crossings.
  ghost predicate KnownUpTo(cs: seq<Crossing>, known: map<int, bool>, truth: iset<Crossing>, i: nat) {
    && (forall j :: 0 <= j < i && j < |cs| ==> cs[j].src in known)
    && (forall j :: 0 <= j < |cs| && cs[j].src in known ==> known[cs[j].src] == (First(cs, cs[j]) in truth))
  }

  lemma KnownAlready(cs: seq<Crossing>, known: map<int, bool>, truth: iset<Crossing>, i: nat)
    requires i < |cs| && KnownUpTo(cs, known, truth, i) && cs[i].src in known
    ensures KnownUpTo(cs, known, truth, i + 1)
  {
  }

  lemma KnownOneMore(cs: seq<Crossing>, known: map<int, bool>, truth: iset<Crossing>, i: nat, feedback: bool)
    requires i < |cs| && KnownUpTo(cs, known, truth, i) && cs[i].src !in known
    requires feedback == (cs[i] in truth)
    ensures KnownUpTo(cs, known[cs[i].src := feedback], truth, i + 1)
  {
    FirstHere(cs, i);
    forall j | 0 <= j < |cs| && cs[j].src == cs[i].src ensures First(cs, cs[j]) == cs[i] {
      SameFirst(cs, cs[j], cs[i]);
    }
  }

  // The first crossing in the list that has c's source flop.
  function First(cs: seq<Crossing>, c: Crossing): (r: Crossing)
    ensures r.src == c.src
    ensures c in cs ==> r in cs
  {
    if cs == [] then c else if cs[0].src == c.src then cs[0] else First(cs[1..], c)
  }

  lemma {:induction false} FirstHere(cs: seq<Crossing>, i: nat)
    requires i < |cs| && forall j :: 0 <= j < i ==> cs[j].src != cs[i].src
    ensures First(cs, cs[i]) == cs[i]
  {
    if i > 0 {
      assert cs[0].src != cs[i].src;
      FirstHere(cs[1..], i - 1);
    }
  }

  lemma {:induction false} SameFirst(cs: seq<Crossing>, a: Crossing, b: Crossing)
    requires a.src == b.src && a in cs
    ensures First(cs, a) == First(cs, b)
  {
    if cs[0].src != a.src {
      SameFirst(cs[1..], a, b);
    }
  }

  // All crossings consulted for a source flop have the same clock pair.
  ghost predicate OneDestinationPerSource(cs: seq<Crossing>) {
    forall a, b :: a in cs && b in cs && a.src == b.src ==> a == b
  }

  // Reusing the first verdict of a source flop gives every crossing its own.
  ghost predicate CacheAgrees(cs: seq<Crossing>, fan: Edges, domains: map<int, string>) {
    forall a :: a in cs ==>
      (HasFeedback(fan, domains, First(cs, a), MAX_FLOP_HOPS) <==> HasFeedback(fan, domains, a, MAX_FLOP_HOPS))
  }

  // Crossings leave a flop in its own clock for another one.
  ghost predicate AreCrossings(cs: seq<Crossing>) {
    && (forall a :: a in cs ==> a.src >= 0 && a.srcClock != a.dstClock)
    && (forall a, b :: a in cs && b in cs && a.src == b.src ==> a.srcClock == b.srcClock)
  }

  // A flop of the destination clock takes at least two nets of the source's Q bus
  // within the search's bound, and its enable comes from flops of its own clock only:
  // the shape the rule consults the cache for.
  ghost predicate Consulted(m: Module, drivers: map<int, Driver>, domains: map<int, string>, maxHops: nat, a: Crossing,
                            g: nat)
    requires 0 <= a.src < |m.cells|
  {
    && g < |m.cells| && FlopOf(m.cells[g]).Some? && InDomain(domains, g, a.dstClock)
    && TakesBus(m, maxHops, a.src, g) && GatedByEnable(m, drivers, domains, a.dstClock, g)
  }

  ghost predicate TakesBus(m: Module, maxHops: nat, src: nat, g: nat)
    requires src < |m.cells| && g < |m.cells|
  {
    exists x, y :: x != y && Arrives(m, maxHops, src, g, x) && Arrives(m, maxHops, src, g, y)
  }

  ghost predicate Arrives(m: Module, maxHops: nat, src: nat, g: nat, x: int)
    requires src < |m.cells| && g < |m.cells|
  {
    && Net(x) in Conn(m.cells[g], "D")
    && x in Ball(DataEdges(m, true), Start(NetSeq(Conn(m.cells[src], "Q"))), maxHops)
  }

  ghost predicate GatedByEnable(m: Module, drivers: map<int, Driver>, domains: map<int, string>, clock: string, g: nat)
    requires g < |m.cells|
  {
    var en := NetSeq(Conn(m.cells[g], "EN"));
    && (exists i: nat :: FlopBehind(m, drivers, en, FANIN_DEPTH, i))
    && (forall i: nat :: FlopBehind(m, drivers, en, FANIN_DEPTH, i) ==> InDomain(domains, i, clock))
  }

  // The netlist has the source flops, in the clocks the crossings give them, and the
  // destination flops.
  ghost predicate Hosts(m: Module, drivers: map<int, Driver>, domains: map<int, string>, maxHops: nat,
                        cs: seq<Crossing>)
  {
    && ValidModule(m) && IsDriverIndex(m, drivers)
    && (forall g :: g in domains ==> 0 <= g < |m.cells|)
    && (forall a :: a in cs ==>
          && 0 <= a.src < |m.cells| && FlopOf(m.cells[a.src]).Some? && InDomain(domains, a.src, a.srcClock)
          && exists g: nat :: Consulted(m, drivers, domains, maxHops, a, g))
  }

  // The per-source cache agrees with recomputation on every netlist exactly when all
  // crossings consulted for a source flop share its clock pair.
  lemma VerdictCacheExactIff(cs: seq<Crossing>, maxHops: nat)
    requires AreCrossings(cs)
    ensures OneDestinationPerSource(cs) <==>
            forall m, drivers, domains :: Hosts(m, drivers, domains, maxHops, cs) ==>
                CacheAgrees(cs, FaninEdges(m, drivers), domains)
  {
    if OneDestinationPerSource(cs) {
      forall m, drivers, domains ensures CacheAgrees(cs, FaninEdges(m, drivers), domains) {
        forall a | a in cs ensures First(cs, a) == a {
          assert First(cs, a) in cs;
        }
      }
    } else {
      var m, drivers, domains := TwoDestinationsDisagree(cs, maxHops);
    }
  }

  lemma {:induction false} SourcesBelow(cs: seq<Crossing>) returns (n: nat)
    ensures forall a :: a in cs ==> a.src < n
  {
    if cs == [] {
      n := 0;
    } else {
      var k := SourcesBelow(cs[1..]);
      n := if cs[0].src < k then k else cs[0].src + 1;
      forall a | a in cs ensures a.src < n {
        assert a == cs[0] || a in cs[1..];
      }
    }
  }

  lemma TwoDestinationsDisagree(cs: seq<Crossing>, maxHops: nat)
    returns (m: Module, drivers: map<int, Driver>, domains: map<int, string>)
    requires AreCrossings(cs) && !OneDestinationPerSource(cs)
    ensures Hosts(m, drivers, domains, maxHops, cs) && !CacheAgrees(cs, FaninEdges(m, drivers), domains)
  {
    var a, b :| a in cs && b in cs && a.src == b.src && a != b;
    SameFirst(cs, a, b);
    var first := First(cs, a);
    var other := if a == first then b else a;
    assert First(cs, other) == first && other in cs && other != first;
    var n := SourcesBelow(cs);
    m := FedBackExists(cs, first.src, n);
    drivers, domains := BusDrivers(|m.cells|), DomainsOf(cs, |cs|, n, first.dstClock);
    FedBackHosts(m, cs, first.src, n, first.dstClock, maxHops);
    OnlyItsClockFeedsBack(m, cs, first.src, n, domains, first, other);
  }

  // ---- one flop fed back to another ---------------------------------------

  function NameOf(i: nat): string {
    seq(i, _ => 'c')
  }

  // The Q bus of cell i.
  function BusOf(i: int): seq<Bit> {
    [Net(3 * i), Net(3 * i + 1)]
  }

  function BusCell(i: nat, d: seq<Bit>, en: Bit): Cell {
    Cell(NameOf(i), "$dffe", [Pin("CLK", [Net(3 * i + 2)]), Pin("D", d), Pin("EN", [en]), Pin("Q", BusOf(i))])
  }

  const TIED_OFF: seq<Bit> := [Const('0'), Const('0')]

  // Flop n drives the D pins of flop `src`.  Behind it stand, for every crossing, a flop
  // that takes the Q bus of its source, and behind those the flops that enable them.
  function FedBackCell(cs: seq<Crossing>, src: nat, n: nat, i: nat): Cell {
    if n < i <= n + |cs| then BusCell(i, BusOf(cs[i - n - 1].src), Net(3 * (i + |cs|)))
    else BusCell(i, if i == src then BusOf(n) else TIED_OFF, Const('1'))
  }

  function BusDrivers(n: nat): (r: map<int, Driver>)
    ensures forall b: int :: b in r <==> 0 <= b < 3 * n && b % 3 != 2
    ensures forall b: int {:trigger r[b]} :: b in r ==> r[b] == Driver(b / 3, "Q")
  {
    if n == 0 then map[] else BusDrivers(n - 1)[3 * n - 3 := Driver(n - 1, "Q")][3 * n - 2 := Driver(n - 1, "Q")]
  }

  // Flop n in the given clock, and the flops of the first k crossings in theirs.
  function DomainsOf(cs: seq<Crossing>, k: nat, n: nat, clock: string): map<int, string>
    requires k <= |cs|
  {
    if k == 0 then map[n as int := clock]
    else
      var a := cs[k - 1];
      DomainsOf(cs, k - 1, n, clock)[a.src := a.srcClock][n + k := a.dstClock][n + |cs| + k := a.dstClock]
  }

  // The three flops of crossing j are in its clocks.
  ghost predicate InItsClocks(domains: map<int, string>, cs: seq<Crossing>, n: nat, j: nat)
    requires j < |cs|
  {
    && InDomain(domains, cs[j].src, cs[j].srcClock)
    && InDomain(domains, n + 1 + j, cs[j].dstClock) && InDomain(domains, n + 1 + |cs| + j, cs[j].dstClock)
  }

  lemma {:induction false} DomainsAre(cs: seq<Crossing>, k: nat, n: nat, clock: string, j: nat)
    requires AreCrossings(cs) && (forall a :: a in cs ==> a.src < n) && j < k <= |cs|
    ensures InItsClocks(DomainsOf(cs, k, n, clock), cs, n, j)
    decreases k
  {
    assert cs[k - 1] in cs && cs[j] in cs;
    if j < k - 1 {
      DomainsAre(cs, k - 1, n, clock, j);
    }
  }

  lemma {:induction false} DomainsInRange(cs: seq<Crossing>, k: nat, n: nat, clock: string)
    requires AreCrossings(cs) && (forall a :: a in cs ==> a.src < n) && k <= |cs|
    ensures forall g :: g in DomainsOf(cs, k, n, clock) ==> 0 <= g <= n + 2 * |cs|
    ensures InDomain(DomainsOf(cs, k, n, clock), n, clock)
    decreases k
  {
    if k > 0 {
      assert cs[k - 1] in cs;
      DomainsInRange(cs, k - 1, n, clock);
    }
  }

  lemma BusConns(i: nat, d: seq<Bit>, en: Bit)
    ensures var c := BusCell(i, d, en);
      && Conn(c, "Q") == BusOf(i) && Conn(c, "Y") == [] && Conn(c, "D") == d && Conn(c, "EN") == [en]
      && FlopOf(c).Some? && ValidCell(c)
  {
    var c := BusCell(i, d, en);
    assert "D"[0] != "Q"[0] && |"CLK"| == 3 && |"EN"| == 2 && |"D"| == |"Q"| == 1;
    assert ValidCell(c);
    ConnIsPin(c, 0);
    ConnIsPin(c, 1);
    ConnIsPin(c, 2);
    ConnIsPin(c, 3);
    assert forall p :: 0 <= p < 4 ==> c.pins[p].port[0] != "Y"[0];
  }

  lemma BusInputs(i: nat, d: seq<Bit>, en: Bit)
    ensures InputBits(BusCell(i, d, en)) == NetSeq(d) + NetSeq([en])
  {
    var pins := BusCell(i, d, en).pins;
    assert pins[1..][1..][1..][1..] == [];
    assert pins[1..][1..][1..][0] == pins[3] && pins[1..][1..][0] == pins[2] && pins[1..][0] == pins[1];
    assert "D"[0] != "C"[0] && "EN"[0] != "C"[0] && "D" !in NON_READER_PORTS && "EN" !in NON_READER_PORTS;
    assert PinNets(pins[1..][1..][1..], true) == [];
    assert PinNets(pins[1..][1..], true) == NetSeq([en]) + [];
    assert PinNets(pins[1..], true) == NetSeq(d) + (NetSeq([en]) + []);
  }

  // Cell i is a flop with its own Q bus.
  ghost predicate HasBus(m: Module, i: nat)
    requires i < |m.cells|
  {
    && Conn(m.cells[i], "Q") == BusOf(i) && Conn(m.cells[i], "Y") == [] && FlopOf(m.cells[i]).Some?
    && ValidCell(m.cells[i]) && m.cells[i].name == NameOf(i)
  }

  // The destination flop of crossing k takes the bus and is enabled by a flop of its own.
  ghost predicate HasDestination(m: Module, cs: seq<Crossing>, n: nat, k: nat)
    requires k < |cs| && |m.cells| == n + 1 + 2 * |cs|
  {
    && Conn(m.cells[n + 1 + k], "D") == BusOf(cs[k].src)
    && Conn(m.cells[n + 1 + k], "EN") == [Net(3 * (n + 1 + |cs| + k))]
  }

  ghost predicate IsFedBack(m: Module, cs: seq<Crossing>, src: nat, n: nat) {
    && src < n && |m.cells| == n + 1 + 2 * |cs|
    && (forall i: nat {:trigger HasBus(m, i)} :: i < |m.cells| ==> HasBus(m, i))
    && (forall k: nat {:trigger HasDestination(m, cs, n, k)} :: k < |cs| ==> HasDestination(m, cs, n, k))
    && InputBits(m.cells[src]) == [3 * n, 3 * n + 1]
  }

  lemma FedBackPins(cs: seq<Crossing>, src: nat, n: nat, i: nat)
    requires src < n
    ensures var c := FedBackCell(cs, src, n, i);
      && Conn(c, "Q") == BusOf(i) && Conn(c, "Y") == [] && FlopOf(c).Some? && ValidCell(c) && c.name == NameOf(i)
      && (n < i <= n + |cs| ==>
            Conn(c, "D") == BusOf(cs[i - n - 1].src) && Conn(c, "EN") == [Net(3 * (i + |cs|))])
      && (i == src ==> InputBits(c) == [3 * n, 3 * n + 1])
  {
    if n < i <= n + |cs| {
      BusConns(i, BusOf(cs[i - n - 1].src), Net(3 * (i + |cs|)));
    } else {
      BusConns(i, if i == src then BusOf(n) else TIED_OFF, Const('1'));
      BusInputs(i, BusOf(n), Const('1'));
      BusNets(n);
      OneNetSeq(0);
    }
  }

  lemma BusAt(m: Module, cs: seq<Crossing>, src: nat, n: nat, i: nat)
    requires src < n && i < |m.cells| && m.cells[i] == FedBackCell(cs, src, n, i)
    ensures HasBus(m, i)
  {
    FedBackPins(cs, src, n, i);
  }

  lemma DestinationAt(m: Module, cs: seq<Crossing>, src: nat, n: nat, k: nat)
    requires src < n && k < |cs| && |m.cells| == n + 1 + 2 * |cs|
    requires m.cells[n + 1 + k] == FedBackCell(cs, src, n, n + 1 + k)
    ensures HasDestination(m, cs, n, k)
  {
    FedBackPins(cs, src, n, n + 1 + k);
  }

  lemma FedBackExists(cs: seq<Crossing>, src: nat, n: nat) returns (m: Module)
    requires src < n
    ensures IsFedBack(m, cs, src, n)
  {
    m := Module([], seq(n + 1 + 2 * |cs|, i requires 0 <= i => FedBackCell(cs, src, n, i)));
    forall i: nat | i < |m.cells| ensures HasBus(m, i) {
      BusAt(m, cs, src, n, i);
    }
    forall k: nat | k < |cs| ensures HasDestination(m, cs, n, k) {
      DestinationAt(m, cs, src, n, k);
    }
    FedBackPins(cs, src, n, src);
    assert m.cells[src] == FedBackCell(cs, src, n, src);
  }

  lemma FedBackIsIndexed(m: Module, cs: seq<Crossing>, src: nat, n: nat)
    requires IsFedBack(m, cs, src, n)
    ensures IsDriverIndex(m, BusDrivers(|m.cells|)) && ValidModule(m)
  {
    forall i: nat | i < |m.cells|
      ensures Conn(m.cells[i], "Q") == BusOf(i) && Conn(m.cells[i], "Y") == [] && ValidCell(m.cells[i])
      ensures m.cells[i].name == NameOf(i)
    {
      assert HasBus(m, i);
    }
    BusesAreIndexed(m, BusDrivers(|m.cells|));
    forall i, j | 0 <= i < j < |m.cells| ensures m.cells[i].name != m.cells[j].name {
      assert |m.cells[i].name| == i && |m.cells[j].name| == j;
    }
  }

  lemma BusesAreIndexed(m: Module, drivers: map<int, Driver>)
    requires forall i: nat :: i < |m.cells| ==> Conn(m.cells[i], "Q") == BusOf(i) && Conn(m.cells[i], "Y") == []
    requires drivers == BusDrivers(|m.cells|)
    ensures IsDriverIndex(m, drivers)
  {
    forall b: int | b in drivers ensures IsEntry(m, drivers, b) {
      var i := b / 3;
      assert drivers[b] == Driver(i, "Q") && Conn(m.cells[i], "Q") == BusOf(i);
    }
    forall b: int, d | Outputs(m, d, b) ensures b in drivers && d == drivers[b] {
      assert Conn(m.cells[d.cell], "Q") == BusOf(d.cell);
      BusDriverAt(|m.cells|, d.cell, b);
    }
  }

  lemma {:induction false} NoEdgesBall(e: Edges, seeds: iset<int>, n: nat)
    requires forall a: int, b: int :: (a, b) !in e
    ensures Ball(e, seeds, n) == seeds
  {
    if n > 0 {
      NoEdgesBall(e, seeds, n - 1);
    }
  }

  // Where only flops drive nets, the fan-in of some nets is their drivers.
  lemma DirectFanin(m: Module, drivers: map<int, Driver>, nets: seq<int>, g: nat)
    requires forall b: int {:trigger drivers[b]} :: b in drivers ==> drivers[b].port == "Q"
    ensures FlopBehind(m, drivers, nets, FANIN_DEPTH, g) <==>
            exists x :: x in nets && x in drivers && drivers[x] == Driver(g, "Q")
  {
    var e := BackwardEdges(m, drivers);
    forall a: int, b: int ensures (a, b) !in e {
      if a in drivers {
        assert drivers[a].port == "Q";
      }
    }
    NoEdgesBall(e, Start(nets), FANIN_DEPTH);
  }

  lemma BusNets(i: int)
    ensures NetSeq(BusOf(i)) == [3 * i, 3 * i + 1]
  {
    assert BusOf(i)[1..] == [Net(3 * i + 1)];
    OneNetSeq(3 * i + 1);
  }

  lemma OneNetSeq(x: int)
    ensures NetSeq([Net(x)]) == [x] && NetSeq([Const('1')]) == []
  {
    assert [Net(x)][1..] == [] && [Const('1')][1..] == [];
  }

  // Behind the Q nets of flop n is flop n.
  lemma BehindBus(m: Module, n: nat, nets: seq<int>, g: nat)
    requires n < |m.cells| && nets != [] && forall x :: x in nets ==> x == 3 * n || x == 3 * n + 1
    ensures FlopBehind(m, BusDrivers(|m.cells|), nets, FANIN_DEPTH, g) <==> g == n
  {
    var drivers := BusDrivers(|m.cells|);
    forall b: int | b in drivers ensures drivers[b].port == "Q" {
      assert drivers[b] == Driver(b / 3, "Q");
    }
    DirectFanin(m, drivers, nets, g);
    forall x | x in nets ensures x in drivers && drivers[x] == Driver(n, "Q") {
      BusDriverAt(|m.cells|, n, x);
    }
    assert nets[0] in nets;
  }

  lemma BusDriverAt(cells: nat, n: nat, x: int)
    requires n < cells && (x == 3 * n || x == 3 * n + 1)
    ensures x in BusDrivers(cells) && BusDrivers(cells)[x] == Driver(n, "Q")
  {
    assert x / 3 == n && x % 3 != 2;
  }

  lemma FaninOfBus(m: Module, s: nat, n: nat, g: int)
    requires s < |m.cells| && n < |m.cells| && InputBits(m.cells[s]) == [3 * n, 3 * n + 1]
    ensures (s, g) in FaninEdges(m, BusDrivers(|m.cells|)) <==> g == n
  {
    if g >= 0 {
      BehindBus(m, n, [3 * n, 3 * n + 1], g);
    }
  }

  // The destination flop of a crossing takes the bus and is gated by its own flop.
  lemma FedBackConsulted(m: Module, cs: seq<Crossing>, n: nat, domains: map<int, string>, maxHops: nat, k: nat)
    requires k < |cs| && |m.cells| == n + 1 + 2 * |cs| && 0 <= cs[k].src < n
    requires HasDestination(m, cs, n, k) && HasBus(m, cs[k].src) && HasBus(m, n + 1 + k)
    requires InItsClocks(domains, cs, n, k)
    ensures Consulted(m, BusDrivers(|m.cells|), domains, maxHops, cs[k], n + 1 + k)
  {
    TakesAndGated(m, domains, maxHops, cs[k], n + 1 + k, n + 1 + |cs| + k);
  }

  lemma TakesAndGated(m: Module, domains: map<int, string>, maxHops: nat, a: Crossing, g: nat, e: nat)
    requires 0 <= a.src < |m.cells| && g < |m.cells| && e < |m.cells| && FlopOf(m.cells[g]).Some?
    requires Conn(m.cells[a.src], "Q") == BusOf(a.src) && Conn(m.cells[g], "D") == BusOf(a.src)
    requires Conn(m.cells[g], "EN") == [Net(3 * e)]
    requires InDomain(domains, g, a.dstClock) && InDomain(domains, e, a.dstClock)
    ensures Consulted(m, BusDrivers(|m.cells|), domains, maxHops, a, g)
  {
    StraightBus(m, maxHops, a.src, g);
    GatedByFlop(m, domains, a.dstClock, g, e);
  }

  lemma GatedByFlop(m: Module, domains: map<int, string>, clock: string, g: nat, e: nat)
    requires g < |m.cells| && e < |m.cells| && Conn(m.cells[g], "EN") == [Net(3 * e)] && InDomain(domains, e, clock)
    ensures GatedByEnable(m, BusDrivers(|m.cells|), domains, clock, g)
  {
    OneNetSeq(3 * e);
    var en := [3 * e];
    forall i: nat ensures FlopBehind(m, BusDrivers(|m.cells|), en, FANIN_DEPTH, i) <==> i == e {
      BehindBus(m, e, en, i);
    }
    assert FlopBehind(m, BusDrivers(|m.cells|), NetSeq(Conn(m.cells[g], "EN")), FANIN_DEPTH, e);
  }

  lemma StraightBus(m: Module, maxHops: nat, s: nat, g: nat)
    requires s < |m.cells| && g < |m.cells|
    requires Conn(m.cells[s], "Q") == BusOf(s) && Conn(m.cells[g], "D") == BusOf(s)
    ensures TakesBus(m, maxHops, s, g)
  {
    BusNets(s);
    var e, seeds := DataEdges(m, true), Start(NetSeq(BusOf(s)));
    assert 3 * s in Ball(e, seeds, 0) && 3 * s + 1 in Ball(e, seeds, 0);
    BallGrows(e, seeds, 0, maxHops);
    assert Arrives(m, maxHops, s, g, 3 * s) && Arrives(m, maxHops, s, g, 3 * s + 1);
  }

  lemma FedBackHosts(m: Module, cs: seq<Crossing>, src: nat, n: nat, clock: string, maxHops: nat)
    requires IsFedBack(m, cs, src, n) && AreCrossings(cs) && (forall a :: a in cs ==> a.src < n)
    ensures Hosts(m, BusDrivers(|m.cells|), DomainsOf(cs, |cs|, n, clock), maxHops, cs)
    ensures InDomain(DomainsOf(cs, |cs|, n, clock), n, clock)
  {
    var domains := DomainsOf(cs, |cs|, n, clock);
    FedBackIsIndexed(m, cs, src, n);
    DomainsInRange(cs, |cs|, n, clock);
    forall a | a in cs
      ensures 0 <= a.src < |m.cells| && FlopOf(m.cells[a.src]).Some? && InDomain(domains, a.src, a.srcClock)
      ensures exists g: nat :: Consulted(m, BusDrivers(|m.cells|), domains, maxHops, a, g)
    {
      var k: nat :| k < |cs| && cs[k] == a;
      DomainsAre(cs, |cs|, n, clock, k);
      assert HasBus(m, a.src) && HasBus(m, n + 1 + k) && HasDestination(m, cs, n, k);
      FedBackConsulted(m, cs, n, domains, maxHops, k);
    }
  }

  ghost predicate OnlyBehind(fan: Edges, src: int, n: int) {
    forall g: int {:trigger Behind(fan, src, g)} :: Behind(fan, src, g) <==> g == n
  }

  ghost predicate Behind(fan: Edges, f: int, g: int) {
    (f, g) in fan
  }

  // With one flop behind the source, crossings have feedback exactly into its clock.
  lemma OnlyItsClock(fan: Edges, domains: map<int, string>, n: int, c: Crossing)
    requires OnlyBehind(fan, c.src, n) && n != c.src && n in domains && domains[n] != c.srcClock
    ensures HasFeedback(fan, domains, c, MAX_FLOP_HOPS) <==> domains[n] == c.dstClock
  {
    var hops := HopEdges(fan, domains, c.srcClock);
    assert c.src in Ball(hops, iset{c.src}, 0);
    BallGrows(hops, iset{c.src}, 0, MAX_FLOP_HOPS - 1);
    assert Behind(fan, c.src, n);
    if domains[n] == c.dstClock {
      assert FeedsBack(fan, domains, c, c.src, n);
    } else {
      forall g: int {:trigger Behind(hops, c.src, g)} ensures !Behind(hops, c.src, g) {
        assert Behind(fan, c.src, g) <==> g == n;
      }
      forall f, g {:trigger (f, g) in hops} ensures f == c.src ==> (f, g) !in hops {
        assert !Behind(hops, c.src, g);
      }
      ClosedSetBounds(hops, iset{c.src}, iset{c.src}, MAX_FLOP_HOPS - 1);
      forall f: int, g: int | f == c.src ensures !FeedsBack(fan, domains, c, f, g) {
        assert Behind(fan, f, g) <==> g == n;
      }
    }
  }

  // The crossing into the clock of flop n has feedback, one into another clock has not.
  lemma OnlyItsClockFeedsBack(m: Module, cs: seq<Crossing>, src: nat, n: nat, domains: map<int, string>,
                              a: Crossing, b: Crossing)
    requires IsFedBack(m, cs, src, n) && a.src == b.src == src && a.srcClock == b.srcClock != a.dstClock
    requires a.dstClock != b.dstClock && InDomain(domains, n, a.dstClock)
    ensures var fan := FaninEdges(m, BusDrivers(|m.cells|));
      HasFeedback(fan, domains, a, MAX_FLOP_HOPS) && !HasFeedback(fan, domains, b, MAX_FLOP_HOPS)
  {
    var fan := FaninEdges(m, BusDrivers(|m.cells|));
    forall g: int ensures Behind(fan, src, g) <==> g == n {
      FaninOfBus(m, src, n, g);
    }
    OnlyItsClock(fan, domains, n, a);
    OnlyItsClock(fan, domains, n, b);
  }

  lemma FirstOfTwo(a: Crossing, b: Crossing)
    requires a.src == b.src
    ensures First([a, b], a) == a && First([a, b], b) == a
  {
  }

  // Of two crossings from one flop the second gets the verdict of the first.
  method FirstVerdictWins(m: Module, drivers: map<int, Driver>, domains: map<int, string>, a: Crossing, b: Crossing)
    returns (cache: FaninCache, verdicts: seq<bool>)
    requires IsDriverIndex(m, drivers) && a.src == b.src
    requires ValidQuery(Query(FaninEdges(m, drivers), |m.cells|, domains, a))
    ensures fresh(cache) && cache.m == m && cache.fan == FaninEdges(m, drivers)
    ensures |verdicts| == 2 && verdicts[0] == verdicts[1]
    ensures verdicts[0] <==> HasFeedback(cache.fan, domains, a, MAX_FLOP_HOPS)
  {
    cache := new FaninCache(m, drivers);
    ghost var truth := TruthOf(cache.fan, domains);
    FirstOfTwo(a, b);
    verdicts := CachedVerdicts(cache, domains, [a, b], truth);
    assert a in truth <==> HasFeedback(cache.fan, domains, a, MAX_FLOP_HOPS);
  }

  // A bus of clock `here` is taken by gated flops of two other clocks, and a flop of the
  // one, `there`, drives the D pins of its source: the crossing into `there` has a
  // handshake and the one into the third clock has none, so the verdict it inherits is
  // wrong.
  lemma SharedVerdictCanBeWrong(src: nat, n: nat, here: string, there: string, third: string, maxHops: nat)
    returns (m: Module, drivers: map<int, Driver>, domains: map<int, string>)
    requires src < n && here != there && here != third && there != third
    ensures var a, b := Crossing(src, here, there), Crossing(src, here, third);
      var fan := FaninEdges(m, drivers);
      && Hosts(m, drivers, domains, maxHops, [a, b]) && InDomain(domains, n, there)
      && HasFeedback(fan, domains, a, MAX_FLOP_HOPS) && !HasFeedback(fan, domains, b, MAX_FLOP_HOPS)
  {
    var cs := [Crossing(src, here, there), Crossing(src, here, third)];
    m := FedBackExists(cs, src, n);
    drivers, domains := BusDrivers(|m.cells|), DomainsOf(cs, |cs|, n, there);
    FedBackHosts(m, cs, src, n, there, maxHops);
    OnlyItsClockFeedsBack(m, cs, src, n, domains, cs[0], cs[1]);
  }
}
