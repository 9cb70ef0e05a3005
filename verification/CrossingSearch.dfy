/**
 The crossing search: one forward walk per source (flop, typed port, block
 output), pruned for flop sources by the distances of `FanoutFilter`.
 */
module CrossingSearch {
  import opened Netlist
  import opened Graph
  import opened Fanout
  import opened FanoutFilter

  // --- endpoints --------------------------------------------------------

  ghost predicate IsDNet(fd: FlopDomain, t: int) {
    Net(t) in fd.flop.d
  }

  ghost function DNets(fd: FlopDomain): iset<int> {
    iset t | IsDNet(fd, t)
  }

  // D nets of the flops placed in `clock`.
  ghost function ClockSeeds(domains: seq<FlopDomain>, clock: string): iset<int> {
    iset t | InClock(domains, clock, t)
  }

  ghost predicate InClock(domains: seq<FlopDomain>, clock: string, t: int) {
    exists d :: 0 <= d < |domains| && domains[d].clock == Some(clock) && IsDNet(domains[d], t)
  }

  type FlopByD = map<int, seq<nat>>

  ghost predicate IsFlopByD(domains: seq<FlopDomain>, flopByD: FlopByD) {
    forall b: int, d: nat {:trigger d in Readers(flopByD, b)} ::
      d in Readers(flopByD, b) <==> d < |domains| && IsDNet(domains[d], b)
  }

  function Readers(flopByD: FlopByD, b: int): seq<nat> {
    if b in flopByD then flopByD[b] else []
  }

  method BuildFlopByD(domains: seq<FlopDomain>) returns (flopByD: FlopByD)
    ensures IsFlopByD(domains, flopByD)
  {
    flopByD := map[];
    for i := 0 to |domains|
      invariant forall b: int, d: nat {:trigger d in Readers(flopByD, b)} ::
        d in Readers(flopByD, b) <==> d < i && IsDNet(domains[d], b)
    {
      var bits := domains[i].flop.d;
      for k := 0 to |bits|
        invariant forall b: int, d: nat {:trigger d in Readers(flopByD, b)} ::
          d in Readers(flopByD, b) <==> (d < i && IsDNet(domains[d], b)) || (d == i && Net(b) in bits[..k])
      {
        ghost var was := flopByD;
        if bits[k].Net? {
          var b := bits[k].id;
          flopByD := flopByD[b := Readers(flopByD, b) + [i]];
          assert forall x: int :: Readers(flopByD, x) == if x == b then Readers(was, b) + [i] else Readers(was, x);
        }
        assert forall x: int :: Net(x) in bits[..k + 1] <==> Net(x) in bits[..k] || Net(x) == bits[k];
        forall b: int, d: nat {:trigger d in Readers(flopByD, b)}
          ensures d in Readers(flopByD, b) <==> (d < i && IsDNet(domains[d], b)) || (d == i && Net(b) in bits[..k + 1])
        {
          assert d in Readers(was, b) <==> (d < i && IsDNet(domains[d], b)) || (d == i && Net(b) in bits[..k]);
        }
      }
      assert bits[..|bits|] == bits;
    }
  }

  // --- the pruning filter -----------------------------------------------

  type DistTo = map<string, map<int, nat>>

  ghost predicate FilterExact(e: Edges, domains: seq<FlopDomain>, distTo: DistTo, maxHops: nat) {
    && (forall c :: c in distTo ==> DistancesExact(e, ClockSeeds(domains, c), distTo[c], maxHops))
    && (forall d :: 0 <= d < |domains| && domains[d].clock.Some? && DNets(domains[d]) != iset{} ==>
          domains[d].clock.value in distTo)
  }

  // Some flop in another clock is within the hops that are left.
  predicate Useful(distTo: DistTo, maxHops: nat, bit: int, hops: nat, srcClock: string) {
    exists c :: c in distTo && c != srcClock && bit in distTo[c] && distTo[c][bit] + hops <= maxHops
  }

  ghost predicate SeedStored(seeds: map<string, seq<int>>, c: string, t: int) {
    c in seeds && t in seeds[c]
  }

  ghost predicate SeedsUpTo(domains: seq<FlopDomain>, seeds: map<string, seq<int>>, n: nat)
    requires n <= |domains|
  {
    && (forall c, t :: SeedStored(seeds, c, t) <==> InClock(domains[..n], c, t))
    && (forall d :: 0 <= d < n && domains[d].clock.Some? && DNets(domains[d]) != iset{} ==>
          domains[d].clock.value in seeds)
  }

  method CollectSeeds(domains: seq<FlopDomain>) returns (seeds: map<string, seq<int>>)
    ensures SeedsUpTo(domains, seeds, |domains|)
  {
    seeds := map[];
    for i := 0 to |domains|
      invariant SeedsUpTo(domains, seeds, i)
    {
      var nets := NetSeq(domains[i].flop.d);
      ghost var was := seeds;
      if domains[i].clock.Some? {
        var c := domains[i].clock.value;
        seeds := seeds[c := (if c in seeds then seeds[c] else []) + nets];
      }
      forall c, t ensures SeedStored(seeds, c, t) <==> InClock(domains[..i + 1], c, t) {
        InClockStep(domains, i, c, t);
        assert t in nets <==> IsDNet(domains[i], t);
        assert SeedStored(seeds, c, t) <==>
          SeedStored(was, c, t) || (domains[i].clock == Some(c) && IsDNet(domains[i], t));
      }
    }
    assert domains[..|domains|] == domains;
  }

  lemma InClockStep(domains: seq<FlopDomain>, i: nat, c: string, t: int)
    requires i < |domains|
    ensures InClock(domains[..i + 1], c, t) <==>
            InClock(domains[..i], c, t) || (domains[i].clock == Some(c) && IsDNet(domains[i], t))
  {
    var more := domains[..i + 1];
    if InClock(domains[..i], c, t) {
      var d :| 0 <= d < i && domains[..i][d].clock == Some(c) && IsDNet(domains[..i][d], t);
      assert more[d] == domains[..i][d];
    }
    if InClock(more, c, t) {
      var d :| 0 <= d < |more| && more[d].clock == Some(c) && IsDNet(more[d], t);
      assert d < i ==> domains[..i][d] == more[d];
    }
    assert more[i] == domains[i];
  }

  method MakeFanoutFilter(m: Module, domains: seq<FlopDomain>, maxHops: nat) returns (distTo: DistTo)
    requires ValidModule(m)
    ensures FilterExact(DataEdges(m, true), domains, distTo, maxHops)
  {
    ghost var e := DataEdges(m, true);
    var lists, rev := BuildReverse(m);
    var seeds := CollectSeeds(domains);
    distTo := map[];
    var todo := seeds.Keys;
    while todo != {}
      invariant todo <= seeds.Keys
      invariant distTo.Keys == seeds.Keys - todo
      invariant forall c :: c in distTo ==> DistancesExact(e, ClockSeeds(domains, c), distTo[c], maxHops)
      decreases |todo|
    {
      var c :| c in todo;
      var dist := SearchBack(e, lists, rev, seeds[c], maxHops);
      assert domains[..|domains|] == domains;
      forall t ensures t in SeedSet(seeds[c]) <==> t in ClockSeeds(domains, c) {
        assert SeedStored(seeds, c, t) <==> InClock(domains, c, t);
      }
      assert SeedSet(seeds[c]) == ClockSeeds(domains, c);
      distTo := distTo[c := dist];
      todo := todo - {c};
    }
  }

  // --- one forward walk -------------------------------------------------

  datatype Group = Group(minHops: nat, bits: set<int>)

  datatype Prune = Unpruned | Pruned(distTo: DistTo, srcClock: string)

  predicate Worthwhile(prune: Prune, maxHops: nat, bit: int, hops: nat) {
    prune.Pruned? ==> Useful(prune.distTo, maxHops, bit, hops, prune.srcClock)
  }

  // A sink counts for a source when its clock is known and is not the source's,
  // and it is not the source flop itself.
  predicate Foreign(fd: FlopDomain, srcClock: Option<string>, self: Option<string>) {
    && fd.clock.Some?
    && (srcClock.Some? ==> fd.clock.value != srcClock.value)
    && (self.Some? ==> fd.flop.name != self.value)
  }

  // What one walk must find: every foreign sink with a D net within `maxHops`
  // cells, the nets reached, and the shortest distance to any of them.
  ghost predicate HitsExact(e: Edges, seeds: iset<int>, domains: seq<FlopDomain>, srcClock: Option<string>,
                            self: Option<string>, maxHops: nat, hits: map<nat, Group>) {
    && (forall d: nat :: d in hits <==>
          && d < |domains| && Foreign(domains[d], srcClock, self)
          && exists t :: IsDNet(domains[d], t) && t in Ball(e, seeds, maxHops))
    && (forall d: nat :: d in hits && d < |domains| ==> GroupExact(e, seeds, domains[d], maxHops, hits[d]))
  }

  ghost predicate GroupExact(e: Edges, seeds: iset<int>, fd: FlopDomain, maxHops: nat, g: Group) {
    && (forall t :: t in g.bits <==> IsDNet(fd, t) && t in Ball(e, seeds, maxHops))
    && (exists t :: t in g.bits && DistanceIs(e, seeds, t, g.minHops))
    && (forall t :: t in g.bits && g.minHops > 0 ==> t !in Ball(e, seeds, g.minHops - 1))
  }

  // Hits recorded once the nets in `done` have been visited.
  ghost predicate HitsFor(domains: seq<FlopDomain>, srcClock: Option<string>, self: Option<string>,
                          seen: map<int, nat>, done: iset<int>, hits: map<nat, Group>) {
    && (forall t :: t in done ==> t in seen)
    && (forall d: nat :: d in hits <==>
          d < |domains| && Foreign(domains[d], srcClock, self) && exists t :: IsDNet(domains[d], t) && t in done)
    && (forall d: nat :: d in hits && d < |domains| ==> GroupFor(domains[d], seen, done, hits[d]))
  }

  ghost predicate GroupFor(fd: FlopDomain, seen: map<int, nat>, done: iset<int>, g: Group)
    requires forall t :: t in done ==> t in seen
  {
    && (forall t :: t in g.bits <==> IsDNet(fd, t) && t in done)
    && (exists t :: t in g.bits && t in done && seen[t] == g.minHops)
    && (forall t :: t in g.bits && t in done ==> g.minHops <= seen[t])
  }

  function Merge(hits: map<nat, Group>, d: nat, bit: int, hops: nat): map<nat, Group> {
    if d !in hits then hits[d := Group(hops, {bit})]
    else hits[d := Group(if hops < hits[d].minHops then hops else hits[d].minHops, hits[d].bits + {bit})]
  }

  // The readers of `bit` handled so far have it in their groups, the other flops are as before.
  ghost predicate HitsMid(domains: seq<FlopDomain>, srcClock: Option<string>, self: Option<string>,
                          seen: map<int, nat>, more: iset<int>, handled: seq<nat>, hits: map<nat, Group>,
                          hits': map<nat, Group>)
    requires forall t :: t in more ==> t in seen
  {
    && (forall d: nat :: d !in handled ==> (d in hits' <==> d in hits) && (d in hits ==> hits'[d] == hits[d]))
    && (forall d: nat :: d in handled ==> d < |domains| && (d in hits' <==> Foreign(domains[d], srcClock, self)))
    && (forall d: nat :: d in handled && d in hits' && d < |domains| ==> GroupFor(domains[d], seen, more, hits'[d]))
  }

  // Record every foreign sink whose D pin is on `bit`.
  method RecordHits(domains: seq<FlopDomain>, flopByD: FlopByD, srcClock: Option<string>, self: Option<string>,
                    ghost seen: map<int, nat>, ghost done: iset<int>, bit: int, hops: nat, hits: map<nat, Group>)
    returns (hits': map<nat, Group>)
    requires IsFlopByD(domains, flopByD)
    requires bit in seen && seen[bit] == hops
    requires HitsFor(domains, srcClock, self, seen, done, hits)
    ensures HitsFor(domains, srcClock, self, seen, done + iset{bit}, hits')
  {
    hits' := hits;
    var readers := Readers(flopByD, bit);
    for i := 0 to |readers|
      invariant HitsMid(domains, srcClock, self, seen, done + iset{bit}, readers[..i], hits, hits')
    {
      var d := readers[i];
      assert d in readers && d < |domains|;
      assert readers[..i + 1] == readers[..i] + [d];
      if Foreign(domains[d], srcClock, self) {
        MergeStep(domains, srcClock, self, seen, done, bit, hops, hits, d, hits', d in readers[..i]);
        hits' := Merge(hits', d, bit, hops);
      }
    }
    assert readers[..|readers|] == readers;
    MidIsDone(domains, flopByD, srcClock, self, seen, done, bit, hits, hits');
  }

  lemma MidIsDone(domains: seq<FlopDomain>, flopByD: FlopByD, srcClock: Option<string>, self: Option<string>,
                  seen: map<int, nat>, done: iset<int>, bit: int, hits: map<nat, Group>, hits': map<nat, Group>)
    requires IsFlopByD(domains, flopByD) && bit in seen
    requires HitsFor(domains, srcClock, self, seen, done, hits)
    requires HitsMid(domains, srcClock, self, seen, done + iset{bit}, Readers(flopByD, bit), hits, hits')
    ensures HitsFor(domains, srcClock, self, seen, done + iset{bit}, hits')
  {
    forall d: nat | d in hits' && d < |domains| ensures GroupFor(domains[d], seen, done + iset{bit}, hits'[d]) {
      if d !in Readers(flopByD, bit) {
        assert GroupFor(domains[d], seen, done, hits[d]);
      }
    }
  }

  lemma MergeStep(domains: seq<FlopDomain>, srcClock: Option<string>, self: Option<string>,
                  seen: map<int, nat>, done: iset<int>, bit: int, hops: nat, hits: map<nat, Group>,
                  d: nat, hits': map<nat, Group>, again: bool)
    requires bit in seen && seen[bit] == hops && d < |domains| && IsDNet(domains[d], bit)
    requires Foreign(domains[d], srcClock, self)
    requires HitsFor(domains, srcClock, self, seen, done, hits)
    requires if again then d in hits' && GroupFor(domains[d], seen, done + iset{bit}, hits'[d])
             else (d in hits' <==> d in hits) && (d in hits ==> hits'[d] == hits[d])
    ensures GroupFor(domains[d], seen, done + iset{bit}, Merge(hits', d, bit, hops)[d])
  {
    var more := done + iset{bit};
    var g := Merge(hits', d, bit, hops)[d];
    if again {
      assert g.bits == hits'[d].bits;
    } else if d in hits {
      assert GroupFor(domains[d], seen, done, hits[d]);
      var t :| t in hits[d].bits && t in done && seen[t] == hits[d].minHops;
      if hops < hits[d].minHops {
        assert bit in g.bits && bit in more && seen[bit] == g.minHops;
      } else {
        assert t in g.bits && t in more && seen[t] == g.minHops;
      }
    } else {
      assert bit in g.bits && bit in more && seen[bit] == g.minHops;
      forall t ensures t in g.bits <==> IsDNet(domains[d], t) && t in more {
      }
    }
  }

  // --- the walk ---------------------------------------------------------

  // Nets whose pin has been visited: those first seen before `level`.
  ghost function Visited(seen: map<int, nat>, level: nat): iset<int> {
    iset b: int | b in seen && seen[b] < level
  }

  ghost predicate SeenSound(e: Edges, seeds: iset<int>, seen: map<int, nat>, level: nat) {
    forall b :: b in seen ==> seen[b] <= level && b in Ball(e, seeds, seen[b])
  }

  // `b` was expanded: everything it feeds was seen at most one cell later.
  ghost predicate Followed(e: Edges, seen: map<int, nat>, b: int)
    requires b in seen
  {
    forall c :: (b, c) in e ==> c in seen && seen[c] <= seen[b] + 1
  }

  type Keep = iset<(int, nat)>

  // The (net, hops) pairs the pruning test lets through.
  ghost function KeepSet(prune: Prune, maxHops: nat): Keep {
    iset p: (int, nat) | Worthwhile(prune, maxHops, p.0, p.1)
  }

  ghost predicate Closed(e: Edges, keep: Keep, maxHops: nat, seen: map<int, nat>, level: nat) {
    forall b {:trigger Followed(e, seen, b)} ::
      b in seen && seen[b] < level && seen[b] < maxHops && (b, seen[b]) in keep ==> Followed(e, seen, b)
  }

  ghost predicate FrontierIs(seen: map<int, nat>, frontier: seq<(int, nat)>, level: nat) {
    && (forall i :: 0 <= i < |frontier| ==>
          frontier[i].1 == level && frontier[i].0 in seen && seen[frontier[i].0] == level)
    && (forall b :: b in seen && seen[b] == level ==> (b, level) in frontier)
  }

  ghost predicate WalkState(e: Edges, seeds: iset<int>, domains: seq<FlopDomain>, srcClock: Option<string>,
                            self: Option<string>, keep: Keep, maxHops: nat, seen: map<int, nat>,
                            hits: map<nat, Group>, frontier: seq<(int, nat)>, level: nat) {
    && SeenSound(e, seeds, seen, level)
    && (forall b :: b in seeds ==> b in seen && seen[b] == 0)
    && Closed(e, keep, maxHops, seen, level)
    && FrontierIs(seen, frontier, level)
    && HitsFor(domains, srcClock, self, seen, Visited(seen, level), hits)
  }

  // Enter every target not seen before (or only deeper) at `hops`.
  method Push(targets: seq<int>, seen: map<int, nat>, nxt: seq<(int, nat)>, hops: nat)
    returns (seen': map<int, nat>, nxt': seq<(int, nat)>)
    requires forall b :: b in seen ==> seen[b] <= hops
    requires FrontierIs(seen, nxt, hops)
    ensures forall b :: b in seen ==> b in seen' && seen'[b] == seen[b]
    ensures forall b :: b in seen' && b !in seen ==> b in targets && seen'[b] == hops
    ensures forall b :: b in targets ==> b in seen'
    ensures FrontierIs(seen', nxt', hops)
  {
    seen', nxt' := seen, nxt;
    for k := 0 to |targets|
      invariant forall b :: b in seen ==> b in seen' && seen'[b] == seen[b]
      invariant forall b :: b in seen' && b !in seen ==> b in targets && seen'[b] == hops
      invariant forall b :: b in targets[..k] ==> b in seen'
      invariant FrontierIs(seen', nxt', hops)
    {
      var ob := targets[k];
      if ob !in seen' || hops < seen'[ob] {
        ghost var was := nxt';
        seen' := seen'[ob := hops];
        nxt' := nxt' + [(ob, hops)];
        assert forall x :: x in was ==> x in nxt';
      }
    }
  }

  // Hits recorded so far stay correct while new nets are only seen, not visited.
  lemma HitsSurviveSeen(domains: seq<FlopDomain>, srcClock: Option<string>, self: Option<string>,
                        seen: map<int, nat>, seen': map<int, nat>, done: iset<int>, hits: map<nat, Group>)
    requires HitsFor(domains, srcClock, self, seen, done, hits)
    requires forall b :: b in seen ==> b in seen' && seen'[b] == seen[b]
    ensures HitsFor(domains, srcClock, self, seen', done, hits)
  {
    forall d: nat | d in hits && d < |domains| ensures GroupFor(domains[d], seen', done, hits[d]) {
      assert GroupFor(domains[d], seen, done, hits[d]);
    }
  }

  ghost predicate InFrontier(frontier: seq<(int, nat)>, i: nat, b: int) {
    exists j :: 0 <= j < i && j < |frontier| && frontier[j].0 == b
  }

  // Nets visited once the first `i` entries of the level have been handled.
  ghost function DoneAt(seen: map<int, nat>, level: nat, frontier: seq<(int, nat)>, i: nat): iset<int> {
    iset b: int | b in Visited(seen, level) || InFrontier(frontier, i, b)
  }

  // Half-way through a level: `was` is the seen map the level started from.
  ghost predicate MidLevel(e: Edges, seeds: iset<int>, keep: Keep, maxHops: nat, was: map<int, nat>,
                           frontier: seq<(int, nat)>, level: nat, i: nat,
                           seen: map<int, nat>, nxt: seq<(int, nat)>) {
    && SeenSound(e, seeds, seen, level + 1)
    && (forall b :: b in was ==> b in seen && seen[b] == was[b])
    && (forall b :: b in seen && b !in was ==> seen[b] == level + 1)
    && FrontierIs(seen, nxt, level + 1)
    && (level >= maxHops ==> nxt == [])
    && (forall b :: InFrontier(frontier, i, b) && level < maxHops && (b, level) in keep ==>
          b in seen && Followed(e, seen, b))
  }

  // Entry `i` of the frontier is a net first seen at this level.
  ghost predicate EntryAt(was: map<int, nat>, frontier: seq<(int, nat)>, level: nat, i: nat) {
    i < |frontier| && frontier[i].1 == level && frontier[i].0 in was && was[frontier[i].0] == level
  }

  // What expanding net `bit` at `hops` does to the seen map and the next frontier.
  ghost predicate Advance(e: Edges, keep: Keep, maxHops: nat, bit: int, hops: nat, seen: map<int, nat>,
                          nxt: seq<(int, nat)>, seen': map<int, nat>, nxt': seq<(int, nat)>) {
    && (forall b :: b in seen ==> b in seen' && seen'[b] == seen[b])
    && if hops < maxHops && (bit, hops) in keep
       then
         && (forall b :: b in seen' && b !in seen ==> (bit, b) in e && seen'[b] == hops + 1)
         && (forall b :: (bit, b) in e ==> b in seen')
         && FrontierIs(seen', nxt', hops + 1)
       else seen' == seen && nxt' == nxt
  }

  // Push one frontier entry through the cells that read it, unless it is pruned.
  method ExpandBit(m: Module, consumers: Consumers, prune: Prune, lanes: bool, maxHops: nat, bit: int, hops: nat,
                   seen: map<int, nat>, nxt: seq<(int, nat)>)
    returns (seen': map<int, nat>, nxt': seq<(int, nat)>)
    requires IsConsumerIndex(m, consumers)
    requires forall b :: b in seen ==> seen[b] <= hops + 1
    requires FrontierIs(seen, nxt, hops + 1)
    ensures Advance(DataEdges(m, lanes), KeepSet(prune, maxHops), maxHops, bit, hops, seen, nxt, seen', nxt')
  {
    seen', nxt' := seen, nxt;
    if hops < maxHops && Worthwhile(prune, maxHops, bit, hops) {
      var targets := FanoutOf(m, consumers, bit, lanes);
      seen', nxt' := Push(targets, seen, nxt, hops + 1);
    }
  }

  lemma MidAdvances(e: Edges, seeds: iset<int>, keep: Keep, maxHops: nat, was: map<int, nat>,
                    frontier: seq<(int, nat)>, level: nat, i: nat, seen: map<int, nat>, nxt: seq<(int, nat)>,
                    seen': map<int, nat>, nxt': seq<(int, nat)>)
    requires EntryAt(was, frontier, level, i)
    requires MidLevel(e, seeds, keep, maxHops, was, frontier, level, i, seen, nxt)
    requires Advance(e, keep, maxHops, frontier[i].0, level, seen, nxt, seen', nxt')
    ensures MidLevel(e, seeds, keep, maxHops, was, frontier, level, i + 1, seen', nxt')
  {
    if level < maxHops && (frontier[i].0, level) in keep {
      Pushed(e, seeds, keep, maxHops, was, frontier, level, i, seen, nxt, seen', nxt');
    } else {
      NotPushed(e, seeds, keep, maxHops, was, frontier, level, i, seen, nxt);
    }
  }

  lemma Pushed(e: Edges, seeds: iset<int>, keep: Keep, maxHops: nat, was: map<int, nat>, frontier: seq<(int, nat)>,
               level: nat, i: nat, seen: map<int, nat>, nxt: seq<(int, nat)>,
               seen': map<int, nat>, nxt': seq<(int, nat)>)
    requires EntryAt(was, frontier, level, i) && level < maxHops
    requires MidLevel(e, seeds, keep, maxHops, was, frontier, level, i, seen, nxt)
    requires (frontier[i].0, level) in keep
    requires Advance(e, keep, maxHops, frontier[i].0, level, seen, nxt, seen', nxt')
    ensures MidLevel(e, seeds, keep, maxHops, was, frontier, level, i + 1, seen', nxt')
  {
    var bit := frontier[i].0;
    assert bit in seen && seen[bit] == level;
    PushedSound(e, seeds, seen, seen', level, bit);
    PushedFollowed(e, seen, seen', level, bit);
    forall b | InFrontier(frontier, i + 1, b) && (b, level) in keep ensures b in seen' && Followed(e, seen', b) {
      InFrontierStep(frontier, i, b);
      if b != bit {
        FollowedKept(e, seen, seen', b);
      }
    }
  }

  lemma PushedSound(e: Edges, seeds: iset<int>, seen: map<int, nat>, seen': map<int, nat>, level: nat, bit: int)
    requires SeenSound(e, seeds, seen, level + 1) && bit in seen && seen[bit] == level
    requires forall b :: b in seen ==> b in seen' && seen'[b] == seen[b]
    requires forall b :: b in seen' && b !in seen ==> (bit, b) in e && seen'[b] == level + 1
    ensures SeenSound(e, seeds, seen', level + 1)
  {
    forall b | b in seen' && b !in seen ensures b in Ball(e, seeds, level + 1) {
      BallStep(e, seeds, level, bit, b);
    }
  }

  lemma PushedFollowed(e: Edges, seen: map<int, nat>, seen': map<int, nat>, level: nat, bit: int)
    requires bit in seen && seen[bit] == level
    requires forall b :: b in seen ==> b in seen' && seen'[b] == seen[b]
    requires forall b :: b in seen' ==> seen'[b] <= level + 1
    requires forall b :: (bit, b) in e ==> b in seen'
    ensures bit in seen' && Followed(e, seen', bit)
  {
  }

  lemma NotPushed(e: Edges, seeds: iset<int>, keep: Keep, maxHops: nat, was: map<int, nat>,
                  frontier: seq<(int, nat)>, level: nat, i: nat, seen: map<int, nat>, nxt: seq<(int, nat)>)
    requires i < |frontier| && (level >= maxHops || (frontier[i].0, level) !in keep)
    requires MidLevel(e, seeds, keep, maxHops, was, frontier, level, i, seen, nxt)
    ensures MidLevel(e, seeds, keep, maxHops, was, frontier, level, i + 1, seen, nxt)
  {
    forall b | InFrontier(frontier, i + 1, b) && level < maxHops && (b, level) in keep
      ensures b in seen && Followed(e, seen, b)
    {
      InFrontierStep(frontier, i, b);
    }
  }

  lemma InFrontierStep(frontier: seq<(int, nat)>, i: nat, b: int)
    requires i < |frontier|
    ensures InFrontier(frontier, i + 1, b) <==> InFrontier(frontier, i, b) || b == frontier[i].0
  {
    if InFrontier(frontier, i, b) {
      var j :| 0 <= j < i && j < |frontier| && frontier[j].0 == b;
      assert j < i + 1;
    }
  }

  method VisitBit(m: Module, consumers: Consumers, flopByD: FlopByD, domains: seq<FlopDomain>,
                  ghost seeds: iset<int>, srcClock: Option<string>, self: Option<string>, prune: Prune,
                  lanes: bool, maxHops: nat, ghost was: map<int, nat>, frontier: seq<(int, nat)>, ghost level: nat,
                  i: nat, seen: map<int, nat>, hits: map<nat, Group>, nxt: seq<(int, nat)>)
    returns (seen': map<int, nat>, hits': map<nat, Group>, nxt': seq<(int, nat)>)
    requires IsConsumerIndex(m, consumers) && IsFlopByD(domains, flopByD)
    requires FrontierIs(was, frontier, level) && i < |frontier|
    requires MidLevel(DataEdges(m, lanes), seeds, KeepSet(prune, maxHops), maxHops, was, frontier, level, i, seen, nxt)
    requires HitsFor(domains, srcClock, self, seen, DoneAt(was, level, frontier, i), hits)
    ensures MidLevel(DataEdges(m, lanes), seeds, KeepSet(prune, maxHops), maxHops, was, frontier, level, i + 1, seen',
        nxt')
    ensures HitsFor(domains, srcClock, self, seen', DoneAt(was, level, frontier, i + 1), hits')
  {
    assert EntryAt(was, frontier, level, i);
    seen', nxt' := ExpandBit(m, consumers, prune, lanes, maxHops, frontier[i].0, frontier[i].1, seen, nxt);
    MidAdvances(DataEdges(m, lanes), seeds, KeepSet(prune, maxHops), maxHops, was, frontier, level, i,
                seen, nxt, seen', nxt');
    hits' := RecordHits(domains, flopByD, srcClock, self, seen, DoneAt(was, level, frontier, i),
                        frontier[i].0, frontier[i].1, hits);
    DoneStep(was, level, frontier, i);
    HitsSurviveSeen(domains, srcClock, self, seen, seen', DoneAt(was, level, frontier, i + 1), hits');
  }

  lemma FollowedKept(e: Edges, seen: map<int, nat>, seen': map<int, nat>, b: int)
    requires b in seen && Followed(e, seen, b)
    requires forall x :: x in seen ==> x in seen' && seen'[x] == seen[x]
    ensures b in seen' && Followed(e, seen', b)
  {
  }

  lemma DoneStep(was: map<int, nat>, level: nat, frontier: seq<(int, nat)>, i: nat)
    requires i < |frontier|
    ensures DoneAt(was, level, frontier, i + 1) == DoneAt(was, level, frontier, i) + iset{frontier[i].0}
  {
    forall b ensures InFrontier(frontier, i + 1, b) <==> InFrontier(frontier, i, b) || b == frontier[i].0 {
      InFrontierStep(frontier, i, b);
    }
  }

  method VisitLevel(m: Module, consumers: Consumers, flopByD: FlopByD, domains: seq<FlopDomain>,
                    ghost seeds: iset<int>, srcClock: Option<string>, self: Option<string>, prune: Prune,
                    lanes: bool, maxHops: nat, frontier: seq<(int, nat)>, seen: map<int, nat>,
                    hits: map<nat, Group>, ghost level: nat)
    returns (seen': map<int, nat>, hits': map<nat, Group>, nxt: seq<(int, nat)>)
    requires IsConsumerIndex(m, consumers) && IsFlopByD(domains, flopByD)
    requires WalkState(DataEdges(m, lanes), seeds, domains, srcClock, self, KeepSet(prune, maxHops), maxHops, seen,
        hits, frontier, level)
    ensures WalkState(DataEdges(m, lanes), seeds, domains, srcClock, self, KeepSet(prune, maxHops), maxHops, seen',
        hits', nxt, level + 1)
    ensures level >= maxHops ==> nxt == []
  {
    ghost var e := DataEdges(m, lanes);
    seen', hits', nxt := seen, hits, [];
    assert DoneAt(seen, level, frontier, 0) == Visited(seen, level);
    for i := 0 to |frontier|
      invariant MidLevel(e, seeds, KeepSet(prune, maxHops), maxHops, seen, frontier, level, i, seen', nxt)
      invariant HitsFor(domains, srcClock, self, seen', DoneAt(seen, level, frontier, i), hits')
    {
      seen', hits', nxt := VisitBit(m, consumers, flopByD, domains, seeds, srcClock, self, prune, lanes, maxHops,
                                    seen, frontier, level, i, seen', hits', nxt);
    }
    LevelDone(e, seeds, KeepSet(prune, maxHops), maxHops, seen, frontier, level, seen', nxt);
  }

  lemma LevelDone(e: Edges, seeds: iset<int>, keep: Keep, maxHops: nat, was: map<int, nat>,
                  frontier: seq<(int, nat)>, level: nat, seen: map<int, nat>, nxt: seq<(int, nat)>)
    requires FrontierIs(was, frontier, level)
    requires SeenSound(e, seeds, was, level) && Closed(e, keep, maxHops, was, level)
    requires MidLevel(e, seeds, keep, maxHops, was, frontier, level, |frontier|, seen, nxt)
    ensures DoneAt(was, level, frontier, |frontier|) == Visited(seen, level + 1)
    ensures Closed(e, keep, maxHops, seen, level + 1)
  {
    forall b ensures b in DoneAt(was, level, frontier, |frontier|) <==> b in Visited(seen, level + 1) {
      if b in was && was[b] == level {
        assert (b, level) in frontier;
        assert InFrontier(frontier, |frontier|, b);
      }
    }
    forall b | b in seen && seen[b] < level + 1 && seen[b] < maxHops && (b, seen[b]) in keep
      ensures Followed(e, seen, b)
    {
      if was[b] < level {
        assert Followed(e, was, b);
      }
    }
  }

  // (net, hops) pairs from which a target can still be reached in time.
  ghost function Live(e: Edges, targets: iset<int>, maxHops: nat): Keep {
    iset p: (int, nat) | p.1 <= maxHops && p.0 in Ball(Reverse(e), targets, maxHops - p.1)
  }

  // Closed under one step back, and under arriving earlier.
  ghost predicate ClosedBackward(e: Edges, live: Keep) {
    forall a, b, h: nat {:trigger (a, b) in e, (b, h) in live} ::
      (a, b) in e && (b, h) in live && h > 0 ==> (a, h - 1) in live
  }

  ghost predicate ClosedEarlier(live: Keep) {
    forall b, h: nat, k: nat {:trigger (b, h) in live, (b, k) in live} ::
      (b, h) in live && k <= h ==> (b, k) in live
  }

  lemma LiveStepsBack(e: Edges, targets: iset<int>, maxHops: nat, a: int, b: int, h: nat)
    requires (a, b) in e && 0 < h <= maxHops && b in Ball(Reverse(e), targets, maxHops - h)
    ensures a in Ball(Reverse(e), targets, maxHops - (h - 1))
  {
    assert (b, a) in Reverse(e);
    BallStep(Reverse(e), targets, maxHops - h, b, a);
  }

  lemma LiveClosedBackward(e: Edges, targets: iset<int>, maxHops: nat)
    ensures ClosedBackward(e, Live(e, targets, maxHops))
  {
    var live := Live(e, targets, maxHops);
    forall a, b, h: nat | (a, b) in e && (b, h) in live && h > 0 ensures (a, h - 1) in live {
      LiveStepsBack(e, targets, maxHops, a, b, h);
    }
  }

  lemma LiveClosedEarlier(e: Edges, targets: iset<int>, maxHops: nat)
    ensures ClosedEarlier(Live(e, targets, maxHops))
  {
    var live := Live(e, targets, maxHops);
    forall b, h: nat, k: nat | (b, h) in live && k <= h ensures (b, k) in live {
      BallGrows(Reverse(e), targets, maxHops - h, maxHops - k);
    }
  }

  lemma WithinDistance(e: Edges, seeds: iset<int>, dist: map<int, nat>, upto: nat, n: nat, a: int)
    requires DistancesExact(e, seeds, dist, upto) && n <= upto && a in Ball(Reverse(e), seeds, n)
    ensures a in dist && dist[a] <= n
  {
  }

  // The distance filter lets through every net that can still reach a foreign clock.
  lemma ExactFilterKeeps(e: Edges, domains: seq<FlopDomain>, prune: Prune, maxHops: nat, clock: string)
    requires prune.Pruned? ==> clock != prune.srcClock && FilterExact(e, domains, prune.distTo, maxHops)
    ensures Live(e, ClockSeeds(domains, clock), maxHops) <= KeepSet(prune, maxHops)
  {
    forall a: int, k: nat | k <= maxHops && a in Ball(Reverse(e), ClockSeeds(domains, clock), maxHops - k)
      ensures Worthwhile(prune, maxHops, a, k)
    {
      if prune.Pruned? {
        SeedsNonEmpty(e, domains, clock, maxHops - k, a);
        WithinDistance(e, ClockSeeds(domains, clock), prune.distTo[clock], maxHops, maxHops - k, a);
      }
    }
  }

  // Nothing a pruned walk must still find is cut off.
  lemma {:induction false} WalkComplete(e: Edges, seeds: iset<int>, keep: Keep, live: Keep, maxHops: nat,
                                        seen: map<int, nat>, h: nat, b: int)
    requires forall x :: x in seeds ==> x in seen && seen[x] == 0
    requires Closed(e, keep, maxHops, seen, maxHops + 1)
    requires ClosedBackward(e, live) && ClosedEarlier(live) && live <= keep
    requires h <= maxHops && b in Ball(e, seeds, h) && (b, h) in live
    ensures b in seen && seen[b] <= h
    decreases h
  {
    if h > 0 {
      if b in Ball(e, seeds, h - 1) {
        assert (b, h - 1) in live;
        WalkComplete(e, seeds, keep, live, maxHops, seen, h - 1, b);
      } else {
        var a := LastStep(e, seeds, b, h);
        assert (a, h - 1) in live;
        WalkComplete(e, seeds, keep, live, maxHops, seen, h - 1, a);
        assert (a, seen[a]) in live;
        assert Followed(e, seen, a);
      }
    }
  }

  // A net within reach of a clock's D pins shows that the clock has one.
  lemma SeedsNonEmpty(e: Edges, domains: seq<FlopDomain>, clock: string, n: nat, b: int)
    requires b in Ball(Reverse(e), ClockSeeds(domains, clock), n)
    ensures exists d :: 0 <= d < |domains| && domains[d].clock == Some(clock) && DNets(domains[d]) != iset{}
  {
    var t := BallHasSeed(Reverse(e), ClockSeeds(domains, clock), n, b);
    var d :| 0 <= d < |domains| && domains[d].clock == Some(clock) && IsDNet(domains[d], t);
    assert t in DNets(domains[d]);
  }

  method Walk(m: Module, consumers: Consumers, flopByD: FlopByD, domains: seq<FlopDomain>, seeds: seq<int>,
              srcClock: Option<string>, self: Option<string>, prune: Prune, lanes: bool, maxHops: nat)
    returns (hits: map<nat, Group>)
    requires IsConsumerIndex(m, consumers) && IsFlopByD(domains, flopByD)
    requires PruneOk(DataEdges(m, lanes), domains, srcClock, prune, maxHops)
    ensures HitsExact(DataEdges(m, lanes), SeedSet(seeds), domains, srcClock, self, maxHops, hits)
  {
    ghost var e := DataEdges(m, lanes);
    var seen := map b | b in seeds :: 0;
    var frontier := seq(|seeds|, i requires 0 <= i < |seeds| => (seeds[i], 0));
    hits := map[];
    ghost var level := 0;
    assert FrontierIs(seen, frontier, 0) by {
      forall b | b in seen && seen[b] == 0 ensures (b, 0) in frontier {
        var i :| 0 <= i < |seeds| && seeds[i] == b;
        assert frontier[i] == (b, 0);
      }
    }
    while frontier != []
      invariant level <= maxHops + 1
      invariant WalkState(e, SeedSet(seeds), domains, srcClock, self, KeepSet(prune, maxHops), maxHops, seen, hits,
          frontier, level)
      invariant level == maxHops + 1 ==> frontier == []
      decreases maxHops + 1 - level
    {
      seen, hits, frontier := VisitLevel(m, consumers, flopByD, domains, SeedSet(seeds), srcClock, self, prune, lanes,
                                         maxHops, frontier, seen, hits, level);
      level := level + 1;
    }
    WalkExact(e, SeedSet(seeds), domains, srcClock, self, prune, maxHops, seen, hits, level);
  }

  ghost predicate PruneOk(e: Edges, domains: seq<FlopDomain>, srcClock: Option<string>, prune: Prune, maxHops: nat) {
    prune.Pruned? ==> srcClock == Some(prune.srcClock) && FilterExact(e, domains, prune.distTo, maxHops)
  }

  // A D net of a foreign sink is seen at its true distance.
  lemma SinkSeen(e: Edges, seeds: iset<int>, domains: seq<FlopDomain>, srcClock: Option<string>,
                 self: Option<string>, prune: Prune, maxHops: nat, seen: map<int, nat>, d: nat, t: int, n: nat)
    requires forall x :: x in seeds ==> x in seen && seen[x] == 0
    requires Closed(e, KeepSet(prune, maxHops), maxHops, seen, maxHops + 1)
    requires PruneOk(e, domains, srcClock, prune, maxHops)
    requires d < |domains| && Foreign(domains[d], srcClock, self) && IsDNet(domains[d], t)
    requires n <= maxHops && t in Ball(e, seeds, n)
    ensures t in seen && seen[t] <= n
  {
    var clock := domains[d].clock.value;
    assert t in ClockSeeds(domains, clock);
    BallGrows(Reverse(e), ClockSeeds(domains, clock), 0, maxHops - n);
    ExactFilterKeeps(e, domains, prune, maxHops, clock);
    LiveClosedBackward(e, ClockSeeds(domains, clock), maxHops);
    LiveClosedEarlier(e, ClockSeeds(domains, clock), maxHops);
    WalkComplete(e, seeds, KeepSet(prune, maxHops), Live(e, ClockSeeds(domains, clock), maxHops), maxHops, seen, n, t);
  }

  lemma WalkExact(e: Edges, seeds: iset<int>, domains: seq<FlopDomain>, srcClock: Option<string>,
                  self: Option<string>, prune: Prune, maxHops: nat, seen: map<int, nat>,
                  hits: map<nat, Group>, level: nat)
    requires WalkState(e, seeds, domains, srcClock, self, KeepSet(prune, maxHops), maxHops, seen, hits, [], level)
    requires level <= maxHops + 1
    requires PruneOk(e, domains, srcClock, prune, maxHops)
    ensures HitsExact(e, seeds, domains, srcClock, self, maxHops, hits)
  {
    assert forall b :: b in seen ==> seen[b] < level;
    assert Closed(e, KeepSet(prune, maxHops), maxHops, seen, maxHops + 1);
    forall d: nat, t | d < |domains| && Foreign(domains[d], srcClock, self) && IsDNet(domains[d], t)
      ensures t in Visited(seen, level) <==> t in Ball(e, seeds, maxHops)
    {
      if t in Visited(seen, level) {
        BallGrows(e, seeds, seen[t], maxHops);
      }
      if t in Ball(e, seeds, maxHops) {
        SinkSeen(e, seeds, domains, srcClock, self, prune, maxHops, seen, d, t, maxHops);
      }
    }
    forall d: nat | d in hits && d < |domains| ensures GroupExact(e, seeds, domains[d], maxHops, hits[d]) {
      assert GroupFor(domains[d], seen, Visited(seen, level), hits[d]);
      GroupIsExact(e, seeds, domains, srcClock, self, prune, maxHops, seen, Visited(seen, level), d, hits[d]);
    }
  }

  lemma GroupIsExact(e: Edges, seeds: iset<int>, domains: seq<FlopDomain>, srcClock: Option<string>,
                     self: Option<string>, prune: Prune, maxHops: nat, seen: map<int, nat>,
                     done: iset<int>, d: nat, g: Group)
    requires forall x :: x in seeds ==> x in seen && seen[x] == 0
    requires Closed(e, KeepSet(prune, maxHops), maxHops, seen, maxHops + 1)
    requires PruneOk(e, domains, srcClock, prune, maxHops)
    requires d < |domains| && Foreign(domains[d], srcClock, self)
    requires forall t :: t in done ==> t in seen && t in Ball(e, seeds, seen[t])
    requires GroupFor(domains[d], seen, done, g)
    requires forall t :: IsDNet(domains[d], t) ==> (t in done <==> t in Ball(e, seeds, maxHops))
    ensures GroupExact(e, seeds, domains[d], maxHops, g)
  {
    forall t, n: nat | IsDNet(domains[d], t) && t in done && n < seen[t] && n <= maxHops
      ensures t !in Ball(e, seeds, n)
    {
      if t in Ball(e, seeds, n) {
        SinkSeen(e, seeds, domains, srcClock, self, prune, maxHops, seen, d, t, n);
      }
    }
    forall t | t in g.bits && g.minHops > 0 ensures t !in Ball(e, seeds, g.minHops - 1) {
      if t in Ball(e, seeds, g.minHops - 1) && maxHops < g.minHops - 1 {
        SinkSeen(e, seeds, domains, srcClock, self, prune, maxHops, seen, d, t, maxHops);
      }
    }
    var t :| t in g.bits && t in done && seen[t] == g.minHops;
    assert DistanceIs(e, seeds, t, g.minHops);
  }
}
