/**
 A synchroniser written as one multi-bit register that shifts into itself.
 The recogniser's depth is the register's real latency.
 */
module PackedRegister {
  import opened Netlist
  import opened Drivers
  import opened SyncChain

  // --- shape ------------------------------------------------------------

  ghost predicate DistinctNets(q: seq<Bit>) {
    (forall b :: b in q ==> b.Net?) && forall i, j :: 0 <= i < j < |q| ==> q[i] != q[j]
  }

  // Lane i takes the old value of lane j.
  predicate Shifts(q: seq<Bit>, d: seq<Bit>, j: nat, i: nat) {
    j < |q| && i < |d| && d[i] == q[j]
  }

  // One freshly sampled lane, every other lane fed by a register bit of its own.
  ghost predicate ShiftShape(q: seq<Bit>, d: seq<Bit>, ext: nat) {
    && |q| == |d| >= 2
    && DistinctNets(q) && (forall b :: b in d ==> b.Net?)
    && ext < |d| && (forall i :: 0 <= i < |d| ==> (d[i] !in q <==> i == ext))
    && (forall i, j :: 0 <= i < j < |d| && d[i] in q ==> d[i] != d[j])
  }

  predicate ReadOnce(counts: map<int, nat>, bit: Bit) {
    bit.Net? && CountOf(counts, bit.id) == 1
  }

  // The lanes the walk goes through, and why it stops.
  ghost predicate ShiftWalk(q: seq<Bit>, d: seq<Bit>, counts: map<int, nat>, ext: nat, lanes: seq<nat>) {
    && WalkPrefix(q, d, counts, ext, lanes)
    && (ReadOnce(counts, q[lanes[|lanes| - 1]]) ==> q[lanes[|lanes| - 1]] !in d)
  }

  ghost predicate WalkPrefix(q: seq<Bit>, d: seq<Bit>, counts: map<int, nat>, ext: nat, lanes: seq<nat>) {
    && lanes != [] && lanes[0] == ext && |q| == |d|
    && (forall k :: 0 <= k < |lanes| ==> lanes[k] < |q|)
    && (forall k :: 0 <= k < |lanes| - 1 ==>
          ReadOnce(counts, q[lanes[k]]) && Shifts(q, d, lanes[k], lanes[k + 1]))
  }

  // The successor map is injective and never returns to the sampled lane.
  lemma {:induction false} LanesDistinct(q: seq<Bit>, d: seq<Bit>, counts: map<int, nat>, ext: nat, lanes: seq<nat>,
                                         j: nat, i: nat)
    requires ShiftShape(q, d, ext) && WalkPrefix(q, d, counts, ext, lanes)
    requires i < j < |lanes|
    ensures lanes[i] != lanes[j]
    decreases i
  {
    assert Shifts(q, d, lanes[j - 1], lanes[j - 1 + 1]);
    if i > 0 {
      LanesDistinct(q, d, counts, ext, lanes, j - 1, i - 1);
      assert Shifts(q, d, lanes[i - 1], lanes[i - 1 + 1]);
    }
  }

  // Distinct lanes of an n-lane register number at most n.
  lemma {:induction false} DistinctBelow(xs: seq<nat>, n: nat)
    requires forall i, j :: 0 <= i < j < |xs| ==> xs[i] != xs[j]
    requires forall i :: 0 <= i < |xs| ==> xs[i] < n
    ensures |xs| <= n
    decreases n
  {
    if xs != [] {
      assert xs[0] < n;
      if exists i :: 0 <= i < |xs| && xs[i] == n - 1 {
        var i :| 0 <= i < |xs| && xs[i] == n - 1;
        DistinctBelow(xs[..i] + xs[i + 1..], n - 1);
      } else {
        DistinctBelow(xs, n - 1);
      }
    }
  }

  // --- the recogniser ---------------------------------------------------

  // The vector tested lane for lane: D itself, or the data leg of its reset mux.
  function ShiftVector(w: Walk, head: nat): seq<Bit>
    requires ValidWalk(w) && head < |w.m.cells|
  {
    match ResetMuxDataBits(w.m, D(w.m, head), w.drivers, w.counts)
    case None => D(w.m, head)
    case Some(leg) => leg
  }

  // The mux behind the first D net that the register's D may be read through.
  ghost predicate BehindResetMux(w: Walk, head: nat, v: seq<Bit>)
    requires ValidWalk(w) && head < |w.m.cells|
  {
    var d := D(w.m, head);
    && d != [] && d[0].Net? && d[0].id in w.drivers && w.drivers[d[0].id].port == "Y"
    && var mux := w.drivers[d[0].id].cell;
       IsResetMux(w.m, w.counts, mux, d, "A", "B", v) || IsResetMux(w.m, w.counts, mux, d, "B", "A", v)
  }

  // What the register takes in at an edge outside reset.
  ghost predicate TakesIn(w: Walk, head: nat, v: seq<Bit>)
    requires ValidWalk(w) && head < |w.m.cells|
  {
    BehindResetMux(w, head, v) || (v == D(w.m, head) && forall x :: !BehindResetMux(w, head, x))
  }

  lemma ShiftVectorIff(w: Walk, head: nat, v: seq<Bit>)
    requires ValidWalk(w) && head < |w.m.cells|
    ensures ShiftVector(w, head) == v <==> TakesIn(w, head, v)
  {
    forall x
      ensures ResetMuxDataBits(w.m, D(w.m, head), w.drivers, w.counts) == Some(x) <==> BehindResetMux(w, head, x)
    {
      ResetMuxIff(w.m, D(w.m, head), w.drivers, w.counts, x);
    }
  }

  // `m` gives the lane of each of the first `upto` Q bits.
  ghost predicate IsLaneIndex(m: map<int, nat>, q: seq<Bit>, upto: nat)
    requires upto <= |q|
  {
    && (forall b :: b in m ==> m[b] < upto && q[m[b]] == Net(b))
    && (forall j :: 0 <= j < upto ==> q[j].Net? && q[j].id in m && m[q[j].id] == j)
  }

  // `None` when a Q bit repeats or is a constant.
  method LaneIndex(q: seq<Bit>) returns (index: Option<map<int, nat>>)
    ensures index.Some? <==> DistinctNets(q)
    ensures index.Some? ==> IsLaneIndex(index.value, q, |q|)
  {
    var m: map<int, nat> := map[];
    for i := 0 to |q|
      invariant DistinctNets(q[..i])
      invariant IsLaneIndex(m, q, i)
    {
      if q[i].Const? {
        assert q[i] in q;
        return None;
      }
      if q[i].id in m {
        assert q[m[q[i].id]] == q[i];
        return None;
      }
      m := m[q[i].id := i];
      assert q[..i + 1] == q[..i] + [q[i]];
    }
    assert q[..|q|] == q;
    return Some(m);
  }

  datatype Taps = Taps(succ: map<nat, nat>, external: seq<nat>)

  // Successor lanes and external lanes among the first `upto` D bits.
  ghost predicate AreTaps(taps: Taps, q: seq<Bit>, d: seq<Bit>, upto: nat)
    requires upto <= |d|
  {
    && (forall j :: j in taps.succ ==> taps.succ[j] < upto && Shifts(q, d, j, taps.succ[j]))
    && (forall i, j: nat :: 0 <= i < upto && Shifts(q, d, j, i) ==> j in taps.succ && taps.succ[j] == i)
    && (forall i :: i in taps.external ==> i < upto && d[i] !in q)
    && (forall i: nat :: i < upto && d[i] !in q ==> i in taps.external)
    && Simple(taps.external)
  }

  // No Q bit feeds two of the first `upto` lanes.
  ghost predicate TapsInjective(q: seq<Bit>, d: seq<Bit>, upto: nat)
    requires upto <= |d|
  {
    forall i, j :: 0 <= i < j < upto && d[i] in q ==> d[i] != d[j]
  }

  method CollectTaps(q: seq<Bit>, d: seq<Bit>, index: map<int, nat>) returns (taps: Option<Taps>)
    requires |q| == |d| && DistinctNets(q) && IsLaneIndex(index, q, |q|)
    requires forall b :: b in d ==> b.Net?
    ensures taps.Some? <==> TapsInjective(q, d, |d|)
    ensures taps.Some? ==> AreTaps(taps.value, q, d, |d|)
  {
    var t := Taps(map[], []);
    for i := 0 to |d|
      invariant TapsInjective(q, d, i)
      invariant AreTaps(t, q, d, i)
    {
      assert d[i] in d;
      var b := d[i].id;
      if b !in index {
        assert d[i] !in q;
        t := t.(external := t.external + [i]);
      } else {
        var j := index[b];
        assert q[j] == d[i];
        if j in t.succ {
          assert Shifts(q, d, j, t.succ[j]);
          return None;
        }
        forall h | 0 <= h < i && d[h] in q ensures d[h] != d[i] {
          if d[h] == d[i] {
            assert Shifts(q, d, j, h);
          }
        }
        assert forall h: nat :: Shifts(q, d, h, i) ==> h == j;
        t := t.(succ := t.succ[j := i]);
      }
    }
    return Some(t);
  }

  // Follow the successor lanes from the sampled one while each is read once.
  method FollowLanes(q: seq<Bit>, d: seq<Bit>, counts: map<int, nat>, taps: Taps)
    returns (n: nat, ghost lanes: seq<nat>)
    requires |taps.external| == 1 && |q| == |d| && ShiftShape(q, d, taps.external[0]) && AreTaps(taps, q, d, |d|)
    ensures ShiftWalk(q, d, counts, taps.external[0], lanes) && n == |lanes|
  {
    var cur := taps.external[0];
    n := 1;
    lanes := [cur];
    var visited := {cur};
    while true
      invariant cur < |q| && n == |lanes| >= 1 && lanes[|lanes| - 1] == cur
      invariant WalkPrefix(q, d, counts, taps.external[0], lanes)
      invariant forall x :: x in visited <==> x in lanes
      decreases |q| - n
    {
      if !ReadOnce(counts, q[cur]) || cur !in taps.succ {
        break;
      }
      var nxt := taps.succ[cur];
      assert Shifts(q, d, cur, nxt);
      GuardNeverFires(q, d, counts, taps.external[0], lanes, nxt);
      if nxt in visited {
        break;
      }
      PrefixExtends(q, d, counts, taps.external[0], lanes, nxt);
      n := n + 1;
      visited := visited + {nxt};
      cur := nxt;
      lanes := lanes + [nxt];
    }
    if ReadOnce(counts, q[cur]) && q[cur] in d {
      var i :| 0 <= i < |d| && d[i] == q[cur];
      assert Shifts(q, d, cur, i);
    }
  }

  lemma PrefixExtends(q: seq<Bit>, d: seq<Bit>, counts: map<int, nat>, ext: nat, lanes: seq<nat>, nxt: nat)
    requires WalkPrefix(q, d, counts, ext, lanes)
    requires ReadOnce(counts, q[lanes[|lanes| - 1]]) && Shifts(q, d, lanes[|lanes| - 1], nxt)
    ensures WalkPrefix(q, d, counts, ext, lanes + [nxt])
  {
    var more := lanes + [nxt];
    forall k | 0 <= k < |more| - 1 ensures ReadOnce(counts, q[more[k]]) && Shifts(q, d, more[k], more[k + 1]) {
      assert more[k] == lanes[k];
      assert k < |lanes| - 1 ==> more[k + 1] == lanes[k + 1];
    }
  }

  // The depth of a packed synchroniser: the length of the lane walk, when it has two lanes or more.
  ghost predicate Packed(w: Walk, head: nat, ext: nat, lanes: seq<nat>)
    requires ValidWalk(w) && head < |w.m.cells|
  {
    var q, d := Q(w.m, head), ShiftVector(w, head);
    |D(w.m, head)| == |q| && ShiftShape(q, d, ext) && ShiftWalk(q, d, w.counts, ext, lanes) && |lanes| >= 2
  }

  method PackedDepth(w: Walk, head: nat) returns (depth: Option<nat>)
    requires ValidWalk(w) && head < |w.m.cells|
    ensures depth.Some? ==> exists ext, lanes :: Packed(w, head, ext, lanes) && depth.value == |lanes|
    ensures depth.None? ==> forall ext, lanes :: !Packed(w, head, ext, lanes)
  {
    var q, d := Q(w.m, head), ShiftVector(w, head);
    depth := None;
    if |q| < 2 || |D(w.m, head)| != |q| {
      return;
    }
    var index := LaneIndex(q);
    if index.None? || exists b :: b in d && b.Const? {
      return;
    }
    var taps := CollectTaps(q, d, index.value);
    if taps.None? {
      return;
    }
    if |taps.value.external| != 1 {
      forall ext | ShiftShape(q, d, ext) ensures false {
        ShapeHasOneExternal(taps.value, q, d, ext);
      }
      return;
    }
    OneExternal(taps.value, q, d);
    ghost var ext := taps.value.external[0];
    var n, lanes := FollowLanes(q, d, w.counts, taps.value);
    if n >= 2 {
      assert Packed(w, head, ext, lanes);
      return Some(n);
    }
    forall e: nat, ls: seq<nat> | Packed(w, head, e, ls) ensures false {
      assert e == ext by {
        assert d[e] !in q && d[ext] !in q;
      }
      WalksAgree(q, d, w.counts, ext, lanes, ls, 1);
    }
  }

  lemma SimpleConstant(xs: seq<nat>, x: nat)
    requires Simple(xs) && forall i :: 0 <= i < |xs| ==> xs[i] == x
    ensures |xs| <= 1
  {
    DistinctBelow(Marked(xs, x), 1);
  }

  // An injective recoding that sends `x` to 0.
  function Marked(xs: seq<nat>, x: nat): (r: seq<nat>)
    ensures |r| == |xs| && forall i :: 0 <= i < |xs| ==> r[i] == if xs[i] == x then 0 else 1 + xs[i]
  {
    seq(|xs|, i requires 0 <= i < |xs| => if xs[i] == x then 0 else 1 + xs[i])
  }

  lemma ShapeHasOneExternal(taps: Taps, q: seq<Bit>, d: seq<Bit>, ext: nat)
    requires |q| == |d| && ShiftShape(q, d, ext) && AreTaps(taps, q, d, |d|)
    ensures |taps.external| == 1
  {
    var e := taps.external;
    assert ext in e;
    forall i | 0 <= i < |e| ensures e[i] == ext {
      assert e[i] in e;
    }
    SimpleConstant(e, ext);
  }

  // Any two complete walks of one register have the same lanes, so the depth is well defined.
  lemma {:induction false} WalksAgree(q: seq<Bit>, d: seq<Bit>, counts: map<int, nat>, ext: nat,
                                      a: seq<nat>, b: seq<nat>, k: nat)
    requires ShiftShape(q, d, ext) && ShiftWalk(q, d, counts, ext, a) && ShiftWalk(q, d, counts, ext, b)
    requires k < |b|
    ensures k < |a| && a[k] == b[k]
    decreases k
  {
    if k > 0 {
      WalksAgree(q, d, counts, ext, a, b, k - 1);
      assert Shifts(q, d, b[k - 1], b[k - 1 + 1]);
      assert ReadOnce(counts, q[b[k - 1]]);
      assert q[b[k - 1]] in d;
      if k < |a| {
        assert Shifts(q, d, a[k - 1], a[k - 1 + 1]);
      }
    }
  }

  lemma OneExternal(taps: Taps, q: seq<Bit>, d: seq<Bit>)
    requires |q| == |d| >= 2 && DistinctNets(q) && (forall b :: b in d ==> b.Net?)
    requires TapsInjective(q, d, |d|) && AreTaps(taps, q, d, |d|) && |taps.external| == 1
    ensures ShiftShape(q, d, taps.external[0])
  {
    assert taps.external[0] in taps.external;
    assert forall i :: i in taps.external ==> i == taps.external[0];
  }

  // The next lane is always new, so the walk ends by itself, within the width.
  lemma GuardNeverFires(q: seq<Bit>, d: seq<Bit>, counts: map<int, nat>, ext: nat, lanes: seq<nat>, nxt: nat)
    requires ShiftShape(q, d, ext) && WalkPrefix(q, d, counts, ext, lanes)
    requires ReadOnce(counts, q[lanes[|lanes| - 1]]) && Shifts(q, d, lanes[|lanes| - 1], nxt)
    ensures nxt !in lanes && |lanes| < |q|
  {
    var more := lanes + [nxt];
    PrefixExtends(q, d, counts, ext, lanes, nxt);
    forall i, j | 0 <= i < j < |more| ensures more[i] != more[j] {
      LanesDistinct(q, d, counts, ext, more, j, i);
    }
    DistinctBelow(more, |q|);
    forall i | 0 <= i < |lanes| ensures lanes[i] != nxt {
      assert more[i] != more[|more| - 1];
    }
  }

  // Any reported depth lies between 2 and the width.
  lemma DepthInRange(w: Walk, head: nat, ext: nat, lanes: seq<nat>)
    requires ValidWalk(w) && head < |w.m.cells| && Packed(w, head, ext, lanes)
    ensures 2 <= |lanes| <= |Q(w.m, head)|
  {
    var q, d := Q(w.m, head), ShiftVector(w, head);
    forall i, j | 0 <= i < j < |lanes| ensures lanes[i] != lanes[j] {
      LanesDistinct(q, d, w.counts, ext, lanes, j, i);
    }
    DistinctBelow(lanes, |q|);
  }

  // --- what the depth means ---------------------------------------------

  // One clock edge with reset inactive: lane i takes its tap's old value, the
  // sampled lane takes the external bit.
  function Edge(q: seq<Bit>, d: seq<Bit>, state: seq<bool>, x: bool): (next: seq<bool>)
    requires |q| == |d| == |state|
    ensures |next| == |state|
  {
    seq(|d|, i requires 0 <= i < |d| => LaneInput(q, d[i], state, x))
  }

  function LaneInput(q: seq<Bit>, bit: Bit, state: seq<bool>, x: bool): bool
    requires |q| == |state|
  {
    if q == [] then x else if q[0] == bit then state[0] else LaneInput(q[1..], bit, state[1..], x)
  }

  // The register after the samples in `xs`, oldest first.
  function After(q: seq<Bit>, d: seq<Bit>, state: seq<bool>, xs: seq<bool>): (s: seq<bool>)
    requires |q| == |d| == |state|
    ensures |s| == |state|
    decreases |xs|
  {
    if xs == [] then state else Edge(q, d, After(q, d, state, xs[..|xs| - 1]), xs[|xs| - 1])
  }

  lemma {:induction false} LaneInputIs(q: seq<Bit>, bit: Bit, state: seq<bool>, x: bool, j: nat)
    requires |q| == |state| && forall a, b :: 0 <= a < b < |q| ==> q[a] != q[b]
    ensures j < |q| && q[j] == bit ==> LaneInput(q, bit, state, x) == state[j]
    ensures bit !in q ==> LaneInput(q, bit, state, x) == x
  {
    if q != [] {
      if q[0] == bit {
        assert bit in q;
        assert j < |q| && q[j] == bit ==> j == 0;
      } else {
        LaneInputIs(q[1..], bit, state[1..], x, if j > 0 then j - 1 else 0);
      }
    }
  }

  // Lane k of the walk holds the bit sampled k + 1 edges earlier.
  lemma {:induction false} LaneHoldsSample(q: seq<Bit>, d: seq<Bit>, counts: map<int, nat>, ext: nat, lanes: seq<nat>,
                                           state: seq<bool>, xs: seq<bool>, k: nat)
    requires ShiftShape(q, d, ext) && WalkPrefix(q, d, counts, ext, lanes)
    requires |state| == |q| && k < |lanes| && k < |xs|
    ensures After(q, d, state, xs)[lanes[k]] == xs[|xs| - 1 - k]
    decreases k
  {
    var init, x := xs[..|xs| - 1], xs[|xs| - 1];
    var was := After(q, d, state, init);
    assert After(q, d, state, xs)[lanes[k]] == LaneInput(q, d[lanes[k]], was, x);
    if k == 0 {
      LaneInputIs(q, d[ext], was, x, 0);
    } else {
      assert Shifts(q, d, lanes[k - 1], lanes[k - 1 + 1]);
      LaneInputIs(q, d[lanes[k]], was, x, lanes[k - 1]);
      LaneHoldsSample(q, d, counts, ext, lanes, state, init, k - 1);
    }
  }

  // Hence the last stage shows each sample exactly `depth` edges after it was taken.
  lemma DepthIsLatency(q: seq<Bit>, d: seq<Bit>, counts: map<int, nat>, ext: nat, lanes: seq<nat>,
                       state: seq<bool>, xs: seq<bool>)
    requires ShiftShape(q, d, ext) && ShiftWalk(q, d, counts, ext, lanes)
    requires |state| == |q| && |xs| >= |lanes|
    ensures After(q, d, state, xs)[lanes[|lanes| - 1]] == xs[|xs| - |lanes|]
  {
    LaneHoldsSample(q, d, counts, ext, lanes, state, xs, |lanes| - 1);
  }

  // The textbook shape walks through every lane in order.
  lemma CanonicalShift(q: seq<Bit>, d: seq<Bit>, counts: map<int, nat>, x: Bit) returns (lanes: seq<nat>)
    requires |q| >= 2 && DistinctNets(q) && x.Net? && x !in q && d == [x] + q[..|q| - 1]
    requires forall i :: 0 <= i < |q| - 1 ==> ReadOnce(counts, q[i])
    ensures ShiftShape(q, d, 0) && ShiftWalk(q, d, counts, 0, lanes) && |lanes| == |q|
  {
    lanes := seq(|q|, i requires 0 <= i < |q| => i);
    assert forall i :: 1 <= i < |d| ==> d[i] == q[i - 1];
    assert ShiftShape(q, d, 0);
    forall k | 0 <= k < |lanes| - 1 ensures ReadOnce(counts, q[lanes[k]]) && Shifts(q, d, lanes[k], lanes[k + 1]) {
      assert d[k + 1] == q[k];
    }
    assert q[|q| - 1] !in d;
  }

  // The textbook form `q <= {q[N-2:0], d}` with taps read once has depth N, with its D
  // written so directly or on either data pin of a reset mux.
  lemma CanonicalDepth(w: Walk, head: nat, x: Bit) returns (lanes: seq<nat>)
    requires ValidWalk(w) && head < |w.m.cells|
    requires var q := Q(w.m, head);
             && |q| >= 2 && DistinctNets(q) && x.Net? && x !in q
             && |D(w.m, head)| == |q| && TakesIn(w, head, [x] + q[..|q| - 1])
             && forall i :: 0 <= i < |q| - 1 ==> ReadOnce(w.counts, q[i])
    ensures Packed(w, head, 0, lanes) && |lanes| == |Q(w.m, head)|
  {
    ShiftVectorIff(w, head, [x] + Q(w.m, head)[..|Q(w.m, head)| - 1]);
    lanes := CanonicalShift(Q(w.m, head), ShiftVector(w, head), w.counts, x);
  }

  // No lane before the last is tapped: all that reads it is the register's own D, or the
  // reset mux in front of it, which only the register reads.
  lemma OnlyShiftReads(w: Walk, head: nat, ext: nat, lanes: seq<nat>, k: nat, x: nat)
    requires ValidWalk(w) && head < |w.m.cells| && Packed(w, head, ext, lanes) && k + 1 < |lanes|
    requires ReadsNet(w.m, x, Q(w.m, head)[lanes[k]].id)
    ensures x == head ||
            (BehindResetMux(w, head, ShiftVector(w, head)) && x == w.drivers[D(w.m, head)[0].id].cell &&
             forall y, b :: b in D(w.m, head) && b.Net? && ReadsNet(w.m, y, b.id) ==> y == head)
  {
    var d, b := ShiftVector(w, head), Q(w.m, head)[lanes[k]].id;
    assert Shifts(Q(w.m, head), d, lanes[k], lanes[k + 1]) && ReadOnce(w.counts, Q(w.m, head)[lanes[k]]);
    assert Net(b) in d && CountOf(w.counts, b) == 1;
    if ResetMuxDataBits(w.m, D(w.m, head), w.drivers, w.counts).None? {
      OnlyReader(w, b, head, "D", x);
    } else {
      ShiftVectorIff(w, head, d);
      ResetMuxIff(w.m, D(w.m, head), w.drivers, w.counts, d);
      var mux := w.drivers[D(w.m, head)[0].id].cell;
      OnlyReader(w, b, mux, if Conn(w.m.cells[mux], "A") == d then "A" else "B", x);
      forall y, c | c in D(w.m, head) && c.Net? && ReadsNet(w.m, y, c.id) ensures y == head {
        OnlyReader(w, c.id, head, "D", y);
      }
    }
  }

  // --- the depth every rule asks for ------------------------------------

  // Chain depth: the packed depth for a recognised multi-bit head, else the number of stages.
  method SyncChainDepth(w: Walk, head: nat) returns (depth: nat)
    requires ValidWalk(w) && head < |w.m.cells|
    ensures (|Q(w.m, head)| == 1 && |D(w.m, head)| == 1) || (forall ext, lanes :: !Packed(w, head, ext, lanes)) ==>
              depth == |ChainFrom(w, head, {head})|
    ensures forall ext, lanes :: Packed(w, head, ext, lanes) ==>
              ChainFrom(w, head, {head}) == [head] && exists e, ls :: Packed(w, head, e, ls) && depth == |ls|
  {
    depth := 1;
    var current := head;
    var visited := {head};
    while true
      invariant current < |w.m.cells| && current in visited && depth >= 1
      invariant depth - 1 + |ChainFrom(w, current, visited)| == |ChainFrom(w, head, {head})|
      invariant depth == 1 ==> current == head && visited == {head}
      invariant depth > 1 ==> |Q(w.m, head)| == 1
      decreases Cells(w.m) - visited
    {
      if |Q(w.m, current)| != 1 || |D(w.m, current)| != 1 {
        if depth == 1 {
          var packed := PackedDepth(w, current);
          if packed.Some? {
            return packed.value;
          }
        }
        break;
      }
      var nxt := Next(w, current, visited);
      if nxt.None? {
        break;
      }
      assert nxt.value in Cells(w.m) - visited;
      ChainStep(w, [], current, visited);
      depth := depth + 1;
      visited := visited + {nxt.value};
      current := nxt.value;
    }
  }
}
