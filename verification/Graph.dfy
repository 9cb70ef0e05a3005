/**
 Bounded reachability over net-to-net edges.

 Every search in the analyzer is a level-by-level walk.  `Ball` is the
 reference notion they are all compared with: the nets within `n` edges of a
 seed set.  `BallIsPaths` ties it to explicit paths.
 */
module Graph {

  type Edges = iset<(int, int)>

  // Nets one edge away from `s`.
  ghost function Image(e: Edges, s: iset<int>): iset<int> {
    iset c: int | InImage(e, s, c)
  }

  ghost predicate InImage(e: Edges, s: iset<int>, c: int) {
    exists b :: b in s && (b, c) in e
  }

  // Nets at most `n` edges away from a seed.
  ghost function Ball(e: Edges, seeds: iset<int>, n: nat): iset<int> {
    if n == 0 then seeds else Ball(e, seeds, n - 1) + Image(e, Ball(e, seeds, n - 1))
  }

  ghost function Reverse(e: Edges): Edges {
    iset p: (int, int) | (p.1, p.0) in e
  }

  // `t` is reachable, and `n` is the length of a shortest path to it.
  ghost predicate DistanceIs(e: Edges, seeds: iset<int>, t: int, n: nat) {
    t in Ball(e, seeds, n) && (n > 0 ==> t !in Ball(e, seeds, n - 1))
  }

  lemma {:induction false} BallGrows(e: Edges, seeds: iset<int>, m: nat, n: nat)
    requires m <= n
    ensures Ball(e, seeds, m) <= Ball(e, seeds, n)
    decreases n
  {
    if m < n {
      BallGrows(e, seeds, m, n - 1);
    }
  }

  lemma BallStep(e: Edges, seeds: iset<int>, n: nat, b: int, c: int)
    requires b in Ball(e, seeds, n) && (b, c) in e
    ensures c in Ball(e, seeds, n + 1)
  {
  }

  lemma LastStep(e: Edges, seeds: iset<int>, t: int, n: nat) returns (b: int)
    requires n > 0 && t in Ball(e, seeds, n) && t !in Ball(e, seeds, n - 1)
    ensures b in Ball(e, seeds, n - 1) && (b, t) in e
  {
    b :| b in Ball(e, seeds, n - 1) && (b, t) in e;
  }

  lemma {:induction false} BallMonotone(e: Edges, f: Edges, s: iset<int>, t: iset<int>, n: nat)
    requires e <= f && s <= t
    ensures Ball(e, s, n) <= Ball(f, t, n)
  {
    if n > 0 {
      BallMonotone(e, f, s, t, n - 1);
    }
  }

  // A non-empty ball has a seed.
  lemma {:induction false} BallHasSeed(e: Edges, seeds: iset<int>, n: nat, b: int) returns (t: int)
    requires b in Ball(e, seeds, n)
    ensures t in seeds
    decreases n
  {
    if n == 0 || b in seeds {
      t := b;
    } else if b in Ball(e, seeds, n - 1) {
      t := BallHasSeed(e, seeds, n - 1, b);
    } else {
      var a := LastStep(e, seeds, b, n);
      t := BallHasSeed(e, seeds, n - 1, a);
    }
  }

  // A set closed under the edges bounds every ball that starts inside it.
  lemma {:induction false} ClosedSetBounds(e: Edges, seeds: iset<int>, bound: iset<int>, n: nat)
    requires seeds <= bound
    requires forall a, t :: a in bound && (a, t) in e ==> t in bound
    ensures Ball(e, seeds, n) <= bound
  {
    if n > 0 {
      ClosedSetBounds(e, seeds, bound, n - 1);
    }
  }

  // Every edge from a net known before the bound leads to a net known one level later.
  ghost predicate EdgeClosed(e: Edges, disc: map<int, nat>, maxDepth: nat) {
    forall a, b {:trigger (a, b) in e} ::
      (a, b) in e && a in disc && disc[a] < maxDepth ==> b in disc && disc[b] <= disc[a] + 1
  }

  // Levels that start at the seeds and are closed under the edges bound every distance.
  lemma {:induction false} BallIsSeen(e: Edges, seeds: iset<int>, maxDepth: nat, disc: map<int, nat>, n: nat, b: int)
    requires forall x :: x in seeds ==> x in disc && disc[x] == 0
    requires EdgeClosed(e, disc, maxDepth)
    requires n <= maxDepth && b in Ball(e, seeds, n)
    ensures b in disc && disc[b] <= n
    decreases n
  {
    if n > 0 {
      if b in Ball(e, seeds, n - 1) {
        BallIsSeen(e, seeds, maxDepth, disc, n - 1, b);
      } else {
        var a := LastStep(e, seeds, b, n);
        BallIsSeen(e, seeds, maxDepth, disc, n - 1, a);
      }
    }
  }

  // --- explicit paths ---------------------------------------------------

  ghost predicate IsPath(e: Edges, p: seq<int>) {
    |p| > 0 && forall i :: 0 <= i < |p| - 1 ==> (p[i], p[i + 1]) in e
  }

  ghost predicate PathBetween(e: Edges, seeds: iset<int>, t: int, n: nat, p: seq<int>) {
    IsPath(e, p) && p[0] in seeds && p[|p| - 1] == t && |p| - 1 <= n
  }

  lemma PathPrefix(e: Edges, p: seq<int>)
    requires IsPath(e, p) && |p| > 1
    ensures IsPath(e, p[..|p| - 1])
  {
    var q := p[..|p| - 1];
    forall i | 0 <= i < |q| - 1 ensures (q[i], q[i + 1]) in e {
      assert (p[i], p[i + 1]) in e;
    }
  }

  lemma {:induction false} BallHasPath(e: Edges, seeds: iset<int>, t: int, n: nat) returns (p: seq<int>)
    requires t in Ball(e, seeds, n)
    ensures PathBetween(e, seeds, t, n, p)
    decreases n
  {
    if n == 0 {
      p := [t];
    } else if t in Ball(e, seeds, n - 1) {
      p := BallHasPath(e, seeds, t, n - 1);
    } else {
      var b :| b in Ball(e, seeds, n - 1) && (b, t) in e;
      var q := BallHasPath(e, seeds, b, n - 1);
      p := q + [t];
    }
  }

  lemma {:induction false} PathInBall(e: Edges, seeds: iset<int>, p: seq<int>)
    requires IsPath(e, p) && p[0] in seeds
    ensures p[|p| - 1] in Ball(e, seeds, |p| - 1)
    decreases |p|
  {
    if |p| > 1 {
      var q := p[..|p| - 1];
      PathPrefix(e, p);
      PathInBall(e, seeds, q);
      assert (p[|p| - 2], p[|p| - 1]) in e;
      BallStep(e, seeds, |p| - 2, p[|p| - 2], p[|p| - 1]);
    }
  }

  // The layered walk and the path reading agree, for every bound.
  lemma BallIsPaths(e: Edges, seeds: iset<int>, t: int, n: nat)
    ensures t in Ball(e, seeds, n) <==> exists p :: PathBetween(e, seeds, t, n, p)
  {
    if t in Ball(e, seeds, n) {
      var p := BallHasPath(e, seeds, t, n);
    }
    if exists p :: PathBetween(e, seeds, t, n, p) {
      var p :| PathBetween(e, seeds, t, n, p);
      PathInBall(e, seeds, p);
      BallGrows(e, seeds, |p| - 1, n);
    }
  }
}
