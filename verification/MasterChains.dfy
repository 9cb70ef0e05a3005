/**
 Chains of generated clocks.  A clock names at most one master, so a chain is a
 walk in a partial map, which a broken constraint file may make cyclic.
 Resolving a clock returns the first clock of its chain that has no master or
 lies on a cycle; the cycle check reports every cycle once.
 */
module MasterChains {
  import opened Netlist

  type Masters = map<string, string>

  // The clock n steps up the chain, if the chain is that long.
  function At(next: Masters, x: string, n: nat): Option<string>
    decreases n
  {
    if n == 0 then Some(x)
    else if x in next then At(next, next[x], n - 1)
    else None
  }

  ghost predicate Reaches(next: Masters, x: string, y: string) {
    exists n: nat :: At(next, x, n) == Some(y)
  }

  ghost predicate OnCycle(next: Masters, x: string) {
    x in next && Reaches(next, next[x], x)
  }

  // Every clock the chain from `x` passes through and that has a master.
  ghost function Orbit(next: Masters, x: string): set<string> {
    set y | y in next && Reaches(next, x, y)
  }

  // A chain goes no further than such a clock without repeating itself.
  ghost predicate Settled(next: Masters, x: string) {
    x !in next || OnCycle(next, x)
  }

  lemma AtStep(next: Masters, x: string, n: nat)
    requires At(next, x, n).Some?
    ensures At(next, x, n + 1)
         == (var y := At(next, x, n).value; if y in next then Some(next[y]) else None)
    decreases n
  {
    if n > 0 {
      AtStep(next, next[x], n - 1);
    }
  }

  lemma {:induction false} AtCompose(next: Masters, x: string, a: nat, b: nat)
    requires At(next, x, a).Some?
    ensures At(next, x, a + b) == At(next, At(next, x, a).value, b)
    decreases a
  {
    if a > 0 {
      AtCompose(next, next[x], a - 1, b);
    }
  }

  lemma ReachesItself(next: Masters, x: string)
    ensures Reaches(next, x, x)
  {
    assert At(next, x, 0) == Some(x);
  }

  lemma ReachesStep(next: Masters, x: string, y: string)
    requires Reaches(next, x, y) && y in next
    ensures Reaches(next, x, next[y])
  {
    var n: nat :| At(next, x, n) == Some(y);
    AtStep(next, x, n);
    assert At(next, x, n + 1) == Some(next[y]);
  }

  lemma ReachesTransitive(next: Masters, x: string, y: string, z: string)
    requires Reaches(next, x, y) && Reaches(next, y, z)
    ensures Reaches(next, x, z)
  {
    var a: nat :| At(next, x, a) == Some(y);
    var b: nat :| At(next, y, b) == Some(z);
    AtCompose(next, x, a, b);
    assert At(next, x, a + b) == Some(z);
  }

  // On a cycle every clock the chain meets leads back.
  lemma {:induction false} CycleReturns(next: Masters, x: string, n: nat)
    requires OnCycle(next, x)
    ensures At(next, x, n).Some?
    ensures var y := At(next, x, n).value; Reaches(next, y, x) && y in next
  {
    if n == 0 {
      ReachesItself(next, x);
    } else {
      CycleReturns(next, x, n - 1);
      AtStep(next, x, n - 1);
      var z := At(next, x, n - 1).value;
      var m: nat :| At(next, z, m) == Some(x);
      var y := next[z];
      assert Reaches(next, y, x) by {
        if m > 0 {
          assert At(next, y, m - 1) == Some(x);
        }
      }
      var k: nat :| At(next, y, k) == Some(x);
      assert k == 0 ==> y == x;
    }
  }

  lemma CycleSpreads(next: Masters, x: string, y: string)
    requires OnCycle(next, x) && Reaches(next, x, y)
    ensures OnCycle(next, y) && Orbit(next, y) == Orbit(next, x) && y in Orbit(next, x)
  {
    var n: nat :| At(next, x, n) == Some(y);
    CycleReturns(next, x, n);
    CycleReturns(next, x, n + 1);
    AtStep(next, x, n);
    ReachesTransitive(next, next[y], x, y);
    forall z | z in next
      ensures Reaches(next, x, z) <==> Reaches(next, y, z)
    {
      if Reaches(next, x, z) { ReachesTransitive(next, y, x, z); }
      if Reaches(next, y, z) { ReachesTransitive(next, x, y, z); }
    }
  }

  // ---- resolving a clock ------------------------------------------------

  // The walk that stops at a clock without a master or met before.
  function RootFrom(next: Masters, x: string, seen: set<string>): (r: string)
    decreases next.Keys - seen
  {
    if x !in next || x in seen then x
    else RootFrom(next, next[x], seen + {x})
  }

  function Root(next: Masters, x: string): (r: string) {
    RootFrom(next, x, {})
  }

  method Resolve(next: Masters, name: string) returns (root: string)
    ensures root == Root(next, name)
  {
    var seen: set<string> := {};
    root := name;
    while root in next
      invariant RootFrom(next, root, seen) == Root(next, name)
      decreases next.Keys - seen
    {
      if root in seen {
        return;
      }
      seen := seen + {root};
      root := next[root];
    }
  }

  // The clocks behind the walk all lead to where it stands.
  lemma {:induction false} RootFromSettles(next: Masters, x: string, seen: set<string>)
    requires forall s :: s in seen ==> s in next && Reaches(next, next[s], x)
    ensures Settled(next, RootFrom(next, x, seen))
    ensures Reaches(next, x, RootFrom(next, x, seen))
    decreases next.Keys - seen
  {
    ReachesItself(next, x);
    if x in next && x !in seen {
      forall s | s in seen + {x}
        ensures s in next && Reaches(next, next[s], next[x])
      {
        if s == x {
          ReachesItself(next, next[x]);
        } else {
          ReachesStep(next, next[s], x);
        }
      }
      RootFromSettles(next, next[x], seen + {x});
      ReachesStep(next, x, x);
      ReachesTransitive(next, x, next[x], RootFrom(next, x, seen));
    }
  }

  // A clock the walk never meets need not be remembered.
  lemma {:induction false} ForgetUnmet(next: Masters, y: string, seen: set<string>, x: string)
    requires !Reaches(next, y, x)
    ensures RootFrom(next, y, seen + {x}) == RootFrom(next, y, seen)
    decreases next.Keys - seen
  {
    ReachesItself(next, y);
    if y in next && y !in seen {
      if Reaches(next, next[y], x) {
        ReachesStep(next, y, y);
        ReachesTransitive(next, y, next[y], x);
      }
      ForgetUnmet(next, next[y], seen + {y}, x);
      assert seen + {x} + {y} == seen + {y} + {x};
    }
  }

  // Walking round a cycle ends at the clock it started from: the clocks already
  // met are further from it than the walk is.
  lemma {:induction false} CycleIsRoot(next: Masters, x: string, y: string, d: nat, seen: set<string>)
    requires x in next && x in seen && FirstMeeting(next, y, x, d)
    requires forall s, k: nat :: s in seen && s != x && k <= d ==> At(next, s, k) != Some(x)
    ensures RootFrom(next, y, seen) == x
    decreases d
  {
    if d > 0 {
      assert At(next, y, d) == Some(x);
      assert y in next && y !in seen && y != x by {
        assert At(next, y, 0) == Some(y);
      }
      forall k: nat | k < d - 1
        ensures At(next, next[y], k) != Some(x)
      {
        assert At(next, y, k + 1) == At(next, next[y], k);
      }
      CycleIsRoot(next, x, next[y], d - 1, seen + {y});
    }
  }

  ghost predicate FirstMeeting(next: Masters, y: string, x: string, d: nat) {
    && At(next, y, d) == Some(x)
    && (forall k: nat :: k < d ==> At(next, y, k) != Some(x))
  }

  lemma FirstMeetingExists(next: Masters, y: string, x: string, n: nat) returns (d: nat)
    requires At(next, y, n) == Some(x)
    ensures d <= n && FirstMeeting(next, y, x, d)
    decreases n
  {
    if k: nat :| k < n && At(next, y, k) == Some(x) {
      d := FirstMeetingExists(next, y, x, k);
    } else {
      d := n;
    }
  }

  lemma SettledIsRoot(next: Masters, x: string)
    requires Settled(next, x)
    ensures Root(next, x) == x
  {
    if x in next {
      var n: nat :| At(next, next[x], n) == Some(x);
      var d := FirstMeetingExists(next, next[x], x, n);
      CycleIsRoot(next, x, next[x], d, {x});
      assert {} + {x} == {x};
    }
  }

  // Resolving an unsettled clock is resolving its master.
  lemma UnsettledSharesRoot(next: Masters, x: string)
    requires !Settled(next, x)
    ensures Root(next, x) == Root(next, next[x])
  {
    ForgetUnmet(next, next[x], {}, x);
  }

  // What resolving returns: the first settled clock on the chain, and only that.
  lemma RootIsFirstSettled(next: Masters, x: string, r: string)
    ensures Root(next, x) == r <==> IsFirstSettled(next, x, r)
  {
    var root := Root(next, x);
    assert Settled(next, root) && Reaches(next, x, root) by {
      RootFromSettles(next, x, {});
    }
    var n: nat :| At(next, x, n) == Some(root);
    var d := FirstSettledOnChain(next, x, n);
    var q := At(next, x, d).value;
    SettledIsRoot(next, q);
    RootAlongChain(next, x, d);
    if IsFirstSettled(next, x, r) {
      var e: nat :| FirstSettledAt(next, x, r, e);
      assert e == d;
    }
  }

  ghost predicate IsFirstSettled(next: Masters, x: string, r: string) {
    exists n: nat :: FirstSettledAt(next, x, r, n)
  }

  ghost predicate FirstSettledAt(next: Masters, x: string, r: string, n: nat) {
    && At(next, x, n) == Some(r)
    && Settled(next, r)
    && forall k: nat :: k < n ==> At(next, x, k).Some? && !Settled(next, At(next, x, k).value)
  }

  lemma {:induction false} FirstSettledOnChain(next: Masters, x: string, n: nat) returns (d: nat)
    requires At(next, x, n).Some? && Settled(next, At(next, x, n).value)
    ensures At(next, x, d).Some? && FirstSettledAt(next, x, At(next, x, d).value, d)
    decreases n
  {
    if Settled(next, x) {
      d := 0;
    } else {
      var tail := FirstSettledOnChain(next, next[x], n - 1);
      d := tail + 1;
      forall k: nat | k < d
        ensures At(next, x, k).Some? && !Settled(next, At(next, x, k).value)
      {
        if k > 0 {
          assert At(next, x, k) == At(next, next[x], k - 1);
        }
      }
    }
  }

  lemma {:induction false} RootAlongChain(next: Masters, x: string, d: nat)
    requires At(next, x, d).Some?
    requires forall k: nat :: k < d ==> At(next, x, k).Some? && !Settled(next, At(next, x, k).value)
    ensures Root(next, x) == Root(next, At(next, x, d).value)
    decreases d
  {
    if d > 0 {
      assert At(next, x, 0) == Some(x);
      UnsettledSharesRoot(next, x);
      forall k: nat | k < d - 1
        ensures At(next, next[x], k).Some? && !Settled(next, At(next, next[x], k).value)
      {
        assert At(next, x, k + 1) == At(next, next[x], k);
      }
      RootAlongChain(next, next[x], d - 1);
    }
  }

  lemma RootIsIdempotent(next: Masters, x: string)
    ensures Root(next, Root(next, x)) == Root(next, x)
  {
    RootFromSettles(next, x, {});
    SettledIsRoot(next, Root(next, x));
  }

  // A clock and its master resolve alike exactly when the clock is off every
  // cycle, or is its own master.
  lemma RootOfMasterIff(next: Masters, x: string)
    requires x in next
    ensures Root(next, x) == Root(next, next[x]) <==> !OnCycle(next, x) || next[x] == x
  {
    if OnCycle(next, x) {
      ReachesItself(next, next[x]);
      ReachesItself(next, x);
      ReachesStep(next, x, x);
      CycleSpreads(next, x, next[x]);
      SettledIsRoot(next, x);
      SettledIsRoot(next, next[x]);
    } else {
      UnsettledSharesRoot(next, x);
    }
  }
}
