/**
 The clock graph of a constraint file: resolving generated clocks, reporting
 cycles of masters, and the two pairwise relations the rules ask for.
 */
module ClockGraph {
  import opened Netlist
  import opened MasterChains

  const UNCONSTRAINED_SENTINEL := "<unconstrained>"

  datatype Clock = Clock(ports: set<string>, master: Option<string>, isGenerated: bool)

  // The groups of one statement, in the order written.
  type Statement = seq<set<string>>

  // `order` lists the clock names as the dictionary keeps them.
  datatype ClockSpec = ClockSpec(
    clocks: map<string, Clock>,
    order: seq<string>,
    asyncGroups: seq<Statement>,
    exclusiveGroups: seq<Statement>,
    falsePathPairs: set<set<string>>,
    portClock: map<string, string>
  )

  ghost predicate ValidSpec(s: ClockSpec) {
    && (forall name :: name in s.order <==> name in s.clocks)
    && (forall i, j :: 0 <= i < j < |s.order| ==> s.order[i] != s.order[j])
  }

  function MastersOf(s: ClockSpec): (r: Masters)
    ensures forall name :: name in r <==> name in s.clocks && s.clocks[name].master.Some?
  {
    map name | name in s.clocks && s.clocks[name].master.Some? :: s.clocks[name].master.value
  }

  // The links the cycle check follows.
  function GeneratedMasters(s: ClockSpec): (r: Masters)
    ensures forall name :: name in r <==>
      name in s.clocks && s.clocks[name].isGenerated && s.clocks[name].master.Some?
  {
    map name | name in s.clocks && s.clocks[name].isGenerated && s.clocks[name].master.Some? ::
      s.clocks[name].master.value
  }

  ghost predicate OnlyGeneratedHaveMasters(s: ClockSpec) {
    forall name :: name in s.clocks && s.clocks[name].master.Some? ==> s.clocks[name].isGenerated
  }

  // ---- the cycle check --------------------------------------------------

  // One walk: clocks in the order visited, each the master of the one before.
  ghost predicate IsWalk(next: Masters, visited: seq<string>) {
    && visited != []
    && (forall i :: 0 <= i < |visited| - 1 ==> visited[i] in next && next[visited[i]] == visited[i + 1])
    && (forall i, j :: 0 <= i < j < |visited| ==> visited[i] != visited[j])
  }

  lemma {:induction false} WalkIsChain(next: Masters, visited: seq<string>, k: nat, n: nat)
    requires IsWalk(next, visited) && k + n < |visited|
    ensures At(next, visited[k], n) == Some(visited[k + n])
    decreases n
  {
    if n > 0 {
      WalkIsChain(next, visited, k + 1, n - 1);
    }
  }

  // The clocks of a walk from the one its last master points back to.
  lemma WalkClosesCycle(next: Masters, visited: seq<string>, k: nat)
    requires IsWalk(next, visited) && k < |visited|
    requires visited[|visited| - 1] in next && next[visited[|visited| - 1]] == visited[k]
    ensures OnCycle(next, visited[k]) && Reaches(next, visited[0], visited[k])
    ensures Elements(visited[k..]) == Orbit(next, visited[k])
  {
    var x, len := visited[k], |visited| - k;
    WalkIsChain(next, visited, 0, k);
    WalkIsChain(next, visited, k, len - 1);
    AtStep(next, x, len - 1);
    assert At(next, next[x], len - 1) == Some(x);
    forall y
      ensures y in Elements(visited[k..]) <==> y in Orbit(next, x)
    {
      if y in Elements(visited[k..]) {
        var i: nat :| k <= i < |visited| && visited[i] == y;
        WalkIsChain(next, visited, k, i - k);
      }
      if y in Orbit(next, x) {
        var n: nat :| At(next, x, n) == Some(y);
        StaysInWalk(next, visited, k, n);
      }
    }
  }

  lemma {:induction false} StaysInWalk(next: Masters, visited: seq<string>, k: nat, n: nat)
    requires IsWalk(next, visited) && k < |visited|
    requires visited[|visited| - 1] in next && next[visited[|visited| - 1]] == visited[k]
    ensures At(next, visited[k], n).Some? && At(next, visited[k], n).value in visited[k..]
  {
    if n > 0 {
      StaysInWalk(next, visited, k, n - 1);
      AtStep(next, visited[k], n - 1);
      var i: nat :| k <= i < |visited| && visited[i] == At(next, visited[k], n - 1).value;
      assert i + 1 < |visited| ==> visited[k..][i + 1 - k] == visited[i + 1];
      assert visited[k..][0] == visited[k];
    }
  }

  function Elements(s: seq<string>): (r: set<string>)
    ensures forall x :: x in r <==> x in s
  {
    set x | x in s
  }

  // A chain that ends meets no cycle.
  lemma EndedChainMeetsNoCycle(next: Masters, visited: seq<string>, y: string)
    requires IsWalk(next, visited) && visited[|visited| - 1] !in next
    requires Reaches(next, visited[0], y)
    ensures !OnCycle(next, y)
  {
    var last := |visited| - 1;
    WalkIsChain(next, visited, 0, last);
    AtStep(next, visited[0], last);
    var n: nat :| At(next, visited[0], n) == Some(y);
    if OnCycle(next, y) {
      CycleReturns(next, y, last + 1);
      AtCompose(next, visited[0], n, last + 1);
      AtCompose(next, visited[0], last + 1 + n, 0);
      ChainHasEnded(next, visited[0], last + 1, n);
    }
  }

  lemma {:induction false} ChainHasEnded(next: Masters, x: string, n: nat, more: nat)
    requires At(next, x, n) == None
    ensures At(next, x, n + more) == None
    decreases n
  {
    if n > 0 && x in next {
      ChainHasEnded(next, next[x], n - 1, more);
    }
  }

  // The walk up the chain of one generated clock.
  method FindCycle(s: ClockSpec, start: string) returns (found: seq<string>)
    requires start in GeneratedMasters(s)
    ensures found == [] ==> forall y :: Reaches(GeneratedMasters(s), start, y) ==> !OnCycle(GeneratedMasters(s), y)
    ensures found != [] ==> OnCycle(GeneratedMasters(s), found[0])
    ensures found != [] ==> Reaches(GeneratedMasters(s), start, found[0])
    ensures found != [] ==> Elements(found) == Orbit(GeneratedMasters(s), found[0])
  {
    ghost var next := GeneratedMasters(s);
    var visited := [start];
    var cur := s.clocks[start].master;
    while cur.Some?
      invariant IsWalk(next, visited) && visited[0] == start
      invariant cur.Some? <==> visited[|visited| - 1] in next
      invariant cur.Some? ==> cur.value == next[visited[|visited| - 1]]
      decreases next.Keys - Elements(visited), cur.Some?
    {
      if cur.value in visited {
        var k := IndexOf(visited, cur.value);
        WalkClosesCycle(next, visited, k);
        return visited[k..];
      }
      ghost var before := visited;
      visited := visited + [cur.value];
      assert IsWalk(next, visited);
      if cur.value !in s.clocks || !s.clocks[cur.value].isGenerated {
        break;
      }
      cur := s.clocks[cur.value].master;
      assert Elements(before) <= Elements(visited);
      assert cur.Some? ==> visited[|visited| - 1] in next.Keys - Elements(before);
    }
    forall y | Reaches(next, start, y)
      ensures !OnCycle(next, y)
    {
      EndedChainMeetsNoCycle(next, visited, y);
    }
    found := [];
  }

  // `visited.index(cur)`
  function IndexOf(s: seq<string>, x: string): (k: nat)
    requires x in s
    ensures k < |s| && s[k] == x && x !in s[..k]
  {
    if s[0] == x then 0 else
      var k := 1 + IndexOf(s[1..], x);
      assert s[..k] == [s[0]] + s[1..][..k - 1];
      k
  }

  // The member sets of the cycles reported, in report order.
  method ReportMasterCycles(s: ClockSpec) returns (reports: seq<set<string>>)
    requires ValidSpec(s)
    ensures forall i, j :: 0 <= i < j < |reports| ==> reports[i] != reports[j]
    ensures forall c :: c in reports <==>
        exists x :: OnCycle(GeneratedMasters(s), x) && c == Orbit(GeneratedMasters(s), x)
  {
    ghost var next := GeneratedMasters(s);
    reports := [];
    for i := 0 to |s.order|
      invariant forall a, b :: 0 <= a < b < |reports| ==> reports[a] != reports[b]
      invariant forall c :: c in reports ==> IsOrbit(next, c)
      invariant forall a :: 0 <= a < i && OnCycle(next, s.order[a]) ==> Orbit(next, s.order[a]) in reports
    {
      var start := s.order[i];
      if !s.clocks[start].isGenerated || s.clocks[start].master.None? {
        continue;
      }
      var found := FindCycle(s, start);
      if OnCycle(next, start) {
        ReachesItself(next, start);
        CycleSpreads(next, start, found[0]);
      }
      if found != [] {
        if Elements(found) in reports {
          continue;
        }
        reports := reports + [Elements(found)];
      }
    }
  }

  ghost predicate IsOrbit(next: Masters, c: set<string>) {
    exists x :: OnCycle(next, x) && c == Orbit(next, x)
  }

  // With masters on generated clocks only, an empty report means that resolving
  // never stops early: it ends at a clock without a master, and a clock and its
  // master always resolve alike.
  lemma NoReportMeansEveryChainEnds(s: ClockSpec)
    requires OnlyGeneratedHaveMasters(s)
    ensures (forall x :: !OnCycle(GeneratedMasters(s), x))
       <==> (forall x :: Root(MastersOf(s), x) !in MastersOf(s))
    ensures (forall x :: !OnCycle(GeneratedMasters(s), x)) ==>
      forall x :: x in MastersOf(s) ==> Root(MastersOf(s), x) == Root(MastersOf(s), MastersOf(s)[x])
  {
    var next := MastersOf(s);
    assert GeneratedMasters(s) == next;
    if forall x :: !OnCycle(next, x) {
      forall x
        ensures Root(next, x) !in next
        ensures x in next ==> Root(next, x) == Root(next, next[x])
      {
        RootFromSettles(next, x, {});
        assert Settled(next, RootFrom(next, x, {}));
        if x in next { RootOfMasterIff(next, x); }
      }
    } else {
      var x :| OnCycle(next, x);
      SettledIsRoot(next, x);
    }
  }

  // A clock not marked generated can carry a master that the check does not follow:
  // two such clocks pointing at each other go unreported.  The reader gives masters
  // to generated clocks only, so this takes a spec built by other means.
  lemma UnmarkedCycleGoesUnreported() returns (s: ClockSpec)
    ensures ValidSpec(s) && Root(MastersOf(s), "a") in MastersOf(s)
    ensures forall x :: !OnCycle(GeneratedMasters(s), x)
  {
    s := ClockSpec(map["a" := Clock({}, Some("b"), false), "b" := Clock({}, Some("a"), false)],
                       ["a", "b"], [], [], {}, map[]);
    assert s.order[0] == "a" && s.order[1] == "b";
    assert "a" in s.clocks && "b" in s.clocks && "a"[0] != "b"[0];
    var next := MastersOf(s);
    assert next["a"] == "b" && next["b"] == "a";
    assert At(next, next["a"], 1) == At(next, "a", 0) == Some("a");
    SettledIsRoot(next, "a");
  }

  // ---- the pairwise relations -------------------------------------------

  // The first group of a statement that satisfies the test.
  function FirstGroup(groups: Statement, test: set<string> -> bool): (r: Option<nat>)
    ensures r.Some? ==> r.value < |groups| && test(groups[r.value])
    ensures r.Some? ==> forall i :: 0 <= i < r.value ==> !test(groups[i])
    ensures r.None? ==> forall i :: 0 <= i < |groups| ==> !test(groups[i])
  {
    if groups == [] then None
    else if test(groups[0]) then Some(0)
    else match FirstGroup(groups[1..], test) {
      case None => None
      case Some(i) => Some(i + 1)
    }
  }

  predicate Separates(groups: Statement, a: string, b: string) {
    var ga := FirstGroup(groups, g => a in g);
    var gb := FirstGroup(groups, g => b in g);
    ga.Some? && gb.Some? && ga != gb
  }

  predicate AnySeparates(statements: seq<Statement>, a: string, b: string) {
    exists i :: 0 <= i < |statements| && Separates(statements[i], a, b)
  }

  predicate AreAsync(s: ClockSpec, a: string, b: string) {
    if a == b then false
    else if a == UNCONSTRAINED_SENTINEL || b == UNCONSTRAINED_SENTINEL then true
    else if AnySeparates(s.asyncGroups, a, b) then true
    else
      var ra, rb := Root(MastersOf(s), a), Root(MastersOf(s), b);
      if ra == rb then false
      else if {ra, rb} in s.falsePathPairs then true
      else if {a, b} in s.falsePathPairs then true
      else AnySeparates(s.asyncGroups, ra, rb)
  }

  predicate SeparatesEither(groups: Statement, a: string, ra: string, b: string, rb: string) {
    var ga := FirstGroup(groups, g => ra in g || a in g);
    var gb := FirstGroup(groups, g => rb in g || b in g);
    ga.Some? && gb.Some? && ga != gb
  }

  predicate IsUnreachableCrossing(s: ClockSpec, a: string, b: string) {
    if a == b then false
    else
      var ra, rb := Root(MastersOf(s), a), Root(MastersOf(s), b);
      ra != rb && exists i :: 0 <= i < |s.exclusiveGroups| && SeparatesEither(s.exclusiveGroups[i], a, ra, b, rb)
  }

  // The group of a statement that a name counts to: the first it is in, under either of its names.
  ghost predicate CountsTo(groups: Statement, x: string, y: string, i: nat) {
    i < |groups| && (x in groups[i] || y in groups[i]) && forall j :: 0 <= j < i ==> x !in groups[j] && y !in groups[j]
  }

  // Some statement puts the two clocks in different groups.
  ghost predicate PutsApart(statements: seq<Statement>, a: string, ra: string, b: string, rb: string) {
    exists k, i: nat, j: nat ::
      0 <= k < |statements| && CountsTo(statements[k], a, ra, i) && CountsTo(statements[k], b, rb, j) && i != j
  }

  lemma FirstGroupCounts(groups: Statement, x: string, y: string, test: set<string> -> bool)
    requires forall g :: test(g) <==> x in g || y in g
    ensures forall i: nat :: FirstGroup(groups, test) == Some(i) <==> CountsTo(groups, x, y, i)
  {
  }

  lemma SeparatesIff(groups: Statement, a: string, b: string)
    ensures Separates(groups, a, b) <==>
            exists i: nat, j: nat :: CountsTo(groups, a, a, i) && CountsTo(groups, b, b, j) && i != j
  {
    FirstGroupCounts(groups, a, a, g => a in g);
    FirstGroupCounts(groups, b, b, g => b in g);
  }

  lemma AnySeparatesIff(statements: seq<Statement>, a: string, b: string)
    ensures AnySeparates(statements, a, b) <==> PutsApart(statements, a, a, b, b)
  {
    forall k | 0 <= k < |statements|
      ensures Separates(statements[k], a, b) <==>
              exists i: nat, j: nat :: CountsTo(statements[k], a, a, i) && CountsTo(statements[k], b, b, j) && i != j
    {
      SeparatesIff(statements[k], a, b);
    }
  }

  lemma SeparatesEitherIff(groups: Statement, a: string, ra: string, b: string, rb: string)
    ensures SeparatesEither(groups, a, ra, b, rb) <==>
            exists i: nat, j: nat :: CountsTo(groups, a, ra, i) && CountsTo(groups, b, rb, j) && i != j
  {
    FirstGroupCounts(groups, a, ra, g => ra in g || a in g);
    FirstGroupCounts(groups, b, rb, g => rb in g || b in g);
  }

  // Two clocks are asynchronous exactly when they differ and one is the sentinel, or a
  // statement puts their own names apart, or their roots differ and a false path joins the
  // names or the roots, or a statement puts the roots apart.
  lemma AsyncIff(s: ClockSpec, a: string, b: string)
    ensures var ra, rb := Root(MastersOf(s), a), Root(MastersOf(s), b);
      AreAsync(s, a, b) <==>
        && a != b
        && (|| a == "<unconstrained>" || b == "<unconstrained>"
            || PutsApart(s.asyncGroups, a, a, b, b)
            || (ra != rb && ({ra, rb} in s.falsePathPairs || {a, b} in s.falsePathPairs ||
                             PutsApart(s.asyncGroups, ra, ra, rb, rb))))
  {
    AnySeparatesIff(s.asyncGroups, a, b);
    AnySeparatesIff(s.asyncGroups, Root(MastersOf(s), a), Root(MastersOf(s), b));
  }

  // A crossing is unreachable exactly when the roots differ and an exclusive statement puts
  // the clocks apart, each counted under its name or its root, whichever comes first.
  lemma UnreachableIff(s: ClockSpec, a: string, b: string)
    ensures var ra, rb := Root(MastersOf(s), a), Root(MastersOf(s), b);
      IsUnreachableCrossing(s, a, b) <==> ra != rb && PutsApart(s.exclusiveGroups, a, ra, b, rb)
  {
    var ra, rb := Root(MastersOf(s), a), Root(MastersOf(s), b);
    forall k | 0 <= k < |s.exclusiveGroups|
      ensures SeparatesEither(s.exclusiveGroups[k], a, ra, b, rb) <==>
              exists i: nat, j: nat ::
                CountsTo(s.exclusiveGroups[k], a, ra, i) && CountsTo(s.exclusiveGroups[k], b, rb, j) && i != j
    {
      SeparatesEitherIff(s.exclusiveGroups[k], a, ra, b, rb);
    }
  }

  lemma SeparatesSymmetric(statements: seq<Statement>, a: string, b: string)
    ensures AnySeparates(statements, a, b) == AnySeparates(statements, b, a)
  {
    forall i | 0 <= i < |statements|
      ensures Separates(statements[i], a, b) == Separates(statements[i], b, a)
    {
    }
  }

  lemma RelationsSymmetricIrreflexive(s: ClockSpec, a: string, b: string)
    ensures AreAsync(s, a, b) == AreAsync(s, b, a)
    ensures IsUnreachableCrossing(s, a, b) == IsUnreachableCrossing(s, b, a)
    ensures !AreAsync(s, a, a) && !IsUnreachableCrossing(s, a, a)
  {
    var ra, rb := Root(MastersOf(s), a), Root(MastersOf(s), b);
    SeparatesSymmetric(s.asyncGroups, a, b);
    SeparatesSymmetric(s.asyncGroups, ra, rb);
    assert {a, b} == {b, a} && {ra, rb} == {rb, ra};
    forall i | 0 <= i < |s.exclusiveGroups|
      ensures SeparatesEither(s.exclusiveGroups[i], a, ra, b, rb) == SeparatesEither(s.exclusiveGroups[i], b, rb, a, ra)
    {
    }
  }

  // The clock a port is associated with.
  function ClockForPort(s: ClockSpec, port: string): (r: Option<string>)
    requires ValidSpec(s)
  {
    if port in s.portClock then Some(s.portClock[port]) else FirstOwner(s.clocks, s.order, port)
  }

  function FirstOwner(clocks: map<string, Clock>, order: seq<string>, port: string): (r: Option<string>)
    requires forall name :: name in order ==> name in clocks
    ensures r.Some? ==> r.value in order && port in clocks[r.value].ports
    ensures r.None? ==> forall name :: name in order ==> port !in clocks[name].ports
  {
    if order == [] then None
    else if port in clocks[order[0]].ports then Some(order[0])
    else FirstOwner(clocks, order[1..], port)
  }

  // ---- projecting a parent's clocks onto a subtree ----------------------

  // One traced clock pin and the root found for it, as dictionary entries.
  type PinRoots = seq<(string, Option<string>)>

  ghost predicate ValidPinRoots(pins: PinRoots) {
    forall i, j :: 0 <= i < j < |pins| ==> pins[i].0 != pins[j].0
  }

  // A root that is neither missing nor the empty string.
  predicate Truthy(root: Option<string>) {
    root.Some? && root.value != ""
  }

  ghost predicate ArrivesOn(pins: PinRoots, root: string, pin: string) {
    Truthy(Some(root)) && (pin, Some(root)) in pins
  }

  method GroupPortsByRoot(pins: PinRoots) returns (byRoot: map<string, set<string>>, roots: seq<string>)
    ensures forall root :: root in roots <==> root in byRoot
    ensures forall i, j :: 0 <= i < j < |roots| ==> roots[i] != roots[j]
    ensures forall root :: root in byRoot <==> exists pin :: ArrivesOn(pins, root, pin)
    ensures forall root, pin :: root in byRoot ==> (pin in byRoot[root] <==> ArrivesOn(pins, root, pin))
  {
    byRoot, roots := map[], [];
    for i := 0 to |pins|
      invariant forall root :: root in roots <==> root in byRoot
      invariant forall a, b :: 0 <= a < b < |roots| ==> roots[a] != roots[b]
      invariant forall root, pin :: root in byRoot ==> (pin in byRoot[root] <==> ArrivesOn(pins[..i], root, pin))
      invariant forall root, pin :: ArrivesOn(pins[..i], root, pin) ==> root in byRoot
      invariant forall root :: root in byRoot ==> byRoot[root] != {}
    {
      var (pin, root) := pins[i];
      assert pins[..i + 1] == pins[..i] + [(pin, root)];
      assert forall r, p :: ArrivesOn(pins[..i + 1], r, p) <==>
        ArrivesOn(pins[..i], r, p) || (r != "" && (p, Some(r)) == (pin, root));
      if Truthy(root) {
        if root.value !in byRoot {
          byRoot := byRoot[root.value := {pin}];
          roots := roots + [root.value];
        } else {
          byRoot := byRoot[root.value := byRoot[root.value] + {pin}];
        }
      }
    }
    assert pins[..|pins|] == pins;
    forall root | root in byRoot
      ensures exists pin :: ArrivesOn(pins, root, pin)
    {
      var pin :| pin in byRoot[root];
      assert ArrivesOn(pins, root, pin);
    }
  }

  // The parent's clocks with their ports replaced, then the roots the parent
  // never declared.
  method DeriveSubSpec(s: ClockSpec, pins: PinRoots) returns (sub: ClockSpec)
    requires ValidSpec(s) && ValidPinRoots(pins)
    ensures ValidSpec(sub) && IsProjection(s, pins, sub)
  {
    var byRoot, roots := GroupPortsByRoot(pins);
    var clocks, order := CopyClocks(s, byRoot);
    clocks, order := DeclareRoots(s, byRoot, roots, clocks, order);
    sub := ClockSpec(clocks, order, s.asyncGroups, s.exclusiveGroups, s.falsePathPairs, map[]);
    CopiesProject(s, pins, byRoot, sub);
  }

  method CopyClocks(s: ClockSpec, byRoot: map<string, set<string>>)
    returns (clocks: map<string, Clock>, order: seq<string>)
    requires ValidSpec(s)
    ensures order == s.order
    ensures forall name :: name in clocks <==> name in s.clocks
    ensures forall name :: name in clocks ==> clocks[name] == Projected(s, byRoot, name)
  {
    clocks, order := map[], [];
    for i := 0 to |s.order|
      invariant order == s.order[..i]
      invariant forall name :: name in order <==> name in clocks
      invariant forall name :: name in clocks ==> clocks[name] == Projected(s, byRoot, name)
    {
      var name := s.order[i];
      assert s.order[..i + 1] == s.order[..i] + [name];
      clocks := clocks[name := Projected(s, byRoot, name)];
      order := order + [name];
    }
    assert s.order[..|s.order|] == s.order;
  }

  method DeclareRoots(s: ClockSpec, byRoot: map<string, set<string>>, roots: seq<string>,
                      declared: map<string, Clock>, names: seq<string>)
    returns (clocks: map<string, Clock>, order: seq<string>)
    requires ValidSpec(s) && names == s.order
    requires forall root :: root in roots ==> root in byRoot
    requires forall name :: name in declared <==> name in s.clocks
    requires forall name :: name in declared ==> declared[name] == Projected(s, byRoot, name)
    ensures forall name :: name in order <==> name in clocks
    ensures forall a, b :: 0 <= a < b < |order| ==> order[a] != order[b]
    ensures forall name :: name in clocks <==> name in s.clocks || name in roots
    ensures forall name :: name in clocks ==> clocks[name] == Projected(s, byRoot, name)
  {
    clocks, order := declared, names;
    for i := 0 to |roots|
      invariant forall name :: name in order <==> name in clocks
      invariant forall a, b :: 0 <= a < b < |order| ==> order[a] != order[b]
      invariant forall name :: name in clocks <==> name in s.clocks || name in roots[..i]
      invariant forall name :: name in clocks ==> clocks[name] == Projected(s, byRoot, name)
    {
      var root := roots[i];
      assert roots[..i + 1] == roots[..i] + [root];
      if root !in clocks {
        clocks := clocks[root := Clock(byRoot[root], None, false)];
        order := order + [root];
      }
    }
    assert roots[..|roots|] == roots;
  }

  lemma CopiesProject(s: ClockSpec, pins: PinRoots, byRoot: map<string, set<string>>, sub: ClockSpec)
    requires forall root :: root in byRoot <==> exists pin :: ArrivesOn(pins, root, pin)
    requires forall root, pin :: root in byRoot ==> (pin in byRoot[root] <==> ArrivesOn(pins, root, pin))
    requires forall name :: name in sub.clocks <==> name in s.clocks || name in byRoot
    requires forall name :: name in sub.clocks ==> sub.clocks[name] == Projected(s, byRoot, name)
    requires sub.asyncGroups == s.asyncGroups && sub.exclusiveGroups == s.exclusiveGroups
    requires sub.falsePathPairs == s.falsePathPairs && sub.portClock == map[]
    ensures IsProjection(s, pins, sub)
  {
    forall name | name in sub.clocks
      ensures ParentLink(s, sub, name)
    {
    }
    forall name, pin | name in sub.clocks
      ensures pin in sub.clocks[name].ports <==> ArrivesOn(pins, name, pin)
    {
    }
  }

  function Projected(s: ClockSpec, byRoot: map<string, set<string>>, name: string): Clock {
    var ports := if name in byRoot then byRoot[name] else {};
    if name in s.clocks then s.clocks[name].(ports := ports) else Clock(ports, None, false)
  }

  ghost predicate IsProjection(s: ClockSpec, pins: PinRoots, sub: ClockSpec) {
    && (forall name :: name in sub.clocks <==> name in s.clocks || exists pin :: ArrivesOn(pins, name, pin))
    && (forall name, pin :: name in sub.clocks ==> (pin in sub.clocks[name].ports <==> ArrivesOn(pins, name, pin)))
    && (forall name :: name in sub.clocks ==> ParentLink(s, sub, name))
    && sub.asyncGroups == s.asyncGroups
    && sub.exclusiveGroups == s.exclusiveGroups
    && sub.falsePathPairs == s.falsePathPairs
    && sub.portClock == map[]
  }

  ghost predicate ParentLink(s: ClockSpec, sub: ClockSpec, name: string)
    requires name in sub.clocks
  {
    && sub.clocks[name].master == (if name in s.clocks then s.clocks[name].master else None)
    && sub.clocks[name].isGenerated == (name in s.clocks && s.clocks[name].isGenerated)
  }

  lemma ProjectionKeepsMasters(s: ClockSpec, pins: PinRoots, sub: ClockSpec)
    requires IsProjection(s, pins, sub)
    ensures MastersOf(sub) == MastersOf(s)
  {
    assert forall name :: name in sub.clocks ==> ParentLink(s, sub, name);
  }

  lemma ProjectionNamesPins(s: ClockSpec, pins: PinRoots, sub: ClockSpec, pin: string, root: string)
    requires ValidPinRoots(pins) && ValidSpec(sub) && IsProjection(s, pins, sub)
    ensures ClockForPort(sub, pin) == Some(root) <==> ArrivesOn(pins, root, pin)
  {
    var owner := FirstOwner(sub.clocks, sub.order, pin);
    if ArrivesOn(pins, root, pin) {
      assert root in sub.clocks && pin in sub.clocks[root].ports;
      assert root in sub.order;
      assert ArrivesOn(pins, owner.value, pin);
    }
  }

  // Inside the subtree every clock question has the parent's answer, and each
  // traced pin is named by the root that arrives on it and by nothing else.
  lemma ProjectionPreservesAnswers(s: ClockSpec, pins: PinRoots, sub: ClockSpec, a: string, b: string, pin: string)
    requires ValidSpec(s) && ValidPinRoots(pins) && ValidSpec(sub) && IsProjection(s, pins, sub)
    ensures Root(MastersOf(sub), a) == Root(MastersOf(s), a)
    ensures AreAsync(sub, a, b) == AreAsync(s, a, b)
    ensures IsUnreachableCrossing(sub, a, b) == IsUnreachableCrossing(s, a, b)
    ensures forall root :: ClockForPort(sub, pin) == Some(root) <==> ArrivesOn(pins, root, pin)
  {
    ProjectionKeepsMasters(s, pins, sub);
    SameAnswers(s, sub, a, b);
    forall root
      ensures ClockForPort(sub, pin) == Some(root) <==> ArrivesOn(pins, root, pin)
    {
      ProjectionNamesPins(s, pins, sub, pin, root);
    }
  }

  lemma SameAnswers(s: ClockSpec, sub: ClockSpec, a: string, b: string)
    requires MastersOf(sub) == MastersOf(s)
    requires sub.asyncGroups == s.asyncGroups && sub.exclusiveGroups == s.exclusiveGroups
    requires sub.falsePathPairs == s.falsePathPairs
    ensures Root(MastersOf(sub), a) == Root(MastersOf(s), a)
    ensures AreAsync(sub, a, b) == AreAsync(s, a, b)
    ensures IsUnreachableCrossing(sub, a, b) == IsUnreachableCrossing(s, a, b)
  {
  }

  // ---- single-clock subtrees --------------------------------------------

  // The names in a clock set, missing and empty ones dropped.
  function Known(clocks: set<Option<string>>): (r: set<string>)
    ensures forall c :: c in r <==> Some(c) in clocks && c != ""
  {
    set c | c in clocks && Truthy(c) :: c.value
  }

  // Dropping a clock shows in the count.
  lemma {:induction false} KnownCounts(clocks: set<Option<string>>)
    ensures |Known(clocks)| <= |clocks|
    ensures |Known(clocks)| == |clocks| <==> forall c :: c in clocks ==> Truthy(c)
    decreases clocks
  {
    if c :| c in clocks {
      var rest := clocks - {c};
      KnownCounts(rest);
      assert forall d :: d in clocks ==> d == c || d in rest;
      if Truthy(c) {
        assert Known(clocks) == Known(rest) + {c.value};
        assert c.value !in Known(rest);
      } else {
        assert Known(clocks) == Known(rest);
      }
    } else {
      assert clocks == {};
    }
  }

  // `sorted(known)`; nothing below depends on which order it is.
  method ListOf(known: set<string>) returns (clockList: seq<string>)
    ensures forall c :: c in clockList <==> c in known
    ensures forall i, j :: 0 <= i < j < |clockList| ==> clockList[i] != clockList[j]
  {
    clockList := [];
    var rest := known;
    while rest != {}
      invariant forall c :: c in known <==> c in clockList || c in rest
      invariant forall c :: c in clockList ==> c !in rest
      invariant forall i, j :: 0 <= i < j < |clockList| ==> clockList[i] != clockList[j]
      decreases |rest|
    {
      var c :| c in rest;
      clockList := clockList + [c];
      rest := rest - {c};
    }
  }

  predicate SameDomain(s: ClockSpec, a: string, b: string) {
    !AreAsync(s, a, b) && !IsUnreachableCrossing(s, a, b) && Root(MastersOf(s), a) == Root(MastersOf(s), b)
  }

  ghost predicate PairsAgree(s: ClockSpec, clockList: seq<string>, upTo: int) {
    forall a, b :: 0 <= a < upTo && a < b < |clockList| ==> SameDomain(s, clockList[a], clockList[b])
  }

  method AgreesWithLater(s: ClockSpec, clockList: seq<string>, i: nat) returns (ok: bool)
    requires i < |clockList|
    ensures ok <==> forall b :: i < b < |clockList| ==> SameDomain(s, clockList[i], clockList[b])
  {
    for j := i + 1 to |clockList|
      invariant forall b :: i < b < j ==> SameDomain(s, clockList[i], clockList[b])
    {
      if AreAsync(s, clockList[i], clockList[j]) {
        return false;
      }
      if IsUnreachableCrossing(s, clockList[i], clockList[j]) {
        return false;
      }
      if Root(MastersOf(s), clockList[i]) != Root(MastersOf(s), clockList[j]) {
        return false;
      }
    }
    return true;
  }

  lemma AtMostOne(known: set<string>, a: string, b: string)
    requires |known| <= 1 && a in known && b in known
    ensures a == b
  {
    assert |known - {a}| == 0;
    assert b in known - {a} || a == b;
  }

  lemma PairsAgreeIffSingleDomain(s: ClockSpec, clocks: set<Option<string>>, clockList: seq<string>)
    requires forall c :: c in clocks ==> Truthy(c)
    requires forall c :: c in clockList <==> c in Known(clocks)
    requires forall i, j :: 0 <= i < j < |clockList| ==> clockList[i] != clockList[j]
    ensures PairsAgree(s, clockList, |clockList|) <==> IsSingleDomain(s, clocks)
  {
    forall a, b | 0 <= a < b < |clockList|
      ensures Some(clockList[a]) in clocks && Some(clockList[b]) in clocks
    {
      assert clockList[a] in clockList && clockList[b] in clockList;
    }
    if PairsAgree(s, clockList, |clockList|) {
      forall a, b | Some(a) in clocks && Some(b) in clocks && a != b
        ensures SameDomain(s, a, b)
      {
        assert a in clockList && b in clockList;
        var i :| 0 <= i < |clockList| && clockList[i] == a;
        var j :| 0 <= j < |clockList| && clockList[j] == b;
        RelationsSymmetricIrreflexive(s, a, b);
        assert if i < j then SameDomain(s, clockList[i], clockList[j]) else SameDomain(s, clockList[j], clockList[i]);
      }
    }
  }

  method AllPairsAgree(s: ClockSpec, clockList: seq<string>) returns (ok: bool)
    ensures ok == PairsAgree(s, clockList, |clockList|)
  {
    for i := 0 to |clockList|
      invariant PairsAgree(s, clockList, i)
    {
      var agrees := AgreesWithLater(s, clockList, i);
      if !agrees {
        return false;
      }
    }
    return true;
  }

  lemma FewClocksAreOneDomain(s: ClockSpec, clocks: set<Option<string>>)
    requires |Known(clocks)| <= 1 && forall c :: c in clocks ==> Truthy(c)
    ensures IsSingleDomain(s, clocks)
  {
    forall a, b | Some(a) in clocks && Some(b) in clocks
      ensures a == b
    {
      AtMostOne(Known(clocks), a, b);
    }
  }

  method IsSingleClockSubtree(s: ClockSpec, clocks: set<Option<string>>) returns (ok: bool)
    ensures ok == IsSingleDomain(s, clocks)
  {
    var known := Known(clocks);
    KnownCounts(clocks);
    if |known| != |clocks| {
      return false;
    }
    if |known| <= 1 {
      FewClocksAreOneDomain(s, clocks);
      return true;
    }
    var clockList := ListOf(known);
    PairsAgreeIffSingleDomain(s, clocks, clockList);
    ok := AllPairsAgree(s, clockList);
  }

  ghost predicate IsSingleDomain(s: ClockSpec, clocks: set<Option<string>>) {
    && (forall c :: c in clocks ==> Truthy(c))
    && (forall a, b :: Some(a) in clocks && Some(b) in clocks && a != b ==> SameDomain(s, a, b))
  }

  // Two or more clocks form one domain exactly when all are named, share one
  // root, none is the sentinel and no asynchronous statement separates two.
  lemma SingleDomainIff(s: ClockSpec, clocks: set<Option<string>>)
    requires |clocks| >= 2
    ensures IsSingleDomain(s, clocks) <==>
      && (forall c :: c in clocks ==> Truthy(c) && c.value != UNCONSTRAINED_SENTINEL)
      && (forall a, b :: Some(a) in clocks && Some(b) in clocks ==> Root(MastersOf(s), a) == Root(MastersOf(s), b))
      && (forall a, b :: Some(a) in clocks && Some(b) in clocks ==> a == b || !AnySeparates(s.asyncGroups, a, b))
  {
    if IsSingleDomain(s, clocks) {
      forall c | c in clocks
        ensures c.value != UNCONSTRAINED_SENTINEL
      {
        assert |clocks - {c}| > 0;
        var d :| d in clocks - {c};
        assert SameDomain(s, c.value, d.value);
      }
      forall a, b | Some(a) in clocks && Some(b) in clocks
        ensures Root(MastersOf(s), a) == Root(MastersOf(s), b)
        ensures a == b || !AnySeparates(s.asyncGroups, a, b)
      {
        assert a == b || SameDomain(s, a, b);
      }
    }
  }

  // A lone clock is one domain by count alone, the sentinel included.
  lemma LoneSentinelIsSingleDomain(s: ClockSpec)
    ensures IsSingleDomain(s, {Some(UNCONSTRAINED_SENTINEL)})
  {
    assert UNCONSTRAINED_SENTINEL[0] == '<';
  }
}
