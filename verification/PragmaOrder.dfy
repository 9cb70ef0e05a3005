/**
 The order of the regions one pragma opens: by the place each is closed at, the
 ones never closed last.  That is the order the rule ids were written exactly when
 they are closed in that order.
 */
module PragmaOrder {
  import opened PragmaRegions
  import opened Netlist

  // ---- the scan, one rule id at a time ------------------------------------

  // One rule id of a pragma.
  datatype Naming = Naming(line: nat, rule: string, p: Pragma)

  function LineNamings(rules: seq<string>, line: nat, p: Pragma): (r: seq<Naming>)
    ensures |r| == |rules| && forall i :: 0 <= i < |r| ==> r[i] == Naming(line, rules[i], p)
  {
    seq(|rules|, i requires 0 <= i < |rules| => Naming(line, rules[i], p))
  }

  function Namings(lines: Lines): seq<Naming> {
    if lines == [] then []
    else
      var n := |lines| - 1;
      Namings(lines[..n]) + if lines[n].None? then [] else LineNamings(lines[n].value.rules, n + 1, lines[n].value)
  }

  function Run(ns: seq<Naming>): State {
    if ns == [] then State([], [])
    else
      var x := ns[|ns| - 1];
      NameRule(Run(ns[..|ns| - 1]), x.rule, x.line, x.p)
  }

  lemma {:induction false} RunLine(ns: seq<Naming>, rules: seq<string>, line: nat, p: Pragma)
    ensures Run(ns + LineNamings(rules, line, p)) == NameRules(Run(ns), rules, line, p)
  {
    if rules == [] {
      assert ns + LineNamings(rules, line, p) == ns;
    } else {
      var last := |rules| - 1;
      var all := ns + LineNamings(rules, line, p);
      assert all[..|all| - 1] == ns + LineNamings(rules[..last], line, p);
      RunLine(ns, rules[..last], line, p);
    }
  }

  lemma {:induction false} ScanIsRun(lines: Lines)
    ensures ScanLines(lines) == Run(Namings(lines))
  {
    if lines != [] {
      var n := |lines| - 1;
      ScanIsRun(lines[..n]);
      if lines[n].None? {
        assert Namings(lines) == Namings(lines[..n]);
      } else {
        RunLine(Namings(lines[..n]), lines[n].value.rules, n + 1, lines[n].value);
      }
    }
  }

  // ---- where a region is closed -------------------------------------------

  // The first naming of a rule at or after `from`, or the end.
  function FirstNaming(ns: seq<Naming>, rule: string, from: nat): (c: nat)
    requires from <= |ns|
    ensures from <= c <= |ns| && (c < |ns| ==> ns[c].rule == rule)
    ensures forall m :: from <= m < c ==> ns[m].rule != rule
    decreases |ns| - from
  {
    if from == |ns| || ns[from].rule == rule then from else FirstNaming(ns, rule, from + 1)
  }

  // Where the region opened by naming e is closed: the next naming of its rule.
  function ClosedAt(ns: seq<Naming>, e: nat): nat
    requires e < |ns|
  {
    FirstNaming(ns, ns[e].rule, e + 1)
  }

  function RegionOf(ns: seq<Naming>, e: nat): Region
    requires e < |ns|
  {
    var c := ClosedAt(ns, e);
    Region(ns[e].rule, ns[e].line, if c < |ns| then Some(ns[c].line) else None, ns[e].p.reason)
  }

  lemma OneMoreNaming(ns: seq<Naming>, x: Naming, e: nat)
    requires e < |ns|
    ensures var c := ClosedAt(ns, e);
      ClosedAt(ns + [x], e) == if c < |ns| then c else if x.rule == ns[e].rule then |ns| else |ns| + 1
  {
    var all := ns + [x];
    var c, d := ClosedAt(ns, e), ClosedAt(all, e);
    assert all[|ns|] == x && forall m :: 0 <= m < |ns| ==> all[m] == ns[m];
    assert d < |ns| ==> ns[d].rule == ns[e].rule;
    assert c < |ns| ==> all[c].rule == all[e].rule;
  }

  // ---- what every prefix keeps --------------------------------------------

  // The namings that opened the finished and the running regions.
  datatype Track = Track(out: seq<nat>, open: seq<nat>)

  ghost predicate OutTracked(ns: seq<Naming>, out: seq<Region>, os: seq<nat>) {
    && |os| == |out|
    && (forall i :: 0 <= i < |os| ==>
          os[i] < |ns| && ns[os[i]].p.disabling && ClosedAt(ns, os[i]) < |ns| && out[i] == RegionOf(ns, os[i]))
    && (forall i, j :: 0 <= i < j < |os| ==> ClosedAt(ns, os[i]) < ClosedAt(ns, os[j]))
  }

  ghost predicate OpenTracked(ns: seq<Naming>, open: seq<Region>, os: seq<nat>) {
    && |os| == |open|
    && (forall i :: 0 <= i < |os| ==>
          os[i] < |ns| && ns[os[i]].p.disabling && ClosedAt(ns, os[i]) == |ns| && open[i] == RegionOf(ns, os[i]))
    && (forall i, j :: 0 <= i < j < |os| ==> os[i] < os[j])
  }

  ghost predicate Tracked(ns: seq<Naming>, st: State, tr: Track) {
    OutTracked(ns, st.out, tr.out) && OpenTracked(ns, st.open, tr.open) && AllTracked(ns, tr)
  }

  lemma OutStays(ns: seq<Naming>, x: Naming, out: seq<Region>, os: seq<nat>)
    requires OutTracked(ns, out, os)
    ensures OutTracked(ns + [x], out, os) && forall i :: 0 <= i < |os| ==> ClosedAt(ns + [x], os[i]) < |ns|
  {
    forall i | 0 <= i < |os| ensures ClosedAt(ns + [x], os[i]) == ClosedAt(ns, os[i]) {
      OneMoreNaming(ns, x, os[i]);
    }
  }

  lemma OpenStays(ns: seq<Naming>, x: Naming, open: seq<Region>, os: seq<nat>)
    requires OpenTracked(ns, open, os) && forall i :: 0 <= i < |open| ==> open[i].rule != x.rule
    ensures OpenTracked(ns + [x], open, os)
  {
    forall i | 0 <= i < |os| ensures ClosedAt(ns + [x], os[i]) == |ns| + 1 {
      OneMoreNaming(ns, x, os[i]);
    }
  }

  // The region of x's rule goes behind the finished ones.
  lemma OutGrows(ns: seq<Naming>, x: Naming, out: seq<Region>, os: seq<nat>, e: nat)
    requires OutTracked(ns, out, os)
    requires e < |ns| && ns[e].p.disabling && ns[e].rule == x.rule && ClosedAt(ns, e) == |ns|
    ensures OutTracked(ns + [x], out + [RegionOf(ns, e).(end := Some(x.line))], os + [e])
  {
    OutStays(ns, x, out, os);
    OneMoreNaming(ns, x, e);
    assert RegionOf(ns + [x], e) == RegionOf(ns, e).(end := Some(x.line));
  }

  lemma OpenWithout(ns: seq<Naming>, open: seq<Region>, os: seq<nat>, k: nat)
    requires OpenTracked(ns, open, os) && k < |open|
    ensures OpenTracked(ns, open[..k] + open[k + 1..], os[..k] + os[k + 1..])
    ensures var rest := open[..k] + open[k + 1..]; forall i :: 0 <= i < |rest| ==> rest[i].rule != open[k].rule
  {
    OnlyOneOpen(ns, open, os, k);
    var rest, left := open[..k] + open[k + 1..], os[..k] + os[k + 1..];
    forall i | 0 <= i < |left|
      ensures left[i] == os[if i < k then i else i + 1] && rest[i] == open[if i < k then i else i + 1]
    {
    }
  }

  lemma WithoutOneIndex(os: seq<nat>, k: nat)
    requires k < |os|
    ensures forall e :: e in os <==> e == os[k] || e in os[..k] + os[k + 1..]
  {
    assert os == os[..k] + [os[k]] + os[k + 1..];
  }

  // No two running regions are of one rule.
  lemma OnlyOneOpen(ns: seq<Naming>, open: seq<Region>, os: seq<nat>, k: nat)
    requires OpenTracked(ns, open, os) && k < |open|
    ensures forall i :: 0 <= i < |open| && i != k ==> open[i].rule != open[k].rule
  {
    forall i | 0 <= i < |open| && i != k ensures open[i].rule != open[k].rule {
      var a, b := if i < k then os[i] else os[k], if i < k then os[k] else os[i];
      assert a < b < ClosedAt(ns, a);
    }
  }

  // Naming a rule closes the running region it has, and no other.
  lemma CloseTracked(ns: seq<Naming>, st: State, tr: Track, x: Naming) returns (tr': Track)
    requires Tracked(ns, st, tr)
    ensures var st' := Closed(st, x.rule, x.line);
      OutTracked(ns + [x], st'.out, tr'.out) && OpenTracked(ns + [x], st'.open, tr'.open)
    ensures forall e :: e in tr'.out || e in tr'.open <==> e in tr.out || e in tr.open
    ensures forall e :: e in tr'.open ==> e < |ns|
  {
    match IndexOfRule(st.open, x.rule) {
      case None =>
        tr' := tr;
        OutStays(ns, x, st.out, tr.out);
        OpenStays(ns, x, st.open, tr.open);
      case Some(k) =>
        tr' := Track(tr.out + [tr.open[k]], tr.open[..k] + tr.open[k + 1..]);
        OutGrows(ns, x, st.out, tr.out, tr.open[k]);
        OpenWithout(ns, st.open, tr.open, k);
        WithoutOneIndex(tr.open, k);
        OpenStays(ns, x, st.open[..k] + st.open[k + 1..], tr'.open);
    }
  }

  // A disabling naming then opens one.
  lemma OpenGrows(ns: seq<Naming>, open: seq<Region>, os: seq<nat>, e: nat)
    requires OpenTracked(ns, open, os) && |ns| == e + 1 && ns[e].p.disabling && forall i :: 0 <= i < |os| ==> os[i] < e
    ensures OpenTracked(ns, open + [Region(ns[e].rule, ns[e].line, None, ns[e].p.reason)], os + [e])
  {
  }

  ghost predicate AllTracked(ns: seq<Naming>, tr: Track) {
    forall e :: 0 <= e < |ns| && ns[e].p.disabling ==> e in tr.out || e in tr.open
  }

  lemma StepTracked(ns: seq<Naming>, st: State, tr: Track, x: Naming, st': State) returns (tr': Track)
    requires Tracked(ns, st, tr) && st' == NameRule(st, x.rule, x.line, x.p)
    ensures Tracked(ns + [x], st', tr')
  {
    var closed := CloseTracked(ns, st, tr, x);
    if x.p.disabling {
      tr' := Track(closed.out, closed.open + [|ns|]);
      var was := Closed(st, x.rule, x.line);
      assert st' == was.(open := was.open + [Region(x.rule, x.line, None, x.p.reason)]);
      OpenGrows(ns + [x], was.open, closed.open, |ns|);
    } else {
      tr' := closed;
    }
    StepTracksAll(ns, x, tr, closed, tr');
  }

  lemma StepTracksAll(ns: seq<Naming>, x: Naming, tr: Track, closed: Track, tr': Track)
    requires AllTracked(ns, tr) && forall e :: e in tr.out || e in tr.open ==> e in closed.out || e in closed.open
    requires tr' == if x.p.disabling then Track(closed.out, closed.open + [|ns|]) else closed
    ensures AllTracked(ns + [x], tr')
  {
    var all := ns + [x];
    forall e | 0 <= e < |all| && all[e].p.disabling ensures e in tr'.out || e in tr'.open {
      if e < |ns| {
        assert all[e] == ns[e];
        assert e in closed.out || e in closed.open;
      }
    }
  }

  lemma {:induction false} RunTracked(ns: seq<Naming>) returns (tr: Track)
    ensures Tracked(ns, Run(ns), tr)
  {
    if ns == [] {
      tr := Track([], []);
    } else {
      var n := |ns| - 1;
      assert ns == ns[..n] + [ns[n]];
      var was := RunTracked(ns[..n]);
      tr := StepTracked(ns[..n], Run(ns[..n]), was, ns[n], Run(ns));
    }
  }

  // ---- the regions of one line --------------------------------------------

  // Closed earlier, or neither closed and opened earlier.
  ghost predicate ClosesBefore(ns: seq<Naming>, a: nat, b: nat)
    requires a < |ns| && b < |ns|
  {
    ClosedAt(ns, a) < ClosedAt(ns, b) || (ClosedAt(ns, a) == ClosedAt(ns, b) == |ns| && a < b)
  }

  ghost predicate AreNamings(ns: seq<Naming>, ks: seq<nat>) {
    forall i :: 0 <= i < |ks| ==> ks[i] < |ns|
  }

  ghost predicate InClosingOrder(ns: seq<Naming>, ks: seq<nat>)
    requires AreNamings(ns, ks)
  {
    forall i, j :: 0 <= i < j < |ks| ==> ClosesBefore(ns, ks[i], ks[j])
  }

  ghost predicate RegionsAre(ns: seq<Naming>, s: seq<Region>, ks: seq<nat>)
    requires AreNamings(ns, ks)
  {
    |ks| == |s| && forall i :: 0 <= i < |s| ==> s[i] == RegionOf(ns, ks[i])
  }

  lemma OrderOfRest(ns: seq<Naming>, s: seq<Region>, all: seq<nat>)
    requires AreNamings(ns, all) && RegionsAre(ns, s, all) && InClosingOrder(ns, all) && s != []
    ensures AreNamings(ns, all[1..]) && RegionsAre(ns, s[1..], all[1..]) && InClosingOrder(ns, all[1..])
    ensures forall e {:trigger e in all[1..]} :: e in all[1..] ==> e < |ns| && ClosesBefore(ns, all[0], e)
  {
  }

  lemma OrderWithFirst(ns: seq<Naming>, w: Region, s: seq<Region>, e: nat, rest: seq<nat>)
    requires AreNamings(ns, rest) && RegionsAre(ns, s, rest) && InClosingOrder(ns, rest)
    requires e < |ns| && w == RegionOf(ns, e) && forall i :: 0 <= i < |rest| ==> ClosesBefore(ns, e, rest[i])
    ensures AreNamings(ns, [e] + rest) && RegionsAre(ns, [w] + s, [e] + rest) && InClosingOrder(ns, [e] + rest)
  {
  }

  // The regions of one line, picked out of all of them.
  lemma {:induction false} PickLine(ns: seq<Naming>, s: seq<Region>, all: seq<nat>, line: nat) returns (ks: seq<nat>)
    requires AreNamings(ns, all) && RegionsAre(ns, s, all) && InClosingOrder(ns, all)
    ensures AreNamings(ns, ks) && RegionsAre(ns, StartingAt(s, line), ks) && InClosingOrder(ns, ks)
    ensures forall e: nat :: e in ks <==> e in all && ns[e].line == line
    decreases |s|
  {
    ks := [];
    if s != [] {
      OrderOfRest(ns, s, all);
      var rest := PickLine(ns, s[1..], all[1..], line);
      assert all == [all[0]] + all[1..];
      if s[0].start == line {
        OrderWithFirst(ns, s[0], StartingAt(s[1..], line), all[0], rest);
        ks := [all[0]] + rest;
      } else {
        ks := rest;
      }
    }
  }

  // All regions of the scan, finished and running, are in closing order.
  lemma JoinTracked(ns: seq<Naming>, st: State, tr: Track)
    requires Tracked(ns, st, tr)
    ensures var all := tr.out + tr.open;
      && AreNamings(ns, all) && RegionsAre(ns, st.out + st.open, all) && InClosingOrder(ns, all)
      && forall e: nat :: e in all <==> e < |ns| && ns[e].p.disabling
  {
    var all := tr.out + tr.open;
    forall i, j | 0 <= i < j < |all| ensures ClosesBefore(ns, all[i], all[j]) {
    }
  }

  // `s` are the regions of the disabling namings of a line, in closing order.
  ghost predicate ClosingOrder(ns: seq<Naming>, s: seq<Region>, ks: seq<nat>, line: nat) {
    && AreNamings(ns, ks) && RegionsAre(ns, s, ks) && InClosingOrder(ns, ks)
    && forall e: nat {:trigger e in ks} :: e in ks <==> e < |ns| && ns[e].line == line && ns[e].p.disabling
  }

  // For every file and line: the regions starting on a line are those of its
  // disabling namings, in the order they are closed, the open ones last.
  lemma LineIsInClosingOrder(lines: Lines, line: nat) returns (ks: seq<nat>)
    ensures ClosingOrder(Namings(lines), StartingAt(Scan(lines), line), ks, line)
  {
    var ns, st := Namings(lines), ScanLines(lines);
    ScanIsRun(lines);
    var tr := RunTracked(ns);
    JoinTracked(ns, st, tr);
    SortIsStable(st.out + st.open, line);
    ks := PickLine(ns, st.out + st.open, tr.out + tr.open, line);
  }

  // ---- when that is the order written -------------------------------------

  // Where the namings of a line start.
  function LineStart(lines: Lines, line: nat): nat
    requires 0 < line <= |lines|
  {
    |Namings(lines[..line - 1])|
  }

  // The namings of a line stand together from `base` on, in the order written.
  ghost predicate StandsAt(ns: seq<Naming>, base: nat, line: nat, p: Pragma) {
    && base + |p.rules| <= |ns|
    && (forall i :: 0 <= i < |p.rules| ==> ns[base + i] == Naming(line, p.rules[i], p))
    && forall e: nat :: e < |ns| ==> (ns[e].line == line <==> base <= e < base + |p.rules|)
  }

  lemma {:induction false} NamingsOfLine(lines: Lines, line: nat)
    requires 0 < line <= |lines| && lines[line - 1].Some?
    ensures StandsAt(Namings(lines), LineStart(lines, line), line, lines[line - 1].value)
    decreases |lines|
  {
    var n := |lines| - 1;
    var front := lines[..n];
    if line == |lines| {
      LinesBelow(front);
    } else {
      NamingsOfLine(front, line);
      assert front[..line - 1] == lines[..line - 1];
    }
  }

  lemma {:induction false} LinesBelow(lines: Lines)
    ensures forall e :: 0 <= e < |Namings(lines)| ==> Namings(lines)[e].line <= |lines|
  {
    if lines != [] {
      LinesBelow(lines[..|lines| - 1]);
    }
  }

  // The regions name these rules, in this order.
  ghost predicate NameInOrder(s: seq<Region>, rules: seq<string>) {
    |s| == |rules| && forall i :: 0 <= i < |s| ==> s[i].rule == rules[i]
  }

  ghost predicate IsRange(ks: seq<nat>, base: nat, n: nat) {
    forall e: nat {:trigger e in ks} :: e in ks <==> base <= e < base + n
  }

  // Increasing numbers that fill a range.
  lemma {:induction false} IncreasingRange(ks: seq<nat>, base: nat, n: nat)
    requires IsRange(ks, base, n) && forall i, j :: 0 <= i < j < |ks| ==> ks[i] < ks[j]
    ensures |ks| == n && forall i :: 0 <= i < n ==> ks[i] == base + i
    decreases n
  {
    assert ks == [] || ks[0] in ks;
    if n > 0 {
      var last := |ks| - 1;
      assert base + n - 1 in ks && ks[last] in ks;
      assert ks[last] == base + n - 1;
      forall e: nat ensures e in ks[..last] <==> base <= e < base + (n - 1) {
        assert e in ks <==> e in ks[..last] || e == ks[last];
      }
      IncreasingRange(ks[..last], base, n - 1);
    }
  }

  // The namings base .. base + n of `ns`, closed in the order they stand.
  ghost predicate RangeClosesInOrder(ns: seq<Naming>, base: nat, n: nat)
    requires base + n <= |ns|
  {
    forall a: nat, b: nat {:trigger ClosedAt(ns, a), ClosedAt(ns, b)} ::
      base <= a < b < base + n ==> ClosedAt(ns, a) <= ClosedAt(ns, b)
  }

  lemma InOrderStaysPut(ns: seq<Naming>, ks: seq<nat>, base: nat, n: nat)
    requires AreNamings(ns, ks) && InClosingOrder(ns, ks) && base + n <= |ns| && IsRange(ks, base, n)
    requires RangeClosesInOrder(ns, base, n)
    ensures |ks| == n && forall i :: 0 <= i < n ==> ks[i] == base + i
  {
    forall i, j | 0 <= i < j < |ks| ensures ks[i] < ks[j] {
      assert ClosesBefore(ns, ks[i], ks[j]) && ks[i] in ks && ks[j] in ks;
    }
    IncreasingRange(ks, base, n);
  }

  // If the rules come out as they stand then so do the namings: of two namings of
  // one rule the first is closed by the second.
  lemma {:induction false} SameRulesStayPut(ns: seq<Naming>, ks: seq<nat>, base: nat, n: nat, i: nat)
    requires AreNamings(ns, ks) && InClosingOrder(ns, ks) && base + n <= |ns| && IsRange(ks, base, n)
    requires |ks| == n && forall m :: 0 <= m < n ==> ns[ks[m]].rule == ns[base + m].rule
    requires i <= n
    ensures forall m :: 0 <= m < i ==> ks[m] == base + m
    decreases i
  {
    if i > 0 {
      var k := i - 1;
      SameRulesStayPut(ns, ks, base, n, k);
      NotEarlier(ns, ks, base, n, k);
      assert base + k in ks;
      var m :| 0 <= m < n && ks[m] == base + k;
      if ks[k] > base + k {
        SecondClosesFirst(ns, base + k, ks[k]);
      }
    }
  }

  lemma SecondClosesFirst(ns: seq<Naming>, a: nat, b: nat)
    requires a < b < |ns| && ns[a].rule == ns[b].rule
    ensures ClosedAt(ns, a) < ClosedAt(ns, b)
  {
  }

  lemma NotEarlier(ns: seq<Naming>, ks: seq<nat>, base: nat, n: nat, k: nat)
    requires AreNamings(ns, ks) && InClosingOrder(ns, ks) && IsRange(ks, base, n)
    requires k < |ks| && k < n && forall m :: 0 <= m < k ==> ks[m] == base + m
    ensures ks[k] >= base + k
  {
    assert ks[k] in ks;
    if k > 0 {
      var m := if ks[k] < base + k then ks[k] - base else 0;
      assert ClosesBefore(ns, ks[m], ks[k]);
    }
  }

  lemma StaysPutIsInOrder(ns: seq<Naming>, ks: seq<nat>, base: nat, n: nat)
    requires AreNamings(ns, ks) && InClosingOrder(ns, ks) && base + n <= |ns|
    requires |ks| == n && forall i :: 0 <= i < n ==> ks[i] == base + i
    ensures RangeClosesInOrder(ns, base, n)
  {
    forall a: nat, b: nat | base <= a < b < base + n ensures ClosedAt(ns, a) <= ClosedAt(ns, b) {
      assert ks[a - base] == a && ks[b - base] == b;
      assert ClosesBefore(ns, ks[a - base], ks[b - base]);
    }
  }

  // Along the rule list no region is closed before an earlier one.
  ghost predicate ClosesAsWritten(lines: Lines, line: nat)
    requires 0 < line <= |lines| && lines[line - 1].Some?
  {
    var ns, base, n := Namings(lines), LineStart(lines, line), |lines[line - 1].value.rules|;
    base + n <= |ns| && RangeClosesInOrder(ns, base, n)
  }

  // `ks` are the namings base .. base + |rules|, of these rules, in closing order,
  // and `s` their regions.
  ghost predicate OrderedLine(ns: seq<Naming>, s: seq<Region>, ks: seq<nat>, base: nat, rules: seq<string>) {
    && AreNamings(ns, ks) && InClosingOrder(ns, ks) && RegionsAre(ns, s, ks)
    && base + |rules| <= |ns| && IsRange(ks, base, |rules|)
    && forall i :: 0 <= i < |rules| ==> ns[base + i].rule == rules[i]
  }

  lemma LineOrder(lines: Lines, line: nat, s: seq<Region>) returns (ks: seq<nat>)
    requires 0 < line <= |lines| && lines[line - 1].Some? && lines[line - 1].value.disabling
    requires s == StartingAt(Scan(lines), line)
    ensures OrderedLine(Namings(lines), s, ks, LineStart(lines, line), lines[line - 1].value.rules)
  {
    ks := LineIsInClosingOrder(lines, line);
    NamingsOfLine(lines, line);
    LineIsOrdered(Namings(lines), s, ks, LineStart(lines, line), line, lines[line - 1].value);
  }

  lemma OrderIff(ns: seq<Naming>, s: seq<Region>, ks: seq<nat>, base: nat, rules: seq<string>)
    requires OrderedLine(ns, s, ks, base, rules)
    ensures NameInOrder(s, rules) <==> RangeClosesInOrder(ns, base, |rules|)
  {
    if RangeClosesInOrder(ns, base, |rules|) {
      InOrderStaysPut(ns, ks, base, |rules|);
    }
    if NameInOrder(s, rules) {
      SameRulesStayPut(ns, ks, base, |rules|, |rules|);
      StaysPutIsInOrder(ns, ks, base, |rules|);
    }
  }

  // The rule ids of one disabling pragma come out in the order they were written if
  // and only if their regions are closed in that order, the open ones last.
  lemma WrittenOrderIff(lines: Lines, line: nat)
    requires 0 < line <= |lines| && lines[line - 1].Some? && lines[line - 1].value.disabling
    ensures NameInOrder(StartingAt(Scan(lines), line), lines[line - 1].value.rules) <==> ClosesAsWritten(lines, line)
  {
    var s := StartingAt(Scan(lines), line);
    var ks := LineOrder(lines, line, s);
    OrderIff(Namings(lines), s, ks, LineStart(lines, line), lines[line - 1].value.rules);
  }

  lemma LineIsOrdered(ns: seq<Naming>, s: seq<Region>, ks: seq<nat>, base: nat, line: nat, p: Pragma)
    requires ClosingOrder(ns, s, ks, line) && StandsAt(ns, base, line, p) && p.disabling
    ensures OrderedLine(ns, s, ks, base, p.rules)
  {
    forall e: nat ensures e in ks <==> base <= e < base + |p.rules| {
      if base <= e < base + |p.rules| {
        assert ns[base + (e - base)] == Naming(line, p.rules[e - base], p);
      }
    }
  }
}
