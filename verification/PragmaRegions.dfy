/**
 Suppression regions of the in-source pragmas.  Each line holds at most one
 parsed pragma; a scan opens and closes one region per rule named.
 */
module PragmaRegions {
  import opened Netlist
  import opened Sequences

  datatype Pragma = Pragma(disabling: bool, rules: seq<string>, reason: string)

  // Lines are numbered from one; an open region has no end yet.
  datatype Region = Region(rule: string, start: nat, end: Option<nat>, reason: string)

  datatype State = State(open: seq<Region>, out: seq<Region>)

  type Lines = seq<Option<Pragma>>

  function IndexOfRule(open: seq<Region>, rule: string): (r: Option<nat>)
    ensures r.Some? ==> r.value < |open| && open[r.value].rule == rule
    ensures r.None? ==> forall w :: w in open ==> w.rule != rule
  {
    if open == [] then None
    else if open[0].rule == rule then Some(0)
    else match IndexOfRule(open[1..], rule) {
      case None => None
      case Some(k) => Some(k + 1)
    }
  }

  // Ends the running region of an open rule.
  function Close(st: State, k: nat, end: Option<nat>): State
    requires k < |st.open|
  {
    State(st.open[..k] + st.open[k + 1..], st.out + [st.open[k].(end := end)])
  }

  // Ends the running region of a rule, if it has one.
  function Closed(st: State, rule: string, line: nat): State {
    match IndexOfRule(st.open, rule) {
      case None => st
      case Some(k) => Close(st, k, Some(line))
    }
  }

  // One rule id of the pragma on a line.
  function NameRule(st: State, rule: string, line: nat, p: Pragma): State {
    var closed := Closed(st, rule, line);
    if p.disabling then closed.(open := closed.open + [Region(rule, line, None, p.reason)]) else closed
  }

  function NameRules(st: State, rules: seq<string>, line: nat, p: Pragma): State {
    if rules == [] then st
    else
      var last := |rules| - 1;
      NameRule(NameRules(st, rules[..last], line, p), rules[last], line, p)
  }

  function ScanLines(lines: Lines): State {
    if lines == [] then State([], [])
    else
      var st := ScanLines(lines[..|lines| - 1]);
      match lines[|lines| - 1] {
        case None => st
        case Some(p) => NameRules(st, p.rules, |lines|, p)
      }
  }

  function Scan(lines: Lines): seq<Region> {
    var st := ScanLines(lines);
    SortByStart(st.out + st.open)
  }

  // ---- the stable sort --------------------------------------------------

  ghost predicate Sorted(s: seq<Region>) {
    forall i, j :: 0 <= i < j < |s| ==> s[i].start <= s[j].start
  }

  // Past every region that starts no later.
  function SlotFor(s: seq<Region>, w: Region): (k: nat)
    requires Sorted(s)
    ensures k <= |s| && (forall i :: 0 <= i < k ==> s[i].start <= w.start)
    ensures forall i :: k <= i < |s| ==> s[i].start > w.start
  {
    if s == [] then 0
    else if s[|s| - 1].start <= w.start then |s|
    else SlotFor(s[..|s| - 1], w)
  }

  function Insert(s: seq<Region>, w: Region): (r: seq<Region>)
    requires Sorted(s)
    ensures Sorted(r)
  {
    var k := SlotFor(s, w);
    s[..k] + [w] + s[k..]
  }

  function SortByStart(s: seq<Region>): (r: seq<Region>)
    ensures Sorted(r)
  {
    if s == [] then []
    else Insert(SortByStart(s[..|s| - 1]), s[|s| - 1])
  }

  // The regions starting on one line, in order.
  function StartingAt(s: seq<Region>, line: nat): (r: seq<Region>)
    ensures (forall w :: w in s ==> w.start != line) ==> r == []
  {
    if s == [] then []
    else (if s[0].start == line then [s[0]] else []) + StartingAt(s[1..], line)
  }

  lemma {:induction false} StartingAtConcat(a: seq<Region>, b: seq<Region>, line: nat)
    ensures StartingAt(a + b, line) == StartingAt(a, line) + StartingAt(b, line)
  {
    if a == [] {
      assert a + b == b;
    } else {
      assert (a + b)[1..] == a[1..] + b && (a + b)[0] == a[0];
      StartingAtConcat(a[1..], b, line);
      Regroup(if a[0].start == line then [a[0]] else [], StartingAt(a[1..], line), StartingAt(b, line));
    }
  }

  lemma SplitIsStable(a: seq<Region>, w: Region, b: seq<Region>, line: nat)
    requires forall x :: x in b ==> x.start > w.start
    ensures StartingAt(a + [w] + b, line) == StartingAt(a + b, line) + StartingAt([w], line)
  {
    var sa, sw, sb := StartingAt(a, line), StartingAt([w], line), StartingAt(b, line);
    StartingAtConcat(a, b, line);
    StartingAtConcat(a + [w], b, line);
    StartingAtConcat(a, [w], line);
    assert sb == [] || sw == [];
    SwapEmpty(sa, sw, sb);
  }

  lemma SwapEmpty<T>(a: seq<T>, x: seq<T>, y: seq<T>)
    requires x == [] || y == []
    ensures a + x + y == a + y + x
  {
    if x == [] {
      assert a + x == a;
    } else {
      assert a + y == a;
    }
  }

  lemma InsertIsStable(s: seq<Region>, w: Region, line: nat)
    requires Sorted(s)
    ensures StartingAt(Insert(s, w), line) == StartingAt(s, line) + StartingAt([w], line)
  {
    var k := SlotFor(s, w);
    assert s == s[..k] + s[k..];
    SplitIsStable(s[..k], w, s[k..], line);
  }

  // Sorting reorders no two regions that start on one line, and so loses none.
  lemma {:induction false} SortIsStable(s: seq<Region>, line: nat)
    ensures StartingAt(SortByStart(s), line) == StartingAt(s, line)
  {
    if s != [] {
      var front, w := s[..|s| - 1], s[|s| - 1];
      SortIsStable(front, line);
      InsertIsStable(SortByStart(front), w, line);
      StartingAtConcat(front, [w], line);
      assert s == front + [w];
      assert StartingAt(s, line) == StartingAt(front, line) + StartingAt([w], line);
    }
  }

  // ---- what every prefix of a scan keeps --------------------------------

  predicate Covers(w: Region, rule: string, line: nat) {
    w.rule == rule && w.start <= line && (w.end.None? || line < w.end.value)
  }

  ghost predicate CoveredBy(s: seq<Region>, rule: string, line: nat) {
    exists w :: w in s && Covers(w, rule, line)
  }

  ghost predicate Covered(st: State, rule: string, line: nat) {
    CoveredBy(st.out, rule, line) || CoveredBy(st.open, rule, line)
  }

  predicate Before(a: Region, b: Region) {
    a.end.Some? && a.end.value <= b.start
  }

  // Regions of one rule lie strictly one after another.
  ghost predicate Apart(s: seq<Region>) {
    forall i, j :: 0 <= i < j < |s| && s[i].rule == s[j].rule ==> Before(s[i], s[j]) || Before(s[j], s[i])
  }

  // Up to and including line `now`.
  ghost predicate Consistent(st: State, now: nat) {
    && (forall w :: w in st.open ==> w.end.None? && w.start <= now)
    && (forall w :: w in st.out ==> w.end.Some? && w.start <= w.end.value <= now)
    && (forall i, j :: 0 <= i < j < |st.open| ==> st.open[i].rule != st.open[j].rule)
    && (forall w, o :: w in st.out && o in st.open && w.rule == o.rule ==> Before(w, o))
    && Apart(st.out)
  }

  // Where the region was opened, and why.
  type Opening = (string, nat, string)

  function Openings(s: seq<Region>): multiset<Opening> {
    if s == [] then multiset{}
    else Openings(s[..|s| - 1]) + multiset{(s[|s| - 1].rule, s[|s| - 1].start, s[|s| - 1].reason)}
  }

  lemma {:induction false} OpeningsConcat(a: seq<Region>, b: seq<Region>)
    ensures Openings(a + b) == Openings(a) + Openings(b)
  {
    if b == [] {
      assert a + b == a;
    } else {
      assert (a + b)[..|a + b| - 1] == a + b[..|b| - 1];
      OpeningsConcat(a, b[..|b| - 1]);
    }
  }

  lemma OpeningsOne(w: Region)
    ensures Openings([w]) == multiset{(w.rule, w.start, w.reason)}
  {
    assert [w][..0] == [];
  }

  // The open regions left after one is closed.
  lemma WithoutOne(open: seq<Region>, k: nat)
    requires k < |open|
    requires forall i, j :: 0 <= i < j < |open| ==> open[i].rule != open[j].rule
    ensures var rest := open[..k] + open[k + 1..];
      && (forall w :: w in rest <==> w in open && w.rule != open[k].rule)
      && (forall i, j :: 0 <= i < j < |rest| ==> rest[i].rule != rest[j].rule)
  {
    var rest := open[..k] + open[k + 1..];
    forall w
      ensures w in rest <==> w in open && w.rule != open[k].rule
    {
      if w in open && w.rule != open[k].rule {
        var i :| 0 <= i < |open| && open[i] == w;
        assert i < k ==> rest[i] == w;
        assert i > k ==> rest[i - 1] == w;
      }
    }
  }

  lemma CloseKeeps(st: State, k: nat, now: nat)
    requires k < |st.open| && Consistent(st, now)
    ensures Consistent(Close(st, k, Some(now)), now)
    ensures forall w :: w in Close(st, k, Some(now)).open ==> w.rule != st.open[k].rule
  {
    var o := st.open[k];
    var c := o.(end := Some(now));
    assert o in st.open;
    WithoutOne(st.open, k);
    var out := st.out + [c];
    forall i, j | 0 <= i < j < |out| && out[i].rule == out[j].rule
      ensures Before(out[i], out[j]) || Before(out[j], out[i])
    {
      assert out[i] in st.out;
      if j == |st.out| {
        assert Before(out[i], o);
      }
    }
  }

  lemma CloseKeepsOpenings(st: State, k: nat, end: Option<nat>)
    requires k < |st.open|
    ensures var after := Close(st, k, end);
      Openings(after.out) + Openings(after.open) == Openings(st.out) + Openings(st.open)
  {
    var o := st.open[k];
    var c := o.(end := end);
    var a, b := st.open[..k], st.open[k + 1..];
    assert st.open == a + [o] + b;
    OpeningsConcat(a + [o], b);
    OpeningsConcat(a, [o]);
    OpeningsConcat(a, b);
    OpeningsConcat(st.out, [c]);
    OpeningsOne(o);
    OpeningsOne(c);
  }

  lemma CloseCovers(st: State, k: nat, now: nat, rule: string, line: nat)
    requires k < |st.open| && Consistent(st, now)
    ensures var after := Close(st, k, Some(now));
      Covered(after, rule, line) <==> Covered(st, rule, line) && !(rule == st.open[k].rule && line >= now)
  {
    var o := st.open[k];
    var c := o.(end := Some(now));
    var after := Close(st, k, Some(now));
    WithoutOne(st.open, k);
    assert o in st.open && c in after.out;
    if Covered(after, rule, line) {
      if w :| w in after.out && Covers(w, rule, line) {
        if w == c {
          assert Covers(o, rule, line);
        } else {
          assert w in st.out;
        }
      } else {
        var w :| w in after.open && Covers(w, rule, line);
        assert w in st.open;
      }
    }
    if Covered(st, rule, line) && !(rule == o.rule && line >= now) {
      if w :| w in st.out && Covers(w, rule, line) {
        assert w in after.out;
      } else {
        var w :| w in st.open && Covers(w, rule, line);
        if w.rule == o.rule {
          assert w == o && Covers(c, rule, line);
        } else {
          assert w in after.open;
        }
      }
    }
  }

  lemma OpenKeeps(st: State, w: Region, now: nat)
    requires Consistent(st, now) && w.start == now && w.end.None?
    requires forall x :: x in st.open ==> x.rule != w.rule
    ensures Consistent(st.(open := st.open + [w]), now)
  {
    var open := st.open + [w];
    assert forall x :: x in open <==> x in st.open || x == w;
  }

  lemma OpenCovers(st: State, w: Region, rule: string, line: nat)
    requires w.end.None?
    ensures Covered(st.(open := st.open + [w]), rule, line)
      <==> Covered(st, rule, line) || (rule == w.rule && line >= w.start)
  {
    var open := st.open + [w];
    assert w in open;
    if CoveredBy(st.open, rule, line) {
      var x :| x in st.open && Covers(x, rule, line);
      assert x in open;
    }
  }

  lemma ClosedKeeps(st: State, rule: string, now: nat)
    requires Consistent(st, now)
    ensures Consistent(Closed(st, rule, now), now)
    ensures forall w :: w in Closed(st, rule, now).open ==> w.rule != rule
    ensures AllOpenings(Closed(st, rule, now)) == AllOpenings(st)
  {
    var at := IndexOfRule(st.open, rule);
    if at.Some? {
      CloseKeeps(st, at.value, now);
      CloseKeepsOpenings(st, at.value, Some(now));
    }
  }

  lemma NameRuleKeeps(st: State, rule: string, now: nat, p: Pragma)
    requires Consistent(st, now)
    ensures Consistent(NameRule(st, rule, now, p), now)
    ensures AllOpenings(NameRule(st, rule, now, p))
         == AllOpenings(st) + if p.disabling then multiset{(rule, now, p.reason)} else multiset{}
  {
    ClosedKeeps(st, rule, now);
    if p.disabling {
      var w := Region(rule, now, None, p.reason);
      OpenKeeps(Closed(st, rule, now), w, now);
      OpeningsConcat(Closed(st, rule, now).open, [w]);
      OpeningsOne(w);
    }
  }

  function AllOpenings(st: State): multiset<Opening> {
    Openings(st.out) + Openings(st.open)
  }

  // One rule id decides its rule from its line on, and nothing else.
  lemma NameRuleCovers(st: State, rule: string, now: nat, p: Pragma, r: string, line: nat)
    requires Consistent(st, now)
    ensures Covered(NameRule(st, rule, now, p), r, line)
       <==> (if r == rule && line >= now then p.disabling else Covered(st, r, line))
  {
    var at := IndexOfRule(st.open, rule);
    var closed := Closed(st, rule, now);
    if at.Some? {
      CloseCovers(st, at.value, now, r, line);
    } else if r == rule && line >= now {
      NothingCovers(st, now, r, line);
    }
    if p.disabling {
      OpenCovers(closed, Region(rule, now, None, p.reason), r, line);
    }
  }

  lemma NothingCovers(st: State, now: nat, rule: string, line: nat)
    requires Consistent(st, now) && line >= now
    requires forall w :: w in st.open ==> w.rule != rule
    ensures !Covered(st, rule, line)
  {
  }

  lemma LaterLineKeeps(st: State, now: nat)
    requires Consistent(st, now)
    ensures Consistent(st, now + 1)
  {
  }

  lemma {:induction false} NameRulesKeeps(st: State, rules: seq<string>, now: nat, p: Pragma)
    requires Consistent(st, now)
    ensures Consistent(NameRules(st, rules, now, p), now)
    ensures AllOpenings(NameRules(st, rules, now, p))
         == AllOpenings(st) + if p.disabling then OpenedBy(rules, now, p.reason) else multiset{}
  {
    if rules != [] {
      var last := |rules| - 1;
      NameRulesKeeps(st, rules[..last], now, p);
      NameRuleKeeps(NameRules(st, rules[..last], now, p), rules[last], now, p);
    }
  }

  lemma {:induction false} NameRulesCovers(st: State, rules: seq<string>, now: nat, p: Pragma, r: string, line: nat)
    requires Consistent(st, now)
    ensures Covered(NameRules(st, rules, now, p), r, line)
       <==> (if r in rules && line >= now then p.disabling else Covered(st, r, line))
  {
    if rules != [] {
      var last := |rules| - 1;
      assert rules == rules[..last] + [rules[last]];
      NameRulesKeeps(st, rules[..last], now, p);
      NameRulesCovers(st, rules[..last], now, p, r, line);
      NameRuleCovers(NameRules(st, rules[..last], now, p), rules[last], now, p, r, line);
    }
  }

  // ---- what the whole scan means ----------------------------------------

  // The openings one pragma asks for: one per rule id written.
  function OpenedBy(rules: seq<string>, line: nat, reason: string): multiset<Opening> {
    if rules == [] then multiset{}
    else OpenedBy(rules[..|rules| - 1], line, reason) + multiset{(rules[|rules| - 1], line, reason)}
  }

  function DisabledOccurrences(lines: Lines): multiset<Opening> {
    if lines == [] then multiset{}
    else
      var last := lines[|lines| - 1];
      DisabledOccurrences(lines[..|lines| - 1])
      + if last.Some? && last.value.disabling
        then OpenedBy(last.value.rules, |lines|, last.value.reason)
        else multiset{}
  }

  // Is the last pragma naming the rule, at or before the line, a disable?
  predicate LastIsDisable(lines: Lines, rule: string, line: nat) {
    if lines == [] then false
    else
      var last := lines[|lines| - 1];
      if line >= |lines| && last.Some? && rule in last.value.rules then last.value.disabling
      else LastIsDisable(lines[..|lines| - 1], rule, line)
  }

  lemma {:induction false} ScanLinesKeeps(lines: Lines)
    ensures Consistent(ScanLines(lines), |lines|)
    ensures AllOpenings(ScanLines(lines)) == DisabledOccurrences(lines)
  {
    if lines != [] {
      var n := |lines| - 1;
      ScanLinesKeeps(lines[..n]);
      var st := ScanLines(lines[..n]);
      LaterLineKeeps(st, n);
      if lines[n].Some? {
        NameRulesKeeps(st, lines[n].value.rules, n + 1, lines[n].value);
      }
    }
  }

  lemma {:induction false} ScanLinesCovers(lines: Lines, rule: string, line: nat)
    ensures Covered(ScanLines(lines), rule, line) <==> LastIsDisable(lines, rule, line)
  {
    if lines != [] {
      var n := |lines| - 1;
      ScanLinesCovers(lines[..n], rule, line);
      ScanLinesKeeps(lines[..n]);
      var st := ScanLines(lines[..n]);
      LaterLineKeeps(st, n);
      if lines[n].Some? {
        NameRulesCovers(st, lines[n].value.rules, n + 1, lines[n].value, rule, line);
      }
    }
  }

  lemma InsertMembers(s: seq<Region>, w: Region, x: Region)
    requires Sorted(s)
    ensures x in Insert(s, w) <==> x in s || x == w
  {
    var k := SlotFor(s, w);
    assert s == s[..k] + s[k..];
  }

  lemma {:induction false} SortMembers(s: seq<Region>, x: Region)
    ensures x in SortByStart(s) <==> x in s
  {
    if s != [] {
      var n := |s| - 1;
      SortMembers(s[..n], x);
      InsertMembers(SortByStart(s[..n]), s[n], x);
      assert s == s[..n] + [s[n]];
    }
  }

  // A line is suppressed for a rule exactly when the last pragma naming the
  // rule, at or before the line, disables it.
  lemma SuppressedIffLastDisables(lines: Lines, rule: string, line: nat)
    ensures CoveredBy(Scan(lines), rule, line) <==> LastIsDisable(lines, rule, line)
  {
    ScanLinesCovers(lines, rule, line);
    forall w
      ensures w in Scan(lines) <==> w in ScanLines(lines).out || w in ScanLines(lines).open
    {
      SortMembers(ScanLines(lines).out + ScanLines(lines).open, w);
    }
  }

  lemma InsertOpenings(s: seq<Region>, w: Region)
    requires Sorted(s)
    ensures Openings(Insert(s, w)) == Openings(s) + Openings([w])
  {
    var k := SlotFor(s, w);
    var a, b := s[..k], s[k..];
    assert s == a + b;
    OpeningsConcat(a + [w], b);
    OpeningsConcat(a, [w]);
    OpeningsConcat(a, b);
  }

  lemma {:induction false} SortOpenings(s: seq<Region>)
    ensures Openings(SortByStart(s)) == Openings(s)
  {
    if s != [] {
      var n := |s| - 1;
      SortOpenings(s[..n]);
      InsertOpenings(SortByStart(s[..n]), s[n]);
      OpeningsOne(s[n]);
    }
  }

  // One region per disabled occurrence, opened there and with its reason.
  lemma OneRegionPerOccurrence(lines: Lines)
    ensures Openings(Scan(lines)) == DisabledOccurrences(lines)
  {
    var st := ScanLines(lines);
    ScanLinesKeeps(lines);
    OpeningsConcat(st.out, st.open);
    SortOpenings(st.out + st.open);
  }

  // Two regions of one rule share no line.
  lemma RegionsOfOneRuleAreApart(lines: Lines, i: nat, j: nat, line: nat)
    requires i < j < |Scan(lines)| && Scan(lines)[i].rule == Scan(lines)[j].rule
    ensures !(Covers(Scan(lines)[i], Scan(lines)[i].rule, line) && Covers(Scan(lines)[j], Scan(lines)[j].rule, line))
  {
    var st := ScanLines(lines);
    ScanLinesKeeps(lines);
    JoinIsApart(st, |lines|);
    SortKeepsApart(st.out + st.open);
    assert Before(Scan(lines)[i], Scan(lines)[j]) || Before(Scan(lines)[j], Scan(lines)[i]);
  }

  lemma JoinIsApart(st: State, now: nat)
    requires Consistent(st, now)
    ensures Apart(st.out + st.open)
  {
  }

  lemma ApartAround(a: seq<Region>, w: Region, b: seq<Region>)
    requires Apart(a + b)
    requires forall x :: x in a + b && x.rule == w.rule ==> Before(x, w) || Before(w, x)
    ensures Apart(a + [w] + b)
  {
    var r, s, k := a + [w] + b, a + b, |a|;
    forall i, j | 0 <= i < j < |r| && r[i].rule == r[j].rule
      ensures Before(r[i], r[j]) || Before(r[j], r[i])
    {
      if i == k {
        assert r[j] == s[j - 1] && r[j] in s;
      } else if j == k {
        assert r[i] == s[i] && r[i] in s;
      } else {
        var x, y := if i < k then i else i - 1, if j < k then j else j - 1;
        assert s[x] == r[i] && s[y] == r[j];
      }
    }
  }

  lemma InsertKeepsApart(s: seq<Region>, w: Region)
    requires Sorted(s) && Apart(s)
    requires forall x :: x in s && x.rule == w.rule ==> Before(x, w) || Before(w, x)
    ensures Apart(Insert(s, w))
  {
    var k := SlotFor(s, w);
    assert s == s[..k] + s[k..];
    ApartAround(s[..k], w, s[k..]);
  }

  lemma {:induction false} SortKeepsApart(s: seq<Region>)
    requires Apart(s)
    ensures Apart(SortByStart(s))
  {
    if s != [] {
      var n := |s| - 1;
      SortKeepsApart(s[..n]);
      forall x | x in SortByStart(s[..n]) && x.rule == s[n].rule
        ensures Before(x, s[n]) || Before(s[n], x)
      {
        SortMembers(s[..n], x);
        assert x in s[..n];
      }
      InsertKeepsApart(SortByStart(s[..n]), s[n]);
    }
  }

  // Regions opened by one pragma are listed in the order they were closed, not
  // in the order their rule ids were written.
  lemma OneLineKeepsClosingOrder() returns (lines: Lines)
    ensures |lines| == 2 && lines[0] == Some(Pragma(true, ["A", "B"], ""))
    ensures Scan(lines) == [Region("B", 1, Some(2), ""), Region("A", 1, None, "")]
  {
    lines := [Some(Pragma(true, ["A", "B"], "")), Some(Pragma(false, ["B"], ""))];
    BothOpenOneClosed();
    var x, y := Region("B", 1, Some(2), ""), Region("A", 1, None, "");
    assert [x] + [y] == [x, y];
    SortTwo(x, y);
  }

  lemma NameAppend(st: State, rules: seq<string>, x: string, line: nat, p: Pragma)
    ensures NameRules(st, rules + [x], line, p) == NameRule(NameRules(st, rules, line, p), x, line, p)
  {
    assert (rules + [x])[..|rules|] == rules;
  }

  lemma NameTwo(st: State, p: Pragma, x: string, y: string, line: nat)
    ensures NameRules(st, [x, y], line, p) == NameRule(NameRule(st, x, line, p), y, line, p)
    ensures NameRules(st, [y], line, p) == NameRule(st, y, line, p)
  {
    NameAppend(st, [], x, line, p);
    NameAppend(st, [], y, line, p);
    NameAppend(st, [x], y, line, p);
    assert [] + [x] == [x] && [] + [y] == [y] && [x] + [y] == [x, y];
  }

  lemma BothOpenOneClosed()
    ensures ScanLines([Some(Pragma(true, ["A", "B"], "")), Some(Pragma(false, ["B"], ""))])
         == State([Region("A", 1, None, "")], [Region("B", 1, Some(2), "")])
  {
    var p, q := Pragma(true, ["A", "B"], ""), Pragma(false, ["B"], "");
    var lines := [Some(p), Some(q)];
    assert lines[..1] == [Some(p)] && [Some(p)][..0] == [];
    assert "A"[0] != "B"[0];
    var a, b := Region("A", 1, None, ""), Region("B", 1, None, "");
    var empty := State([], []);
    NameTwo(empty, p, "A", "B", 1);
    assert NameRule(empty, "A", 1, p) == State([a], []);
    assert NameRule(State([a], []), "B", 1, p) == State([a, b], []);
    NameTwo(State([a, b], []), q, "A", "B", 2);
    assert [a, b][1..] == [b];
  }

  lemma SortAppend(s: seq<Region>, w: Region)
    ensures SortByStart(s + [w]) == Insert(SortByStart(s), w)
  {
    assert (s + [w])[..|s|] == s;
  }

  lemma SortTwo(x: Region, y: Region)
    requires x.start == y.start
    ensures SortByStart([x, y]) == [x, y]
  {
    SortAppend([], x);
    SortAppend([x], y);
    assert [] + [x] == [x] && [x] + [y] == [x, y];
    assert SortByStart([x]) == [x];
  }

  // ---- the scan as the source runs it -----------------------------------

  method ApplyPragma(st: State, line: nat, p: Pragma) returns (after: State)
    ensures after == NameRules(st, p.rules, line, p)
  {
    after := st;
    for j := 0 to |p.rules|
      invariant after == NameRules(st, p.rules[..j], line, p)
    {
      assert p.rules[..j + 1][..j] == p.rules[..j];
      var k := IndexOfRule(after.open, p.rules[j]);
      if k.Some? {
        after := Close(after, k.value, Some(line));
      }
      if p.disabling {
        after := after.(open := after.open + [Region(p.rules[j], line, None, p.reason)]);
      }
    }
    assert p.rules[..|p.rules|] == p.rules;
  }

  // The regions left open get no end line.
  method CloseRest(st: State) returns (out: seq<Region>)
    requires forall w :: w in st.open ==> w.end.None?
    ensures out == st.out + st.open
  {
    var left := st;
    while left.open != []
      invariant left.out + left.open == st.out + st.open
      invariant forall w :: w in left.open ==> w.end.None?
      decreases |left.open|
    {
      assert left.open == [left.open[0]] + left.open[1..];
      left := Close(left, 0, None);
    }
    out := left.out;
  }

  method ScanText(lines: Lines) returns (waivers: seq<Region>)
    ensures waivers == Scan(lines)
  {
    var st := State([], []);
    for i := 0 to |lines|
      invariant st == ScanLines(lines[..i])
    {
      assert lines[..i + 1][..i] == lines[..i];
      if lines[i].None? {
        continue;
      }
      st := ApplyPragma(st, i + 1, lines[i].value);
    }
    assert lines[..|lines|] == lines;
    ScanLinesKeeps(lines);
    var out := CloseRest(st);
    waivers := SortByStart(out);
  }
}
