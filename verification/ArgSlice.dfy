/**
 Bucketing the words of one command by a flag table: flags alone, flags with one
 operand, flags that take words up to the next dash, and the positional tail.
 */
module ArgSlice {
  import opened Sequences

  datatype Arity = Zero | One | Greedy

  // One occurrence of a flag.
  datatype Operand = Present | Single(word: string) | Several(words: seq<string>)

  type ArgSpec = map<string, Arity>

  datatype Parsed = Parsed(flags: map<string, seq<Operand>>, tail: seq<string>)

  predicate Dashed(w: string) {
    w != "" && w[0] == '-'
  }

  // Flag names carry their dash.
  ghost predicate ValidSpec(spec: ArgSpec) {
    forall f :: f in spec ==> Dashed(f)
  }

  // The words a greedy flag takes.
  function Slurp(words: seq<string>): (r: seq<string>)
    ensures |r| <= |words|
  {
    if words == [] || Dashed(words[0]) then [] else [words[0]] + Slurp(words[1..])
  }

  function AddTo(p: Parsed, flag: string, x: Operand): Parsed {
    p.(flags := p.flags[flag := (if flag in p.flags then p.flags[flag] else []) + [x]])
  }

  // Buckets the words that are left into what is parsed so far.
  function SliceInto(words: seq<string>, spec: ArgSpec, p: Parsed): Parsed
    decreases |words|
  {
    if words == [] then p
    else
      var w, rest := words[0], words[1..];
      if w in spec then
        match spec[w] {
          case Zero => SliceInto(rest, spec, AddTo(p, w, Present))
          case One => if rest == [] then p else SliceInto(rest[1..], spec, AddTo(p, w, Single(rest[0])))
          case Greedy => SliceInto(rest[|Slurp(rest)|..], spec, AddTo(p, w, Several(Slurp(rest))))
        }
      else if Dashed(w) then
        SliceInto(if rest != [] && !Dashed(rest[0]) then rest[1..] else rest, spec, p)
      else SliceInto(rest, spec, p.(tail := p.tail + [w]))
  }

  // Every flag of the table, not seen yet.
  function NothingSeen(spec: ArgSpec): Parsed {
    Parsed(map f | f in spec :: [], [])
  }

  method SlurpFrom(words: seq<string>, start: nat) returns (slurp: seq<string>, j: nat)
    requires start <= |words|
    ensures slurp == Slurp(words[start..]) && j == start + |slurp|
  {
    slurp, j := [], start;
    while j < |words| && !Dashed(words[j])
      invariant start <= j <= |words| && j == start + |slurp|
      invariant slurp + Slurp(words[j..]) == Slurp(words[start..])
    {
      assert words[j..][0] == words[j] && words[j..][1..] == words[j + 1..];
      Regroup(slurp, [words[j]], Slurp(words[j + 1..]));
      slurp, j := slurp + [words[j]], j + 1;
    }
    assert j < |words| ==> words[j..][0] == words[j];
  }

  // One turn of the loop.
  method SliceStep(words: seq<string>, spec: ArgSpec, p: Parsed, i: nat) returns (p': Parsed, i': nat)
    requires i < |words|
    ensures i < i' <= |words|
    ensures SliceInto(words[i..], spec, p) == SliceInto(words[i'..], spec, p')
  {
    ghost var rest := words[i + 1..];
    assert words[i..][0] == words[i] && words[i..][1..] == rest;
    assert i + 1 < |words| ==> rest[0] == words[i + 1] && rest[1..] == words[i + 2..];
    var w := words[i];
    p', i' := p, i + 1;
    if w in spec {
      match spec[w] {
        case Zero =>
          p' := AddTo(p, w, Present);
        case One =>
          if i + 1 < |words| {
            p', i' := AddTo(p, w, Single(words[i + 1])), i + 2;
          }
        case Greedy =>
          var slurp;
          slurp, i' := SlurpFrom(words, i + 1);
          assert words[i'..] == rest[|slurp|..];
          p' := AddTo(p, w, Several(slurp));
      }
    } else if Dashed(w) {
      if i + 1 < |words| && !Dashed(words[i + 1]) {
        i' := i + 2;
      }
    } else {
      p' := p.(tail := p.tail + [w]);
    }
  }

  method Slice(words: seq<string>, spec: ArgSpec) returns (p: Parsed)
    ensures p == SliceInto(words, spec, NothingSeen(spec))
  {
    p := NothingSeen(spec);
    var i := 0;
    assert words[0..] == words;
    while i < |words|
      invariant 0 <= i <= |words|
      invariant SliceInto(words[i..], spec, p) == SliceInto(words, spec, NothingSeen(spec))
      decreases |words| - i
    {
      p, i := SliceStep(words, spec, p, i);
    }
  }

  // ---- rendering --------------------------------------------------------

  predicate FitsArity(x: Operand, a: Arity) {
    match x
    case Present => a == Zero
    case Single(_) => a == One
    case Several(words) => a == Greedy && forall w :: w in words ==> !Dashed(w)
  }

  function RenderOperand(x: Operand): seq<string> {
    match x
    case Present => []
    case Single(w) => [w]
    case Several(words) => words
  }

  type Occurrence = (string, Operand)

  function RenderFlags(occurrences: seq<Occurrence>): seq<string> {
    if occurrences == [] then []
    else [occurrences[0].0] + RenderOperand(occurrences[0].1) + RenderFlags(occurrences[1..])
  }

  ghost predicate WellFormed(spec: ArgSpec, tail: seq<string>, occurrences: seq<Occurrence>) {
    && ValidSpec(spec)
    && (forall i :: 0 <= i < |tail| ==> !Dashed(tail[i]))
    && (forall i :: 0 <= i < |occurrences| ==>
          occurrences[i].0 in spec && FitsArity(occurrences[i].1, spec[occurrences[i].0]))
  }

  // What a flag collected, in order.
  function OperandsOf(occurrences: seq<Occurrence>, flag: string): seq<Operand> {
    if occurrences == [] then []
    else if occurrences[0].0 == flag then [occurrences[0].1] + OperandsOf(occurrences[1..], flag)
    else OperandsOf(occurrences[1..], flag)
  }

  function Collected(p: Parsed, occurrences: seq<Occurrence>): Parsed
    decreases |occurrences|
  {
    if occurrences == [] then p else Collected(AddTo(p, occurrences[0].0, occurrences[0].1), occurrences[1..])
  }

  lemma {:induction false} SlurpStops(words: seq<string>, rest: seq<string>)
    requires forall i :: 0 <= i < |words| ==> !Dashed(words[i])
    requires rest == [] || Dashed(rest[0])
    ensures Slurp(words + rest) == words
  {
    if words == [] {
      assert words + rest == rest;
    } else {
      assert (words + rest)[1..] == words[1..] + rest;
      SlurpStops(words[1..], rest);
    }
  }

  // One rendered occurrence is read as that occurrence.
  lemma SliceOccurrence(spec: ArgSpec, o: Occurrence, rest: seq<string>, p: Parsed)
    requires o.0 in spec && FitsArity(o.1, spec[o.0]) && (rest == [] || Dashed(rest[0]))
    ensures SliceInto([o.0] + RenderOperand(o.1) + rest, spec, p) == SliceInto(rest, spec, AddTo(p, o.0, o.1))
  {
    var words := [o.0] + RenderOperand(o.1) + rest;
    var tail := RenderOperand(o.1) + rest;
    assert words[0] == o.0 && words[1..] == tail;
    match o.1 {
      case Present => assert tail == rest;
      case Single(w) => assert tail[0] == w && tail[1..] == rest;
      case Several(ws) =>
        SlurpStops(ws, rest);
        assert tail[|ws|..] == rest;
    }
  }

  lemma {:induction false} SliceFlags(spec: ArgSpec, occurrences: seq<Occurrence>, p: Parsed)
    requires WellFormed(spec, [], occurrences)
    ensures SliceInto(RenderFlags(occurrences), spec, p) == Collected(p, occurrences)
    decreases |occurrences|
  {
    if occurrences != [] {
      var rest := occurrences[1..];
      assert RenderFlags(rest) == [] || RenderFlags(rest)[0] == rest[0].0;
      SliceOccurrence(spec, occurrences[0], RenderFlags(rest), p);
      SliceFlags(spec, rest, AddTo(p, occurrences[0].0, occurrences[0].1));
    }
  }

  lemma {:induction false} SliceTail(spec: ArgSpec, tail: seq<string>, rest: seq<string>, p: Parsed)
    requires WellFormed(spec, tail, [])
    ensures SliceInto(tail + rest, spec, p) == SliceInto(rest, spec, p.(tail := p.tail + tail))
    decreases |tail|
  {
    if tail == [] {
      assert tail + rest == rest && p.tail + tail == p.tail;
    } else {
      assert (tail + rest)[1..] == tail[1..] + rest;
      assert tail[0] !in spec;
      SliceTail(spec, tail[1..], rest, p.(tail := p.tail + [tail[0]]));
      assert p.tail + [tail[0]] + tail[1..] == p.tail + tail;
    }
  }

  lemma {:induction false} CollectedKeys(p: Parsed, occurrences: seq<Occurrence>)
    requires forall i :: 0 <= i < |occurrences| ==> occurrences[i].0 in p.flags
    ensures Collected(p, occurrences).flags.Keys == p.flags.Keys && Collected(p, occurrences).tail == p.tail
    decreases |occurrences|
  {
    if occurrences != [] {
      CollectedKeys(AddTo(p, occurrences[0].0, occurrences[0].1), occurrences[1..]);
    }
  }

  lemma {:induction false} CollectedOperands(p: Parsed, occurrences: seq<Occurrence>, f: string)
    requires forall i :: 0 <= i < |occurrences| ==> occurrences[i].0 in p.flags
    requires f in p.flags
    ensures f in Collected(p, occurrences).flags
    ensures Collected(p, occurrences).flags[f] == p.flags[f] + OperandsOf(occurrences, f)
    decreases |occurrences|
  {
    if occurrences != [] {
      var o, next := occurrences[0], AddTo(p, occurrences[0].0, occurrences[0].1);
      CollectedOperands(next, occurrences[1..], f);
      if o.0 == f {
        assert next.flags[f] == p.flags[f] + [o.1];
        Regroup(p.flags[f], [o.1], OperandsOf(occurrences[1..], f));
      } else {
        assert next.flags[f] == p.flags[f];
      }
    }
  }

  // A well-formed tail followed by well-formed flags slices into that tail and,
  // for every flag of the table, its operands in order.
  lemma RenderedSlicesBack(spec: ArgSpec, tail: seq<string>, occurrences: seq<Occurrence>)
    requires WellFormed(spec, tail, occurrences)
    ensures var p := SliceInto(tail + RenderFlags(occurrences), spec, NothingSeen(spec));
      && p.tail == tail && p.flags.Keys == spec.Keys
      && forall f :: f in spec ==> p.flags[f] == OperandsOf(occurrences, f)
  {
    var start := NothingSeen(spec);
    SliceTail(spec, tail, RenderFlags(occurrences), start);
    var p := start.(tail := start.tail + tail);
    SliceFlags(spec, occurrences, p);
    CollectedKeys(p, occurrences);
    forall f | f in spec
      ensures Collected(p, occurrences).flags[f] == OperandsOf(occurrences, f)
    {
      CollectedOperands(p, occurrences, f);
    }
  }

  // ---- a Parsed rendered flag by flag -----------------------------------

  function OccurrencesOf(flag: string, operands: seq<Operand>): (r: seq<Occurrence>)
    ensures |r| == |operands| && forall i :: 0 <= i < |r| ==> r[i] == (flag, operands[i])
  {
    seq(|operands|, i requires 0 <= i < |operands| => (flag, operands[i]))
  }

  function AllOccurrences(flags: map<string, seq<Operand>>, order: seq<string>): seq<Occurrence>
    requires forall f :: f in order ==> f in flags
  {
    if order == [] then [] else OccurrencesOf(order[0], flags[order[0]]) + AllOccurrences(flags, order[1..])
  }

  lemma {:induction false} OperandsConcat(a: seq<Occurrence>, b: seq<Occurrence>, flag: string)
    ensures OperandsOf(a + b, flag) == OperandsOf(a, flag) + OperandsOf(b, flag)
  {
    if a == [] {
      assert a + b == b;
    } else {
      assert (a + b)[1..] == a[1..] + b && (a + b)[0] == a[0];
      OperandsConcat(a[1..], b, flag);
      Regroup([a[0].1], OperandsOf(a[1..], flag), OperandsOf(b, flag));
    }
  }

  lemma {:induction false} OperandsOfOne(flag: string, operands: seq<Operand>, f: string)
    ensures OperandsOf(OccurrencesOf(flag, operands), f) == if f == flag then operands else []
    decreases |operands|
  {
    if operands != [] {
      assert OccurrencesOf(flag, operands)[1..] == OccurrencesOf(flag, operands[1..]);
      OperandsOfOne(flag, operands[1..], f);
    }
  }

  lemma {:induction false} OperandsOfAll(flags: map<string, seq<Operand>>, order: seq<string>, f: string)
    requires forall g :: g in order ==> g in flags
    requires forall i, j :: 0 <= i < j < |order| ==> order[i] != order[j]
    ensures OperandsOf(AllOccurrences(flags, order), f) == if f in order then flags[f] else []
    decreases |order|
  {
    if order != [] {
      OperandsOfAll(flags, order[1..], f);
      OperandsOfOne(order[0], flags[order[0]], f);
      OperandsConcat(OccurrencesOf(order[0], flags[order[0]]), AllOccurrences(flags, order[1..]), f);
    }
  }

  lemma {:induction false} AllFit(spec: ArgSpec, flags: map<string, seq<Operand>>, order: seq<string>)
    requires forall f :: f in order ==> f in flags && f in spec
    requires forall f, i :: f in flags && f in spec && 0 <= i < |flags[f]| ==> FitsArity(flags[f][i], spec[f])
    ensures forall i :: 0 <= i < |AllOccurrences(flags, order)| ==>
      var o := AllOccurrences(flags, order)[i];
      o.0 in spec && FitsArity(o.1, spec[o.0])
    decreases |order|
  {
    if order != [] {
      AllFit(spec, flags, order[1..]);
    }
  }

  // Any Parsed of the table, rendered tail first and then flag by flag in any
  // order, slices back to itself.
  lemma ParsedSlicesBack(spec: ArgSpec, p: Parsed, order: seq<string>)
    requires ValidSpec(spec) && p.flags.Keys == spec.Keys
    requires forall i :: 0 <= i < |p.tail| ==> !Dashed(p.tail[i])
    requires forall f, i :: f in p.flags && 0 <= i < |p.flags[f]| ==> FitsArity(p.flags[f][i], spec[f])
    requires forall f :: f in order <==> f in spec
    requires forall i, j :: 0 <= i < j < |order| ==> order[i] != order[j]
    ensures SliceInto(p.tail + RenderFlags(AllOccurrences(p.flags, order)), spec, NothingSeen(spec)) == p
  {
    var occurrences := AllOccurrences(p.flags, order);
    AllFit(spec, p.flags, order);
    RenderedSlicesBack(spec, p.tail, occurrences);
    var r := SliceInto(p.tail + RenderFlags(occurrences), spec, NothingSeen(spec));
    forall f | f in spec
      ensures r.flags[f] == p.flags[f]
    {
      OperandsOfAll(p.flags, order, f);
    }
    assert r.flags == p.flags;
  }

  // ---- a command in any order -------------------------------------------

  // An occurrence of a flag of the table, a flag it does not know with the operand that goes
  // with it, if any, or a word of the tail.
  datatype Item = Known(flag: string, operand: Operand) | Unknown(name: string, skipped: seq<string>) | Word(w: string)

  function RenderItem(x: Item): seq<string> {
    match x
    case Known(flag, operand) => [flag] + RenderOperand(operand)
    case Unknown(flag, operand) => [flag] + operand
    case Word(w) => [w]
  }

  // The items one after the other, then the words that are left.
  function RenderItems(items: seq<Item>, rest: seq<string>): seq<string> {
    if items == [] then rest else RenderItem(items[0]) + RenderItems(items[1..], rest)
  }

  // The end of the command or a dash follows.
  predicate Closes(rest: seq<string>) {
    rest == [] || Dashed(rest[0])
  }

  // The item stands for itself in front of these words: a greedy flag and an unknown flag
  // without operand take no word that is not theirs.
  ghost predicate StandsBefore(spec: ArgSpec, x: Item, rest: seq<string>) {
    match x
    case Known(flag, operand) => flag in spec && FitsArity(operand, spec[flag]) && (operand.Several? ==> Closes(rest))
    case Unknown(flag, operand) =>
      && Dashed(flag) && flag !in spec
      && if operand == [] then Closes(rest) else |operand| == 1 && !Dashed(operand[0])
    case Word(w) => !Dashed(w)
  }

  ghost predicate AllStand(spec: ArgSpec, items: seq<Item>, rest: seq<string>) {
    forall i :: 0 <= i < |items| ==> StandsBefore(spec, items[i], RenderItems(items[i + 1..], rest))
  }

  // Words of the tail, in order.
  function TailOf(items: seq<Item>): seq<string> {
    if items == [] then [] else (if items[0].Word? then [items[0].w] else []) + TailOf(items[1..])
  }

  // What one flag collects, in order.
  function CollectedBy(items: seq<Item>, flag: string): seq<Operand> {
    if items == [] then []
    else
      (if items[0].Known? && items[0].flag == flag then [items[0].operand] else []) + CollectedBy(items[1..], flag)
  }

  function WithItem(p: Parsed, x: Item): Parsed {
    match x
    case Known(flag, operand) => AddTo(p, flag, operand)
    case Unknown(_, _) => p
    case Word(w) => p.(tail := p.tail + [w])
  }

  lemma SliceItem(spec: ArgSpec, x: Item, rest: seq<string>, p: Parsed)
    requires ValidSpec(spec) && StandsBefore(spec, x, rest)
    ensures SliceInto(RenderItem(x) + rest, spec, p) == SliceInto(rest, spec, WithItem(p, x))
  {
    var words := RenderItem(x) + rest;
    match x {
      case Known(flag, operand) =>
        if operand.Several? {
          SliceOccurrence(spec, (flag, operand), rest, p);
        } else {
          assert words[1..] == RenderOperand(operand) + rest;
          assert operand.Single? ==> words[1..][0] == operand.word && words[1..][1..] == rest;
        }
      case Unknown(flag, operand) =>
        assert words[1..] == operand + rest;
        assert operand != [] ==> words[1..][0] == operand[0] && words[1..][1..] == rest;
      case Word(w) => assert words[1..] == rest;
    }
  }

  // A flag that wants an operand and stands last is dropped.
  lemma MissingOperandIsDropped(spec: ArgSpec, missing: seq<string>, p: Parsed)
    requires missing == [] || (|missing| == 1 && missing[0] in spec && spec[missing[0]] == One)
    ensures SliceInto(missing, spec, p) == p
  {
  }

  // r is p with what the items bring.
  ghost predicate Brings(spec: ArgSpec, p: Parsed, items: seq<Item>, r: Parsed) {
    && p.flags.Keys == spec.Keys == r.flags.Keys && r.tail == p.tail + TailOf(items)
    && forall f :: f in spec ==> r.flags[f] == p.flags[f] + CollectedBy(items, f)
  }

  lemma AddedOperand(p: Parsed, flag: string, operand: Operand, rest: seq<Operand>, f: string)
    requires flag in p.flags && f in p.flags
    ensures AddTo(p, flag, operand).flags[f] + rest == p.flags[f] + ((if flag == f then [operand] else []) + rest)
  {
    if f == flag {
      Regroup(p.flags[f], [operand], rest);
    } else {
      assert [] + rest == rest;
    }
  }

  lemma BringsOneMore(spec: ArgSpec, p: Parsed, items: seq<Item>, r: Parsed)
    requires items != [] && p.flags.Keys == spec.Keys && (items[0].Known? ==> items[0].flag in spec)
    requires Brings(spec, WithItem(p, items[0]), items[1..], r)
    ensures Brings(spec, p, items, r)
  {
    var x, rest := items[0], items[1..];
    if x.Word? {
      Regroup(p.tail, [x.w], TailOf(rest));
    } else {
      assert [] + TailOf(rest) == TailOf(rest);
    }
    forall f | f in spec ensures r.flags[f] == p.flags[f] + CollectedBy(items, f) {
      assert r.flags[f] == WithItem(p, x).flags[f] + CollectedBy(rest, f);
      if x.Known? {
        AddedOperand(p, x.flag, x.operand, CollectedBy(rest, f), f);
      } else {
        assert [] + CollectedBy(rest, f) == CollectedBy(rest, f);
      }
    }
  }

  lemma RestStands(spec: ArgSpec, items: seq<Item>, missing: seq<string>)
    requires items != [] && AllStand(spec, items, missing)
    ensures StandsBefore(spec, items[0], RenderItems(items[1..], missing)) && AllStand(spec, items[1..], missing)
  {
    var rest := items[1..];
    assert StandsBefore(spec, items[0], RenderItems(items[0 + 1..], missing));
    forall i | 0 <= i < |rest| ensures StandsBefore(spec, rest[i], RenderItems(rest[i + 1..], missing)) {
      assert rest[i + 1..] == items[i + 1 + 1..];
      assert StandsBefore(spec, items[i + 1], RenderItems(items[i + 1 + 1..], missing));
    }
  }

  lemma {:induction false} SliceItems(spec: ArgSpec, items: seq<Item>, missing: seq<string>, p: Parsed)
    requires ValidSpec(spec) && AllStand(spec, items, missing) && p.flags.Keys == spec.Keys
    requires missing == [] || (|missing| == 1 && missing[0] in spec && spec[missing[0]] == One)
    ensures Brings(spec, p, items, SliceInto(RenderItems(items, missing), spec, p))
    decreases |items|
  {
    if items == [] {
      MissingOperandIsDropped(spec, missing, p);
    } else {
      RestStands(spec, items, missing);
      SliceItem(spec, items[0], RenderItems(items[1..], missing), p);
      SliceItems(spec, items[1..], missing, WithItem(p, items[0]));
      BringsOneMore(spec, p, items, SliceInto(RenderItems(items, missing), spec, p));
    }
  }

  // A command of flags, unknown flags and tail words in any order, perhaps ending in a flag
  // whose operand is missing: every flag of the table collects its operands in order, the
  // tail its words, and the unknown flags leave nothing.
  lemma ItemsSliceBack(spec: ArgSpec, items: seq<Item>, missing: seq<string>)
    requires ValidSpec(spec) && AllStand(spec, items, missing)
    requires missing == [] || (|missing| == 1 && missing[0] in spec && spec[missing[0]] == One)
    ensures var p := SliceInto(RenderItems(items, missing), spec, NothingSeen(spec));
      && p.tail == TailOf(items) && p.flags.Keys == spec.Keys
      && forall f :: f in spec ==> p.flags[f] == CollectedBy(items, f)
  {
    SliceItems(spec, items, missing, NothingSeen(spec));
  }
}
