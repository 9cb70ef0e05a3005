/**
 The compositional boundary walk.  Each module type is summarised once per map
 from clock pins to roots and later instances are served from the cache; the
 walk must give what summarising every instance afresh would, and account for
 every instance.
 */
module Composition {
  import opened Netlist
  import opened ClockGraph
  import opened Crossings
  import opened BoundarySummaries

  type Key = (string, PinMap)

  // `analyse` is the standalone pass on a module's own cells, `primitive` the
  // summary of a recognised synchroniser macro and `offenders` the outputs of an
  // instance that drive a clock.
  datatype Env = Env(
    top: Module,
    blackboxes: map<string, Module>,
    parent: Parent,
    analyse: Key -> Option<ModuleAnalysis>,
    isPrimitive: string -> bool,
    primitive: nat -> Option<BoundarySummary>,
    offenders: nat -> set<string>
  )

  // The standalone pass describes every port but the traced clock pins.
  ghost predicate ValidEnv(e: Env) {
    && ValidSpec(e.parent.spec)
    && forall key: Key :: key.0 in e.blackboxes && e.analyse(key).Some? ==>
         Describes(e.analyse(key).value, e.blackboxes[key.0], key.1.Keys)
  }

  predicate IsBoundary(e: Env, i: nat) {
    i < |e.top.cells| && e.top.cells[i].ctype in e.blackboxes
  }

  function TypeOf(e: Env, i: nat): string
    requires i < |e.top.cells|
  {
    e.top.cells[i].ctype
  }

  function KeyOf(e: Env, i: nat): Key
    requires ValidSpec(e.parent.spec) && IsBoundary(e, i)
  {
    (TypeOf(e, i), PinRootsOf(e.parent, e.top.cells[i], e.blackboxes[TypeOf(e, i)]))
  }

  // Some instance of the type has an output that drives a clock.
  ghost predicate ForwardsClock(e: Env, ctype: string) {
    exists i: nat :: IsBoundary(e, i) && TypeOf(e, i) == ctype && e.offenders(i) != {}
  }

  datatype Outcome = ClockOutput | Primitive(s: BoundarySummary) | Generic(key: Key)

  ghost function OutcomeOf(e: Env, i: nat): Outcome
    requires ValidSpec(e.parent.spec) && IsBoundary(e, i)
  {
    if ForwardsClock(e, TypeOf(e, i)) then ClockOutput
    else if e.isPrimitive(TypeOf(e, i)) && e.primitive(i).Some? then Primitive(e.primitive(i).value)
    else Generic(KeyOf(e, i))
  }

  // What summarising an instance of the key without a cache may give.
  ghost predicate IsFresh(e: Env, key: Key, r: Option<BoundarySummary>) {
    key.0 in e.blackboxes && IsSummary(e.parent.spec, e.blackboxes[key.0], key.1, e.analyse(key), r)
  }

  // ---- the state of the walk --------------------------------------------

  datatype State = State(
    out: map<nat, BoundarySummary>,
    seen: map<Key, Option<BoundarySummary>>,
    instances: nat,
    cacheHits: nat,
    declined: set<string>,
    ambiguous: set<string>,
    unresolved: set<string>,
    lifted: map<Key, seq<nat>>
  )

  // Instance j has been dealt with as its outcome says.
  ghost predicate Placed(e: Env, st: State, j: nat)
    requires ValidSpec(e.parent.spec) && IsBoundary(e, j)
  {
    match OutcomeOf(e, j)
    case ClockOutput => j !in st.out && TypeOf(e, j) in st.declined
    case Primitive(s) => j in st.out && st.out[j] == s
    case Generic(key) =>
      && key in st.seen
      && (st.seen[key].Some? ==> j in st.out && st.out[j] == st.seen[key].value)
      && (st.seen[key].None? ==> j !in st.out && TypeOf(e, j) in st.declined)
  }

  ghost predicate IsGeneric(e: Env, j: nat, key: Key)
    requires ValidSpec(e.parent.spec)
  {
    IsBoundary(e, j) && OutcomeOf(e, j) == Generic(key)
  }

  // Declined with internals at hand, and whether those were resolved.
  ghost predicate DeclinedInside(e: Env, st: State, j: nat, t: string, resolved: bool)
    requires ValidSpec(e.parent.spec)
  {
    && IsBoundary(e, j) && TypeOf(e, j) == t && OutcomeOf(e, j).Generic?
    && var key := OutcomeOf(e, j).key;
       && key in st.seen && st.seen[key].None?
       && e.analyse(key).Some? && e.analyse(key).value.resolved == resolved
  }

  ghost predicate Placement(e: Env, st: State, i: nat)
    requires ValidSpec(e.parent.spec)
  {
    && (forall j: nat {:trigger Placed(e, st, j)} :: j < i && IsBoundary(e, j) ==> Placed(e, st, j))
    && (forall j: nat :: j in st.out ==> j < i && IsBoundary(e, j))
    && (forall key {:trigger IsFresh(e, key, st.seen[key])} :: key in st.seen ==> IsFresh(e, key, st.seen[key]))
    && (forall key :: key in st.seen ==> exists j: nat :: j < i && IsGeneric(e, j, key))
    && (forall t :: t in st.declined ==> exists j: nat :: j < i && DeclinedAt(e, st, j, t))
  }

  ghost predicate DeclinedAt(e: Env, st: State, j: nat, t: string) {
    IsBoundary(e, j) && TypeOf(e, j) == t && j !in st.out
  }

  // ---- one instance -----------------------------------------------------

  function WithSeen(st: State, key: Key, r: Option<BoundarySummary>): State {
    if key in st.seen then st.(instances := st.instances + 1, cacheHits := st.cacheHits + 1)
    else st.(instances := st.instances + 1, seen := st.seen[key := r])
  }

  function Settled(st: State, i: nat, key: Key, a: Option<ModuleAnalysis>): State
    requires key in st.seen
  {
    if st.seen[key].None? then
      st.(declined := st.declined + {key.0},
          ambiguous := if a.Some? && a.value.resolved then st.ambiguous + {key.0} else st.ambiguous,
          unresolved := if a.Some? && !a.value.resolved then st.unresolved + {key.0} else st.unresolved)
    else
      st.(out := st.out[i := st.seen[key].value],
          lifted := if a.Some?
                    then st.lifted[key := (if key in st.lifted then st.lifted[key] else []) + [i]]
                    else st.lifted)
  }

  method SummariseAfresh(e: Env, i: nat) returns (r: Option<BoundarySummary>)
    requires ValidEnv(e) && IsBoundary(e, i)
    ensures IsFresh(e, KeyOf(e, i), r)
  {
    var key := KeyOf(e, i);
    r := SummariseSubtree(e.parent, e.top.cells[i], e.blackboxes[key.0], e.analyse(key));
  }

  // The cached summary of the key, or a fresh one that is then cached.
  method LookUp(e: Env, st: State, i: nat, key: Key) returns (st': State, summary: Option<BoundarySummary>)
    requires ValidEnv(e) && IsBoundary(e, i) && key == KeyOf(e, i)
    ensures key in st.seen || IsFresh(e, key, summary)
    ensures st' == WithSeen(st, key, summary) && st'.seen[key] == summary
  {
    if key in st.seen {
      summary := st.seen[key];
      st' := st.(instances := st.instances + 1, cacheHits := st.cacheHits + 1);
    } else {
      summary := SummariseAfresh(e, i);
      st' := st.(instances := st.instances + 1, seen := st.seen[key := summary]);
    }
  }

  method VisitGeneric(e: Env, st: State, i: nat) returns (st': State, ghost r: Option<BoundarySummary>)
    requires ValidEnv(e) && IsBoundary(e, i)
    ensures KeyOf(e, i) in st.seen || IsFresh(e, KeyOf(e, i), r)
    ensures st' == Settled(WithSeen(st, KeyOf(e, i), r), i, KeyOf(e, i), e.analyse(KeyOf(e, i)))
  {
    var ctype := TypeOf(e, i);
    var ic := FindInstanceClocks(e.parent, e.top.cells[i], e.blackboxes[ctype]);
    var key := (ctype, ic.pinRoots);
    var analysis := e.analyse(key);
    var summary;
    st', summary := LookUp(e, st, i, key);
    r := summary;
    if summary.None? {
      st' := st'.(declined := st'.declined + {ctype});
      if analysis.Some? {
        if analysis.value.resolved {
          st' := st'.(ambiguous := st'.ambiguous + {ctype});
        } else {
          st' := st'.(unresolved := st'.unresolved + {ctype});
        }
      }
    } else {
      st' := st'.(out := st'.out[i := summary.value]);
      if analysis.Some? {
        st' := st'.(lifted := st'.lifted[key := (if key in st'.lifted then st'.lifted[key] else []) + [i]]);
      }
    }
  }

  // ---- every step keeps the placement -----------------------------------

  lemma StillPlaced(e: Env, st: State, st': State, j: nat)
    requires ValidSpec(e.parent.spec) && IsBoundary(e, j) && Placed(e, st, j)
    requires st.declined <= st'.declined
    requires (j in st.out <==> j in st'.out) && (j in st.out ==> st'.out[j] == st.out[j])
    requires forall key :: key in st.seen ==> key in st'.seen && st'.seen[key] == st.seen[key]
    ensures Placed(e, st', j)
  {
  }

  // A step at i touches no earlier instance and forgets nothing.
  ghost predicate Extends(st: State, st': State, i: nat) {
    && st.declined <= st'.declined
    && (forall key :: key in st.seen ==> key in st'.seen && st'.seen[key] == st.seen[key])
    && (forall j: nat :: j != i ==> (j in st.out <==> j in st'.out) && (j in st.out ==> st'.out[j] == st.out[j]))
  }

  lemma StepKeepsPlacement(e: Env, st: State, st': State, i: nat)
    requires ValidSpec(e.parent.spec) && Placement(e, st, i) && Extends(st, st', i)
    requires IsBoundary(e, i) ==> Placed(e, st', i)
    requires !IsBoundary(e, i) ==> st' == st
    requires i in st'.out ==> IsBoundary(e, i)
    requires forall key :: key in st'.seen && key !in st.seen ==> IsFresh(e, key, st'.seen[key]) && IsGeneric(e, i, key)
    requires forall t :: t in st'.declined && t !in st.declined ==> DeclinedAt(e, st', i, t)
    ensures Placement(e, st', i + 1)
  {
    forall j: nat | j < i + 1 && IsBoundary(e, j)
      ensures Placed(e, st', j)
    {
      if j < i {
        assert Placed(e, st, j);
        StillPlaced(e, st, st', j);
      }
    }
    forall t | t in st'.declined
      ensures exists j: nat :: j < i + 1 && DeclinedAt(e, st', j, t)
    {
      if t in st.declined {
        var j: nat :| j < i && DeclinedAt(e, st, j, t);
        assert DeclinedAt(e, st', j, t);
      }
    }
    forall key | key in st'.seen
      ensures IsFresh(e, key, st'.seen[key])
      ensures exists j: nat :: j < i + 1 && IsGeneric(e, j, key)
    {
      if key in st.seen {
        var j: nat :| j < i && IsGeneric(e, j, key);
      }
    }
  }

  lemma GenericKeepsPlacement(e: Env, st: State, i: nat, r: Option<BoundarySummary>)
    requires ValidEnv(e) && IsBoundary(e, i) && Placement(e, st, i)
    requires OutcomeOf(e, i) == Generic(KeyOf(e, i))
    requires KeyOf(e, i) in st.seen || IsFresh(e, KeyOf(e, i), r)
    ensures Placement(e, Settled(WithSeen(st, KeyOf(e, i), r), i, KeyOf(e, i), e.analyse(KeyOf(e, i))), i + 1)
  {
    var key := KeyOf(e, i);
    var st' := Settled(WithSeen(st, key, r), i, key, e.analyse(key));
    assert i !in st.out;
    assert IsGeneric(e, i, key);
    assert st'.seen[key].None? ==> DeclinedAt(e, st', i, key.0);
    assert Placed(e, st', i);
    StepKeepsPlacement(e, st, st', i);
  }

  lemma ClockOutputKeepsPlacement(e: Env, st: State, i: nat)
    requires ValidEnv(e) && IsBoundary(e, i) && Placement(e, st, i) && OutcomeOf(e, i) == ClockOutput
    ensures Placement(e, st.(instances := st.instances + 1, declined := st.declined + {TypeOf(e, i)}), i + 1)
  {
    var st' := st.(instances := st.instances + 1, declined := st.declined + {TypeOf(e, i)});
    assert i !in st.out;
    assert DeclinedAt(e, st', i, TypeOf(e, i));
    StepKeepsPlacement(e, st, st', i);
  }

  lemma PrimitiveKeepsPlacement(e: Env, st: State, i: nat)
    requires ValidEnv(e) && IsBoundary(e, i) && Placement(e, st, i) && OutcomeOf(e, i).Primitive?
    ensures Placement(e, st.(instances := st.instances + 1, out := st.out[i := OutcomeOf(e, i).s]), i + 1)
  {
    var st' := st.(instances := st.instances + 1, out := st.out[i := OutcomeOf(e, i).s]);
    StepKeepsPlacement(e, st, st', i);
  }

  // ---- counting ---------------------------------------------------------

  datatype Tally = Tally(instances: nat, clockOutputs: nat, primitives: nat)

  // Instances among the first i, and those the cache never sees.
  ghost function TallyBelow(e: Env, i: nat): Tally
    requires ValidSpec(e.parent.spec)
  {
    if i == 0 then Tally(0, 0, 0)
    else
      var t := TallyBelow(e, i - 1);
      if !IsBoundary(e, i - 1) then t
      else match OutcomeOf(e, i - 1) {
        case ClockOutput => Tally(t.instances + 1, t.clockOutputs + 1, t.primitives)
        case Primitive(_) => Tally(t.instances + 1, t.clockOutputs, t.primitives + 1)
        case Generic(_) => t.(instances := t.instances + 1)
      }
  }

  ghost predicate Counted(e: Env, st: State, i: nat)
    requires ValidSpec(e.parent.spec)
  {
    var t := TallyBelow(e, i);
    st.instances == t.instances && st.instances == t.clockOutputs + t.primitives + st.cacheHits + |st.seen|
  }

  // ---- what is reported about analysed internals ------------------------

  predicate Lists(lifted: map<Key, seq<nat>>, key: Key, j: nat) {
    key in lifted && j in lifted[key]
  }

  // Summarised with internals at hand.
  ghost predicate AnalysedUnder(e: Env, st: State, j: nat, key: Key)
    requires ValidSpec(e.parent.spec)
  {
    IsGeneric(e, j, key) && key in st.seen && st.seen[key].Some? && e.analyse(key).Some?
  }

  ghost predicate Increasing(s: seq<nat>) {
    forall a, b :: 0 <= a < b < |s| ==> s[a] < s[b]
  }

  ghost predicate Reported(e: Env, st: State, i: nat)
    requires ValidSpec(e.parent.spec)
  {
    ListsReported(e, st, i) && TypesReported(e, st, i)
  }

  ghost predicate ListsReported(e: Env, st: State, i: nat)
    requires ValidSpec(e.parent.spec)
  {
    && (forall key: Key, j: nat :: Lists(st.lifted, key, j) <==> j < i && AnalysedUnder(e, st, j, key))
    && (forall key :: key in st.lifted ==> Increasing(st.lifted[key]))
  }

  ghost predicate TypesReported(e: Env, st: State, i: nat)
    requires ValidSpec(e.parent.spec)
  {
    && (forall t :: t in st.ambiguous <==> exists j: nat :: j < i && DeclinedInside(e, st, j, t, true))
    && (forall t :: t in st.unresolved <==> exists j: nat :: j < i && DeclinedInside(e, st, j, t, false))
  }

  // What is reported about an instance already placed does not change.
  lemma ReportStands(e: Env, st: State, st': State, j: nat)
    requires ValidSpec(e.parent.spec) && IsBoundary(e, j) && Placed(e, st, j)
    requires forall key :: key in st.seen ==> key in st'.seen && st'.seen[key] == st.seen[key]
    ensures forall key :: AnalysedUnder(e, st, j, key) <==> AnalysedUnder(e, st', j, key)
    ensures forall t, b :: DeclinedInside(e, st, j, t, b) <==> DeclinedInside(e, st', j, t, b)
  {
  }

  lemma ReportsStand(e: Env, st: State, st': State, i: nat)
    requires ValidSpec(e.parent.spec) && Placement(e, st, i)
    requires forall key :: key in st.seen ==> key in st'.seen && st'.seen[key] == st.seen[key]
    ensures forall j: nat, key :: j < i ==> (AnalysedUnder(e, st, j, key) <==> AnalysedUnder(e, st', j, key))
    ensures forall j: nat, t, b :: j < i ==> (DeclinedInside(e, st, j, t, b) <==> DeclinedInside(e, st', j, t, b))
  {
    forall j: nat | j < i && IsBoundary(e, j)
      ensures forall key :: AnalysedUnder(e, st, j, key) <==> AnalysedUnder(e, st', j, key)
      ensures forall t, b :: DeclinedInside(e, st, j, t, b) <==> DeclinedInside(e, st', j, t, b)
    {
      assert Placed(e, st, j);
      ReportStands(e, st, st', j);
    }
  }

  // The type set gains the new instance's type exactly when the instance qualifies.
  lemma TypesStep(e: Env, st: State, st': State, i: nat, b: bool, types: set<string>, types': set<string>)
    requires ValidSpec(e.parent.spec)
    requires forall j: nat, t :: j < i ==> (DeclinedInside(e, st, j, t, b) <==> DeclinedInside(e, st', j, t, b))
    requires forall t :: t in types <==> exists j: nat :: j < i && DeclinedInside(e, st, j, t, b)
    requires forall t :: t in types' <==> t in types || DeclinedInside(e, st', i, t, b)
    ensures forall t :: t in types' <==> exists j: nat :: j < i + 1 && DeclinedInside(e, st', j, t, b)
  {
    forall t
      ensures t in types' <==> exists j: nat :: j < i + 1 && DeclinedInside(e, st', j, t, b)
    {
      if t in types {
        var j: nat :| j < i && DeclinedInside(e, st, j, t, b);
        assert DeclinedInside(e, st', j, t, b);
      }
      if exists j: nat :: j < i + 1 && DeclinedInside(e, st', j, t, b) {
        var j: nat :| j < i + 1 && DeclinedInside(e, st', j, t, b);
        assert j < i ==> DeclinedInside(e, st, j, t, b);
      }
    }
  }

  lemma ListsStep(e: Env, st: State, st': State, i: nat)
    requires ValidSpec(e.parent.spec)
    requires forall j: nat, key :: j < i ==> (AnalysedUnder(e, st, j, key) <==> AnalysedUnder(e, st', j, key))
    requires forall key: Key, j: nat :: Lists(st.lifted, key, j) <==> j < i && AnalysedUnder(e, st, j, key)
    requires forall key: Key, j: nat :: Lists(st'.lifted, key, j) <==>
        Lists(st.lifted, key, j) || (j == i && AnalysedUnder(e, st', i, key))
    ensures forall key: Key, j: nat :: Lists(st'.lifted, key, j) <==> j < i + 1 && AnalysedUnder(e, st', j, key)
  {
    forall key: Key, j: nat
      ensures Lists(st'.lifted, key, j) <==> j < i + 1 && AnalysedUnder(e, st', j, key)
    {
      assert Lists(st.lifted, key, j) <==> j < i && AnalysedUnder(e, st, j, key);
    }
  }

  lemma QuietKeepsReports(e: Env, st: State, st': State, i: nat)
    requires ValidSpec(e.parent.spec) && Placement(e, st, i) && Reported(e, st, i)
    requires st'.seen == st.seen && st'.lifted == st.lifted
    requires st'.ambiguous == st.ambiguous && st'.unresolved == st.unresolved
    requires IsBoundary(e, i) ==> !OutcomeOf(e, i).Generic?
    ensures Reported(e, st', i + 1)
  {
    ReportsStand(e, st, st', i);
    ListsStep(e, st, st', i);
    TypesStep(e, st, st', i, true, st.ambiguous, st'.ambiguous);
    TypesStep(e, st, st', i, false, st.unresolved, st'.unresolved);
  }

  lemma GenericKeepsReports(e: Env, st: State, st': State, i: nat, r: Option<BoundarySummary>)
    requires ValidEnv(e) && IsBoundary(e, i) && Placement(e, st, i) && Reported(e, st, i)
    requires OutcomeOf(e, i) == Generic(KeyOf(e, i))
    requires st' == Settled(WithSeen(st, KeyOf(e, i), r), i, KeyOf(e, i), e.analyse(KeyOf(e, i)))
    ensures Reported(e, st', i + 1)
  {
    ReportsStand(e, st, st', i);
    GenericKeepsTypes(e, st, st', i, r);
    GenericKeepsLists(e, st, st', i, r);
  }

  lemma GenericKeepsTypes(e: Env, st: State, st': State, i: nat, r: Option<BoundarySummary>)
    requires ValidEnv(e) && IsBoundary(e, i) && TypesReported(e, st, i)
    requires OutcomeOf(e, i) == Generic(KeyOf(e, i))
    requires st' == Settled(WithSeen(st, KeyOf(e, i), r), i, KeyOf(e, i), e.analyse(KeyOf(e, i)))
    requires forall j: nat, t, b :: j < i ==> (DeclinedInside(e, st, j, t, b) <==> DeclinedInside(e, st', j, t, b))
    ensures TypesReported(e, st', i + 1)
  {
    TypesGrow(e, st, st', i, r);
    TypesStep(e, st, st', i, true, st.ambiguous, st'.ambiguous);
    TypesStep(e, st, st', i, false, st.unresolved, st'.unresolved);
  }

  lemma TypesGrow(e: Env, st: State, st': State, i: nat, r: Option<BoundarySummary>)
    requires ValidEnv(e) && IsBoundary(e, i) && OutcomeOf(e, i) == Generic(KeyOf(e, i))
    requires st' == Settled(WithSeen(st, KeyOf(e, i), r), i, KeyOf(e, i), e.analyse(KeyOf(e, i)))
    ensures forall t :: t in st'.ambiguous <==> t in st.ambiguous || DeclinedInside(e, st', i, t, true)
    ensures forall t :: t in st'.unresolved <==> t in st.unresolved || DeclinedInside(e, st', i, t, false)
  {
    NewTypes(e, st', i, KeyOf(e, i));
  }

  lemma GenericKeepsLists(e: Env, st: State, st': State, i: nat, r: Option<BoundarySummary>)
    requires ValidEnv(e) && IsBoundary(e, i) && ListsReported(e, st, i)
    requires OutcomeOf(e, i) == Generic(KeyOf(e, i))
    requires st' == Settled(WithSeen(st, KeyOf(e, i), r), i, KeyOf(e, i), e.analyse(KeyOf(e, i)))
    requires forall j: nat, key :: j < i ==> (AnalysedUnder(e, st, j, key) <==> AnalysedUnder(e, st', j, key))
    ensures ListsReported(e, st', i + 1)
  {
    NewTypes(e, st', i, KeyOf(e, i));
    GrowsAtEnd(e, st, st', i, KeyOf(e, i));
    ListsStep(e, st, st', i);
  }

  lemma NewTypes(e: Env, st: State, i: nat, key: Key)
    requires ValidEnv(e) && IsBoundary(e, i) && OutcomeOf(e, i) == Generic(key) && key.0 == TypeOf(e, i)
    requires key in st.seen
    ensures forall t, b :: DeclinedInside(e, st, i, t, b) <==>
      t == key.0 && st.seen[key].None? && e.analyse(key).Some? && e.analyse(key).value.resolved == b
    ensures AnalysedUnder(e, st, i, key) <==> st.seen[key].Some? && e.analyse(key).Some?
  {
  }

  // The new instance goes last under its key.
  lemma GrowsAtEnd(e: Env, st: State, st': State, i: nat, key: Key)
    requires ValidEnv(e) && IsBoundary(e, i) && OutcomeOf(e, i) == Generic(key)
    requires forall k: Key, j: nat :: Lists(st.lifted, k, j) ==> j < i
    requires forall k :: k in st.lifted ==> Increasing(st.lifted[k])
    requires st'.lifted == if AnalysedUnder(e, st', i, key)
      then st.lifted[key := (if key in st.lifted then st.lifted[key] else []) + [i]] else st.lifted
    ensures forall k: Key, j: nat :: Lists(st'.lifted, k, j) <==>
        Lists(st.lifted, k, j) || (j == i && AnalysedUnder(e, st', i, k))
    ensures forall k :: k in st'.lifted ==> Increasing(st'.lifted[k])
  {
    if AnalysedUnder(e, st', i, key) {
      var was := if key in st.lifted then st.lifted[key] else [];
      forall a | 0 <= a < |was|
        ensures was[a] < i
      {
        assert Lists(st.lifted, key, was[a]);
      }
    }
  }

  // ---- the walk ---------------------------------------------------------

  // Module types, and their ports, that forward a clock.
  method ClockOutputs(e: Env) returns (modules: set<string>, pairs: set<(string, string)>)
    ensures forall t :: t in modules <==> ForwardsClock(e, t)
    ensures forall t, p :: (t, p) in pairs <==>
        exists i: nat :: IsBoundary(e, i) && TypeOf(e, i) == t && p in e.offenders(i)
  {
    modules, pairs := {}, {};
    for i := 0 to |e.top.cells|
      invariant forall t :: t in modules <==>
          exists j: nat :: j < i && IsBoundary(e, j) && TypeOf(e, j) == t && e.offenders(j) != {}
      invariant forall t, p :: (t, p) in pairs <==>
          exists j: nat :: j < i && IsBoundary(e, j) && TypeOf(e, j) == t && p in e.offenders(j)
    {
      if TypeOf(e, i) in e.blackboxes {
        var offenders := e.offenders(i);
        if offenders != {} {
          modules := modules + {TypeOf(e, i)};
          pairs := pairs + set p | p in offenders :: (TypeOf(e, i), p);
        }
      }
    }
  }

  ghost predicate WalkedTo(e: Env, st: State, i: nat)
    requires ValidSpec(e.parent.spec)
  {
    Placement(e, st, i) && Counted(e, st, i) && Reported(e, st, i)
  }

  lemma SkipStep(e: Env, st: State, i: nat)
    requires ValidEnv(e) && i < |e.top.cells| && WalkedTo(e, st, i) && !IsBoundary(e, i)
    ensures WalkedTo(e, st, i + 1)
  {
    StepKeepsPlacement(e, st, st, i);
    QuietKeepsReports(e, st, st, i);
  }

  lemma ClockOutputStep(e: Env, st: State, st': State, i: nat)
    requires ValidEnv(e) && WalkedTo(e, st, i) && IsBoundary(e, i) && OutcomeOf(e, i) == ClockOutput
    requires st' == st.(instances := st.instances + 1, declined := st.declined + {TypeOf(e, i)})
    ensures WalkedTo(e, st', i + 1)
  {
    ClockOutputKeepsPlacement(e, st, i);
    QuietKeepsReports(e, st, st', i);
  }

  lemma PrimitiveStep(e: Env, st: State, st': State, i: nat)
    requires ValidEnv(e) && WalkedTo(e, st, i) && IsBoundary(e, i) && OutcomeOf(e, i).Primitive?
    requires st' == st.(instances := st.instances + 1, out := st.out[i := OutcomeOf(e, i).s])
    ensures WalkedTo(e, st', i + 1)
  {
    PrimitiveKeepsPlacement(e, st, i);
    QuietKeepsReports(e, st, st', i);
  }

  lemma GenericStep(e: Env, st: State, st': State, i: nat, r: Option<BoundarySummary>)
    requires ValidEnv(e) && WalkedTo(e, st, i) && IsBoundary(e, i) && OutcomeOf(e, i) == Generic(KeyOf(e, i))
    requires KeyOf(e, i) in st.seen || IsFresh(e, KeyOf(e, i), r)
    requires st' == Settled(WithSeen(st, KeyOf(e, i), r), i, KeyOf(e, i), e.analyse(KeyOf(e, i)))
    ensures WalkedTo(e, st', i + 1)
  {
    GenericKeepsPlacement(e, st, i, r);
    GenericKeepsReports(e, st, st', i, r);
  }

  method Visit(e: Env, clockOut: set<string>, st: State, i: nat) returns (st': State)
    requires ValidEnv(e) && i < |e.top.cells| && WalkedTo(e, st, i)
    requires forall t :: t in clockOut <==> ForwardsClock(e, t)
    ensures WalkedTo(e, st', i + 1)
  {
    var t := TypeOf(e, i);
    if t !in e.blackboxes {
      SkipStep(e, st, i);
      return st;
    }
    if t in clockOut {
      st' := st.(instances := st.instances + 1, declined := st.declined + {t});
      ClockOutputStep(e, st, st', i);
      return;
    }
    if e.isPrimitive(t) {
      var prim := e.primitive(i);
      if prim.Some? {
        st' := st.(instances := st.instances + 1, out := st.out[i := prim.value]);
        PrimitiveStep(e, st, st', i);
        return;
      }
    }
    ghost var r;
    st', r := VisitGeneric(e, st, i);
    GenericStep(e, st, st', i, r);
  }

  method ComposeBoundaries(e: Env) returns (st: State)
    requires ValidEnv(e)
    ensures WalkedTo(e, st, |e.top.cells|)
  {
    st := State(map[], map[], 0, 0, {}, {}, {}, map[]);
    var clockOut, pairs := ClockOutputs(e);
    for i := 0 to |e.top.cells|
      invariant WalkedTo(e, st, i)
    {
      st := Visit(e, clockOut, st, i);
    }
  }

  // ---- what the walk promises -------------------------------------------

  // The summary an instance ends up with, if any.
  function Given(st: State, i: nat): Option<BoundarySummary> {
    if i in st.out then Some(st.out[i]) else None
  }

  // Every instance the cache serves has what summarising it afresh may give, and
  // instances of one key have the very same.
  lemma CacheIsTransparent(e: Env, st: State, i: nat, j: nat)
    requires ValidEnv(e) && WalkedTo(e, st, |e.top.cells|)
    requires IsBoundary(e, i) && OutcomeOf(e, i).Generic?
    ensures IsFresh(e, KeyOf(e, i), Given(st, i))
    ensures IsGeneric(e, j, KeyOf(e, i)) ==> Given(st, j) == Given(st, i)
  {
    assert Placed(e, st, i);
    if IsGeneric(e, j, KeyOf(e, i)) {
      assert Placed(e, st, j);
    }
  }

  // What every instance ends up with, by its own pins alone.  Declined if some instance of its
  // type drives a clock; else the macro summary if its type is a macro and has one; else what
  // a fresh summary of its module under the clocks found on its own pins may be.
  lemma GivenByInstance(e: Env, st: State, i: nat)
    requires ValidEnv(e) && WalkedTo(e, st, |e.top.cells|)
    requires i < |e.top.cells| && e.top.cells[i].ctype in e.blackboxes
    ensures var t := e.top.cells[i].ctype;
      var pins := PinRootsOf(e.parent, e.top.cells[i], e.blackboxes[t]);
      if exists j :: 0 <= j < |e.top.cells| && e.top.cells[j].ctype == t && e.offenders(j) != {} then
        Given(st, i).None? && t in st.declined
      else if e.isPrimitive(t) && e.primitive(i).Some? then Given(st, i) == e.primitive(i)
      else IsSummary(e.parent.spec, e.blackboxes[t], pins, e.analyse((t, pins)), Given(st, i))
  {
    var t := e.top.cells[i].ctype;
    assert Placed(e, st, i);
    assert (exists j :: 0 <= j < |e.top.cells| && e.top.cells[j].ctype == t && e.offenders(j) != {})
      <==> ForwardsClock(e, t) by {
      if j: nat :| IsBoundary(e, j) && TypeOf(e, j) == t && e.offenders(j) != {} {
        assert e.top.cells[j].ctype == t;
      }
      if j :| 0 <= j < |e.top.cells| && e.top.cells[j].ctype == t && e.offenders(j) != {} {
        assert IsBoundary(e, j) && TypeOf(e, j) == t;
      }
    }
    if OutcomeOf(e, i).Generic? {
      CacheIsTransparent(e, st, i, i);
    }
  }

  // A type is declined exactly when an instance of it got no summary.
  lemma DeclinedExactly(e: Env, st: State, t: string)
    requires ValidEnv(e) && WalkedTo(e, st, |e.top.cells|)
    ensures t in st.declined <==> exists i: nat :: DeclinedAt(e, st, i, t)
  {
    if i: nat :| DeclinedAt(e, st, i, t) {
      assert Placed(e, st, i);
    }
  }

  // Instances are accounted for: clock outputs, macros, cache hits and keys.
  lemma InstancesAccounted(e: Env, st: State)
    requires ValidEnv(e) && WalkedTo(e, st, |e.top.cells|)
    ensures var t := TallyBelow(e, |e.top.cells|);
      st.instances == t.instances == t.clockOutputs + t.primitives + st.cacheHits + |Keys(e)|
  {
    SeenAreKeys(e, st);
  }

  lemma SeenAreKeys(e: Env, st: State)
    requires ValidEnv(e) && Placement(e, st, |e.top.cells|)
    ensures st.seen.Keys == Keys(e)
  {
    forall key
      ensures key in st.seen <==> key in Keys(e)
    {
      if key in Keys(e) {
        var i :| 0 <= i < |e.top.cells| && IsBoundary(e, i) && OutcomeOf(e, i).Generic? && KeyOf(e, i) == key;
        assert Placed(e, st, i);
      }
    }
  }

  // The distinct contexts of the instances that are summarised generically.
  ghost function Keys(e: Env): set<Key>
    requires ValidSpec(e.parent.spec)
  {
    set i | 0 <= i < |e.top.cells| && IsBoundary(e, i) && OutcomeOf(e, i).Generic? :: KeyOf(e, i)
  }

  // ---- reconvergence behind a boundary ----------------------------------

  // The instance and port a crossing enters, for crossings into a boundary.
  type Entries = seq<Option<(nat, string)>>

  ghost predicate EntersBy(crossings: Entries, i: nat, port: string) {
    Some((i, port)) in crossings
  }

  lemma TwoMembers(s: set<string>)
    ensures |s| >= 2 <==> exists p, q :: p in s && q in s && p != q
  {
    if |s| >= 2 {
      var p :| p in s;
      assert |s - {p}| > 0;
      var q :| q in s - {p};
    } else if p, q :| p in s && q in s && p != q {
      AtMostOne(s, p, q);
      assert false;
    }
  }

  // An instance whose internals were not analysed is unsafe exactly when foreign
  // data enters it by two different ports.
  method ReconvergenceUnsafeInstances(crossings: Entries, analysed: set<nat>) returns (unsafe: set<nat>)
    ensures forall i: nat :: i in unsafe <==>
      i !in analysed && exists p, q :: p != q && EntersBy(crossings, i, p) && EntersBy(crossings, i, q)
  {
    var ports: map<nat, set<string>> := map[];
    for k := 0 to |crossings|
      invariant forall i: nat :: i in ports ==>
          i !in analysed && forall p :: p in ports[i] <==> EntersBy(crossings[..k], i, p)
      invariant forall i: nat, p :: i !in analysed && EntersBy(crossings[..k], i, p) ==> i in ports
    {
      assert crossings[..k + 1] == crossings[..k] + [crossings[k]];
      assert forall j: nat, p :: EntersBy(crossings[..k + 1], j, p) <==>
          EntersBy(crossings[..k], j, p) || crossings[k] == Some((j, p));
      if crossings[k].None? || crossings[k].value.0 in analysed {
        continue;
      }
      var (i, port) := crossings[k].value;
      ports := ports[i := (if i in ports then ports[i] else {}) + {port}];
    }
    assert crossings[..|crossings|] == crossings;
    unsafe := set i | i in ports && |ports[i]| >= 2;
    forall i: nat
      ensures i in unsafe <==>
        i !in analysed && exists p, q :: p != q && EntersBy(crossings, i, p) && EntersBy(crossings, i, q)
    {
      if i in ports {
        TwoMembers(ports[i]);
      }
    }
  }
}
