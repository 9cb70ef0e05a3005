/**
 Which cell output drives a net, and how many cell inputs read it.
 */
module Drivers {
  import opened Netlist

  // --- drivers ----------------------------------------------------------

  datatype Driver = Driver(cell: nat, port: string)

  ghost predicate Outputs(m: Module, d: Driver, b: int) {
    d.cell < |m.cells| && (d.port == "Y" || d.port == "Q") && Net(b) in Conn(m.cells[d.cell], d.port)
  }

  // Later cells win, and `Q` is written after `Y`.
  ghost predicate Later(d: Driver, e: Driver) {
    d.cell > e.cell || (d.cell == e.cell && d.port == "Q" && e.port == "Y")
  }

  ghost predicate IsDriverIndex(m: Module, drivers: map<int, Driver>) {
    && (forall b :: b in drivers ==> drivers[b].cell < |m.cells|)
    && (forall b: int {:trigger IsEntry(m, drivers, b)} :: b in drivers ==> IsEntry(m, drivers, b))
    && (forall b: int, d {:trigger Outputs(m, d, b)} :: Outputs(m, d, b) ==> b in drivers && !Later(d, drivers[b]))
  }

  ghost predicate IsEntry(m: Module, drivers: map<int, Driver>, b: int) {
    b in drivers && Outputs(m, drivers[b], b)
  }

  // The entry for net b is right once cells below i (and `Y` of i when `q`) are scanned.
  ghost predicate EntryRight(m: Module, drivers: map<int, Driver>, b: int, i: nat, q: bool) {
    if b in drivers then
      && Outputs(m, drivers[b], b) && Scanned(drivers[b], i, q)
      && forall d :: Outputs(m, d, b) && Scanned(d, i, q) ==> !Later(d, drivers[b])
    else forall d :: Outputs(m, d, b) ==> !Scanned(d, i, q)
  }

  ghost predicate DriversBelow(m: Module, drivers: map<int, Driver>, i: nat, q: bool) {
    forall b: int :: EntryRight(m, drivers, b, i, q)
  }

  // Already visited when cell i is next (`q`: its `Y` has been done).
  ghost predicate Scanned(d: Driver, i: nat, q: bool) {
    d.cell < i || (q && d.cell == i && d.port == "Y")
  }

  function WithDriver(drivers: map<int, Driver>, bits: seq<Bit>, d: Driver): map<int, Driver> {
    map b | b in drivers.Keys + Nets(bits) :: if b in Nets(bits) then d else drivers[b]
  }

  method BitDrivers(m: Module) returns (drivers: map<int, Driver>)
    ensures IsDriverIndex(m, drivers)
  {
    drivers := map[];
    for i := 0 to |m.cells|
      invariant DriversBelow(m, drivers, i, false)
    {
      YScanned(m, drivers, i);
      drivers := Put(drivers, Conn(m.cells[i], "Y"), Driver(i, "Y"));
      QScanned(m, drivers, i);
      drivers := Put(drivers, Conn(m.cells[i], "Q"), Driver(i, "Q"));
    }
    forall b: int, d | Outputs(m, d, b) ensures b in drivers && !Later(d, drivers[b]) {
      assert EntryRight(m, drivers, b, |m.cells|, false);
    }
    forall b: int | b in drivers ensures IsEntry(m, drivers, b) {
      assert EntryRight(m, drivers, b, |m.cells|, false);
    }
  }

  lemma YScanned(m: Module, drivers: map<int, Driver>, i: nat)
    requires i < |m.cells| && DriversBelow(m, drivers, i, false)
    ensures DriversBelow(m, WithDriver(drivers, Conn(m.cells[i], "Y"), Driver(i, "Y")), i, true)
  {
    var next := WithDriver(drivers, Conn(m.cells[i], "Y"), Driver(i, "Y"));
    forall b: int ensures EntryRight(m, next, b, i, true) {
      assert EntryRight(m, drivers, b, i, false);
    }
  }

  lemma QScanned(m: Module, drivers: map<int, Driver>, i: nat)
    requires i < |m.cells| && DriversBelow(m, drivers, i, true)
    ensures DriversBelow(m, WithDriver(drivers, Conn(m.cells[i], "Q"), Driver(i, "Q")), i + 1, false)
  {
    var next := WithDriver(drivers, Conn(m.cells[i], "Q"), Driver(i, "Q"));
    var after := i + 1;
    forall b: int ensures EntryRight(m, next, b, after, false) {
      assert EntryRight(m, drivers, b, i, true);
    }
  }

  method Put(drivers: map<int, Driver>, bits: seq<Bit>, d: Driver) returns (r: map<int, Driver>)
    ensures r == WithDriver(drivers, bits, d)
  {
    r := drivers;
    for k := 0 to |bits|
      invariant r.Keys == drivers.Keys + Nets(bits[..k])
      invariant forall b :: b in r ==> r[b] == if b in Nets(bits[..k]) then d else drivers[b]
    {
      assert bits[..k + 1] == bits[..k] + [bits[k]];
      if bits[k].Net? {
        r := r[bits[k].id := d];
      }
    }
    assert bits[..|bits|] == bits;
    assert r.Keys == WithDriver(drivers, bits, d).Keys;
    forall b | b in r ensures r[b] == WithDriver(drivers, bits, d)[b] {
    }
  }

  // --- readers ----------------------------------------------------------

  const NON_READER_PORTS: set<string> := { "Y", "Q", "CLK" }

  // Outputs and clock pins are not data readers.
  ghost predicate DataReads(m: Module, s: Site, b: int) {
    && IsPosition(m, s)
    && m.cells[s.cell].pins[s.pin].port !in NON_READER_PORTS
    && m.cells[s.cell].pins[s.pin].bits[s.idx] == Net(b)
  }

  ghost function AllPositions(m: Module): set<Site> {
    set c, q, j |
      0 <= c < |m.cells| && 0 <= q < |m.cells[c].pins| && 0 <= j < |m.cells[c].pins[q].bits|
      :: Site(c, q, j)
  }

  ghost function ReadersBefore(m: Module, b: int, i: nat, p: nat, k: nat): set<Site> {
    set s | s in AllPositions(m) && DataReads(m, s, b) && Before(s, i, p, k)
  }

  ghost function ReadersOf(m: Module, b: int): set<Site> {
    ReadersBefore(m, b, |m.cells|, 0, 0)
  }

  function CountOf(counts: map<int, nat>, b: int): nat {
    if b in counts then counts[b] else 0
  }

  ghost predicate IsReaderCount(m: Module, counts: map<int, nat>) {
    forall b: int {:trigger ReadersOf(m, b)} :: CountOf(counts, b) == |ReadersOf(m, b)|
  }

  lemma ReadsIsMember(m: Module, b: int, s: Site)
    ensures DataReads(m, s, b) <==> s in ReadersOf(m, b)
  {
  }

  // A net counted once has one reading position.
  lemma SingleReader(m: Module, counts: map<int, nat>, b: int, s: Site, t: Site)
    requires IsReaderCount(m, counts) && CountOf(counts, b) == 1
    requires DataReads(m, s, b) && DataReads(m, t, b)
    ensures s == t
  {
    ReadsIsMember(m, b, s);
    ReadsIsMember(m, b, t);
    OneElement(ReadersOf(m, b), s);
  }

  lemma OneElement<T>(s: set<T>, a: T)
    requires |s| == 1 && a in s
    ensures s == {a}
  {
    assert |s - {a}| == 0;
  }

  // Scanning one more position adds it to the readers it reads for.
  lemma ReadersGrow(m: Module, b: int, i: nat, p: nat, k: nat, next: nat)
    requires i < |m.cells| && p < |m.cells[i].pins| && k < |m.cells[i].pins[p].bits| && next == k + 1
    ensures var at := Site(i, p, k);
      && at !in ReadersBefore(m, b, i, p, k)
      && ReadersBefore(m, b, i, p, next) == ReadersBefore(m, b, i, p, k) + if DataReads(m, at, b) then {at} else {}
  {
    var at := Site(i, p, k);
    forall s: Site
      ensures s in ReadersBefore(m, b, i, p, next) <==>
              s in ReadersBefore(m, b, i, p, k) || (s == at && DataReads(m, at, b))
    {
      assert Before(s, i, p, next) <==> Before(s, i, p, k) || s == at;
    }
  }

  lemma ReadersStep(m: Module, b: int, i: nat, p: nat, k: nat, next: nat)
    requires i < |m.cells| && p < |m.cells[i].pins| && k < |m.cells[i].pins[p].bits| && next == k + 1
    ensures |ReadersBefore(m, b, i, p, next)| ==
            |ReadersBefore(m, b, i, p, k)| + if DataReads(m, Site(i, p, k), b) then 1 else 0
  {
    ReadersGrow(m, b, i, p, k, next);
  }

  method BitReaderCount(m: Module) returns (counts: map<int, nat>)
    ensures IsReaderCount(m, counts)
  {
    counts := map[];
    for i := 0 to |m.cells|
      invariant CountedTo(m, counts, i, 0, 0)
    {
      var c := m.cells[i];
      for p := 0 to |c.pins|
        invariant CountedTo(m, counts, i, p, 0)
      {
        ghost var read := 0;
        if c.pins[p].port !in NON_READER_PORTS {
          counts := CountPin(m, counts, i, p);
          read := |c.pins[p].bits|;
        }
        CountNextPin(m, counts, i, p, read, p + 1);
      }
      CountNextCell(m, counts, i, i + 1);
    }
  }

  ghost predicate CountedTo(m: Module, counts: map<int, nat>, i: nat, p: nat, k: nat) {
    forall b: int {:trigger CountOf(counts, b)} :: CountOf(counts, b) == |ReadersBefore(m, b, i, p, k)|
  }

  function WithReader(counts: map<int, nat>, bit: Bit): map<int, nat> {
    if bit.Net? then counts[bit.id := CountOf(counts, bit.id) + 1] else counts
  }

  lemma CountBit(m: Module, counts: map<int, nat>, i: nat, p: nat, k: nat, next: nat)
    requires i < |m.cells| && p < |m.cells[i].pins| && k < |m.cells[i].pins[p].bits| && next == k + 1
    requires m.cells[i].pins[p].port !in NON_READER_PORTS && CountedTo(m, counts, i, p, k)
    ensures CountedTo(m, WithReader(counts, m.cells[i].pins[p].bits[k]), i, p, next)
  {
    var bit := m.cells[i].pins[p].bits[k];
    var after := WithReader(counts, bit);
    forall b: int ensures CountOf(after, b) == |ReadersBefore(m, b, i, p, next)| {
      ReadersStep(m, b, i, p, k, next);
      assert CountOf(after, b) == CountOf(counts, b) + if bit == Net(b) then 1 else 0;
    }
  }

  lemma CountNextPin(m: Module, counts: map<int, nat>, i: nat, p: nat, k: nat, next: nat)
    requires i < |m.cells| && p < |m.cells[i].pins| && CountedTo(m, counts, i, p, k) && next == p + 1
    requires k == |m.cells[i].pins[p].bits| || (k == 0 && m.cells[i].pins[p].port in NON_READER_PORTS)
    ensures CountedTo(m, counts, i, next, 0)
  {
    forall b: int ensures ReadersBefore(m, b, i, next, 0) == ReadersBefore(m, b, i, p, k) {
      forall s: Site | DataReads(m, s, b) ensures Before(s, i, next, 0) <==> Before(s, i, p, k) {
      }
    }
  }

  lemma CountNextCell(m: Module, counts: map<int, nat>, i: nat, next: nat)
    requires i < |m.cells| && CountedTo(m, counts, i, |m.cells[i].pins|, 0) && next == i + 1
    ensures CountedTo(m, counts, next, 0, 0)
  {
    forall b: int ensures ReadersBefore(m, b, next, 0, 0) == ReadersBefore(m, b, i, |m.cells[i].pins|, 0) {
      forall s: Site | DataReads(m, s, b) ensures Before(s, next, 0, 0) <==> Before(s, i, |m.cells[i].pins|, 0) {
      }
    }
  }

  method CountPin(m: Module, counts: map<int, nat>, i: nat, p: nat) returns (r: map<int, nat>)
    requires i < |m.cells| && p < |m.cells[i].pins|
    requires m.cells[i].pins[p].port !in NON_READER_PORTS && CountedTo(m, counts, i, p, 0)
    ensures CountedTo(m, r, i, p, |m.cells[i].pins[p].bits|)
  {
    r := counts;
    var bits := m.cells[i].pins[p].bits;
    for k := 0 to |bits|
      invariant CountedTo(m, r, i, p, k)
    {
      CountBit(m, r, i, p, k, k + 1);
      if bits[k].Net? {
        r := r[bits[k].id := CountOf(r, bits[k].id) + 1];
      }
    }
  }

  // --- cells around a net -----------------------------------------------

  ghost predicate DrivesNet(m: Module, i: nat, b: int) {
    i < |m.cells| && (Net(b) in Conn(m.cells[i], "Y") || Net(b) in Conn(m.cells[i], "Q"))
  }

  ghost predicate ReadsNet(m: Module, i: nat, b: int) {
    exists s: Site :: s.cell == i && DataReads(m, s, b)
  }
}
