/**
 The gray detector accepts an `$xor` whose second operand is the first shifted
 right by one with a constant on top.  Such a cell changes exactly one output bit
 when its counter steps, the wrap to zero included, if its output is as wide as
 its operands; the detector does not look at the output.
 */
module GrayEncode {
  import opened Netlist

  // The structural test on one `$xor` cell.
  predicate IsGrayXor(c: Cell) {
    var a, b := Conn(c, "A"), Conn(c, "B");
    && c.ctype == "$xor"
    && |a| >= 2 && |b| == |a|
    && (forall i :: 0 <= i < |a| - 1 ==> a[i + 1].Net? && b[i].Net? && a[i + 1] == b[i])
    && b[|a| - 1].Const?
  }

  // Accepted is exactly one operand of two bits or more and itself moved down by one, with
  // a constant moved in.
  lemma AcceptedIff(c: Cell)
    ensures IsGrayXor(c) <==>
            && c.ctype == "$xor" && |Conn(c, "A")| >= 2
            && (forall bit :: bit in Conn(c, "A")[1..] ==> bit.Net?)
            && exists top :: Conn(c, "B") == Conn(c, "A")[1..] + [Const(top)]
  {
    var a, b := Conn(c, "A"), Conn(c, "B");
    if IsGrayXor(c) {
      var n := |a| - 1;
      assert b[..n] == a[1..];
      assert b == b[..n] + [b[n]];
      assert b == a[1..] + [Const(b[n].ch)];
    } else if |a| >= 2 && exists top :: b == a[1..] + [Const(top)] {
      assert forall i :: 0 <= i < |a| - 1 ==> b[i] == a[1..][i];
      assert forall i :: 0 <= i < |a| - 1 ==> a[1..][i] in a[1..];
    }
  }

  function Word(v: Valuation, bits: seq<Bit>): (w: seq<bool>)
    ensures |w| == |bits|
  {
    seq(|bits|, i requires 0 <= i < |bits| => ValueOf(v, bits[i]))
  }

  // Operand bit i, extended beyond the operand by its sign or by zero.
  function Lane(v: Valuation, bits: seq<Bit>, i: nat, signed: bool): bool {
    if i < |bits| then ValueOf(v, bits[i]) else signed && bits != [] && ValueOf(v, bits[|bits| - 1])
  }

  // What the cell computes, as wide as its output.
  function XorWord(v: Valuation, c: Cell, signed: bool): (w: seq<bool>)
    ensures |w| == |Conn(c, "Y")|
  {
    seq(|Conn(c, "Y")|, i requires 0 <= i < |Conn(c, "Y")| =>
      Lane(v, Conn(c, "A"), i, signed) != Lane(v, Conn(c, "B"), i, signed))
  }

  // --- binary words, lowest bit first -----------------------------------

  function Pow2(n: nat): nat {
    if n == 0 then 1 else 2 * Pow2(n - 1)
  }

  function Value(w: seq<bool>): nat {
    if w == [] then 0 else (if w[0] then 1 else 0) + 2 * Value(w[1..])
  }

  // w + 1 modulo 2^|w|, by carry.
  function Increment(w: seq<bool>): (r: seq<bool>)
    ensures |r| == |w|
  {
    if w == [] then []
    else if w[0] then [false] + Increment(w[1..])
    else [true] + w[1..]
  }

  lemma {:induction false} ValueBound(w: seq<bool>)
    ensures Value(w) < Pow2(|w|)
  {
    if w != [] {
      ValueBound(w[1..]);
    }
  }

  // The carry form is the arithmetic one.
  lemma {:induction false} IncrementIsSuccessor(w: seq<bool>)
    ensures Value(Increment(w)) == if Value(w) + 1 == Pow2(|w|) then 0 else Value(w) + 1
  {
    if w != [] {
      IncrementIsSuccessor(w[1..]);
      ValueBound(w[1..]);
      assert Increment(w)[1..] == if w[0] then Increment(w[1..]) else w[1..];
    }
  }

  // Only one word has a given value.
  lemma {:induction false} ValueInjective(a: seq<bool>, b: seq<bool>)
    requires |a| == |b| && Value(a) == Value(b)
    ensures a == b
  {
    if a != [] {
      assert Value(a) % 2 == (if a[0] then 1 else 0) && Value(b) % 2 == (if b[0] then 1 else 0);
      ValueInjective(a[1..], b[1..]);
      assert a == [a[0]] + a[1..] && b == [b[0]] + b[1..];
    }
  }

  // g = w ^ (w >> 1), with `top` shifted in.
  function Gray(w: seq<bool>, top: bool): (g: seq<bool>)
    ensures |g| == |w|
  {
    seq(|w|, i requires 0 <= i < |w| => w[i] != (if i + 1 < |w| then w[i + 1] else top))
  }

  predicate DifferOnlyAt(a: seq<bool>, b: seq<bool>, k: nat) {
    |a| == |b| && k < |a| && forall i :: 0 <= i < |a| ==> (a[i] != b[i] <==> i == k)
  }

  lemma GrayTail(w: seq<bool>, top: bool)
    requires |w| > 1
    ensures Gray(w, top) == [w[0] != w[1]] + Gray(w[1..], top)
  {
  }

  // Stepping a counter flips exactly one gray bit.
  lemma {:induction false} GrayStepsOneBit(w: seq<bool>, top: bool) returns (k: nat)
    requires w != []
    ensures DifferOnlyAt(Gray(w, top), Gray(Increment(w), top), k)
  {
    var u := Increment(w);
    if |w| == 1 {
      k := 0;
    } else if !w[0] {
      k := 0;
      assert u[1..] == w[1..];
    } else {
      var t := GrayStepsOneBit(w[1..], top);
      assert u[1..] == Increment(w[1..]);
      GrayTail(w, top);
      GrayTail(u, top);
      IncrementFlipsLow(w[1..]);
      k := t + 1;
      var g, h := Gray(w, top), Gray(u, top);
      forall i | 0 <= i < |g| ensures g[i] != h[i] <==> i == k {
        if i > 0 {
          assert g[i] == Gray(w[1..], top)[i - 1] && h[i] == Gray(u[1..], top)[i - 1];
        }
      }
    }
  }

  lemma IncrementFlipsLow(w: seq<bool>)
    requires w != []
    ensures Increment(w)[0] != w[0]
  {
  }

  // The gray code of the counter on A, with the constant on top of B.
  function GrayOf(v: Valuation, c: Cell): (g: seq<bool>)
    requires IsGrayXor(c)
    ensures |g| == |Conn(c, "A")|
  {
    Gray(Word(v, Conn(c, "A")), ValueOf(v, Conn(c, "B")[|Conn(c, "A")| - 1]))
  }

  // An accepted cell computes it, cut off or extended to its output width.
  lemma XorLanes(c: Cell, v: Valuation, signed: bool)
    requires IsGrayXor(c)
    ensures var g, w := GrayOf(v, c), XorWord(v, c, signed);
      forall i :: 0 <= i < |w| ==> w[i] == if i < |g| then g[i] else signed && g[|g| - 1]
  {
    var a, b := Conn(c, "A"), Conn(c, "B");
    forall i | 0 <= i < |a| - 1 ensures ValueOf(v, b[i]) == ValueOf(v, a[i + 1]) {
      assert a[i + 1] == b[i];
    }
  }

  // The counter goes from one value to the next, modulo its range.
  predicate Steps(c: Cell, v: Valuation, w: Valuation) {
    var n := Value(Word(v, Conn(c, "A")));
    Value(Word(w, Conn(c, "A"))) == if n + 1 == Pow2(|Conn(c, "A")|) then 0 else n + 1
  }

  lemma GrayOfStep(c: Cell, v: Valuation, w: Valuation) returns (k: nat)
    requires IsGrayXor(c) && Steps(c, v, w)
    ensures DifferOnlyAt(GrayOf(v, c), GrayOf(w, c), k)
  {
    var x := Word(v, Conn(c, "A"));
    IncrementIsSuccessor(x);
    ValueInjective(Word(w, Conn(c, "A")), Increment(x));
    k := GrayStepsOneBit(x, ValueOf(v, Conn(c, "B")[|Conn(c, "A")| - 1]));
  }

  // The output is as wide as the operands, or wider and extended by zero.
  predicate WideEnough(c: Cell, signed: bool) {
    var y, a := Conn(c, "Y"), Conn(c, "A");
    |y| == |a| || (|y| > |a| && !signed)
  }

  // Between two successive counter values exactly one output bit of such a cell changes.
  lemma AcceptedXorIsGray(c: Cell, signed: bool, v: Valuation, w: Valuation) returns (k: nat)
    requires IsGrayXor(c) && WideEnough(c, signed) && Steps(c, v, w)
    ensures DifferOnlyAt(XorWord(v, c, signed), XorWord(w, c, signed), k)
  {
    XorLanes(c, v, signed);
    XorLanes(c, w, signed);
    k := GrayOfStep(c, v, w);
  }

  lemma {:induction false} AllBits(w: seq<bool>, bit: bool)
    requires forall i :: 0 <= i < |w| ==> w[i] == bit
    ensures Value(w) == if bit then Pow2(|w|) - 1 else 0
  {
    if w != [] {
      AllBits(w[1..], bit);
    }
  }

  function Constantly(bit: bool): Valuation {
    (b: int) => bit
  }

  ghost predicate OneBitChanges(a: seq<bool>, b: seq<bool>) {
    exists k :: DifferOnlyAt(a, b, k)
  }

  // The wrap from all ones to zero changes the top lane of the gray code alone.
  lemma WrapChangesTop(c: Cell)
    requires IsGrayXor(c) && Conn(c, "A")[0].Net?
    ensures Steps(c, Constantly(true), Constantly(false))
    ensures DifferOnlyAt(GrayOf(Constantly(true), c), GrayOf(Constantly(false), c), |Conn(c, "A")| - 1)
  {
    var v, w, a := Constantly(true), Constantly(false), Conn(c, "A");
    forall i | 0 <= i < |a| ensures a[i].Net? {
      if i > 0 {
        assert Conn(c, "B")[i - 1] == a[i - 1 + 1];
      }
    }
    AllBits(Word(v, a), true);
    AllBits(Word(w, a), false);
    var k := GrayOfStep(c, v, w);
    assert GrayOf(v, c)[|a| - 1] != GrayOf(w, c)[|a| - 1];
  }

  // Cut off, that change is lost; extended by sign, it comes out more than once.
  lemma WrapIsNotOneBit(c: Cell, signed: bool)
    requires IsGrayXor(c) && Conn(c, "A")[0].Net? && !WideEnough(c, signed)
    ensures !OneBitChanges(XorWord(Constantly(true), c, signed), XorWord(Constantly(false), c, signed))
  {
    var v, w, n := Constantly(true), Constantly(false), |Conn(c, "A")|;
    WrapChangesTop(c);
    XorLanes(c, v, signed);
    XorLanes(c, w, signed);
    var x, y := XorWord(v, c, signed), XorWord(w, c, signed);
    forall i | 0 <= i < |x| ensures x[i] != y[i] <==> i >= n - 1 {
      assert i < n ==> (GrayOf(v, c)[i] != GrayOf(w, c)[i] <==> i == n - 1);
    }
    if n < |x| {
      assert x[n - 1] != y[n - 1] && x[n] != y[n];
    }
    forall k: nat ensures !DifferOnlyAt(x, y, k) {
      assert k < |x| ==> (x[k] != y[k] <==> k >= n - 1);
    }
  }

  // The exact condition, for every accepted cell whose counter can step at all.
  lemma AcceptedXorIsGrayIff(c: Cell, signed: bool)
    requires IsGrayXor(c) && Conn(c, "A")[0].Net?
    ensures WideEnough(c, signed) <==>
            forall v, w :: Steps(c, v, w) ==> OneBitChanges(XorWord(v, c, signed), XorWord(w, c, signed))
  {
    if WideEnough(c, signed) {
      forall v, w | Steps(c, v, w) ensures OneBitChanges(XorWord(v, c, signed), XorWord(w, c, signed)) {
        var k := AcceptedXorIsGray(c, signed, v, w);
      }
    } else {
      WrapChangesTop(c);
      WrapIsNotOneBit(c, signed);
    }
  }
}
