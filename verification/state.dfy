/** A wave function on the grid (`state.hpp`, `state.cpp`): N complex
    values laid out row by row, with the pointwise arithmetic the
    propagation operators use, equality and the two distances. Norms, dot
    products and transforms are numerical library calls and are not part
    of this model. */
module States {
  import opened Util
  import opened Complexes
  import Layouts

  datatype State = State(layout: Layouts.DataLayout, data: seq<Complex>)

  /** One value per grid point. */
  predicate Valid(s: State)
  {
    |s.data| == s.layout.N()
  }

  /** `operator()(x, y)`. */
  function At(s: State, x: nat, y: nat): Complex
    requires Valid(s) && x < s.layout.sizex && y < s.layout.sizey
  {
    Layouts.IndexInGrid(s.layout, x, y);
    Layouts.Value(s.layout, s.data, x, y)
  }

  /** Two states agree at every grid point exactly when their data agree. */
  lemma {:induction false} SameCellsSameData(a: State, b: State)
    requires Valid(a) && Valid(b) && a.layout == b.layout
    requires forall x, y | 0 <= x < a.layout.sizex && 0 <= y < a.layout.sizey :: At(a, x, y) == At(b, x, y)
    ensures a == b
  {
    var l := a.layout;
    forall k | 0 <= k < |a.data| ensures a.data[k] == b.data[k] {
      Layouts.IndexReachesAll(l, k);
      assert At(a, k % l.sizex, k / l.sizex) == At(b, k % l.sizex, k / l.sizex);
    }
  }

  // ---------------------------------------------------------------------
  // Arithmetic with other states

  /** `zero()`. */
  function Zeroed(s: State): (r: State)
    requires Valid(s)
    ensures Valid(r) && r.layout == s.layout
  {
    State(s.layout, seq(|s.data|, _ => Zero))
  }

  /** `operator+=`: both states must have the same layout. */
  function Plus(s: State, o: State): (r: State)
    requires Valid(s) && Valid(o) && s.layout == o.layout
    ensures Valid(r) && r.layout == s.layout
  {
    State(s.layout, seq(|s.data|, i requires 0 <= i < |s.data| => Add(s.data[i], o.data[i])))
  }

  /** `operator-=`. */
  function Minus(s: State, o: State): (r: State)
    requires Valid(s) && Valid(o) && s.layout == o.layout
    ensures Valid(r) && r.layout == s.layout
  {
    State(s.layout, seq(|s.data|, i requires 0 <= i < |s.data| => Sub(s.data[i], o.data[i])))
  }

  /** The zeroed state adds nothing, and subtracting a state undoes adding
      it. */
  lemma {:induction false} PlusMinusInverse(s: State, o: State)
    requires Valid(s) && Valid(o) && s.layout == o.layout
    ensures Plus(Zeroed(o), s) == s
    ensures Minus(Plus(s, o), o) == s
    ensures Minus(s, s) == Zeroed(s)
  {
    forall i | 0 <= i < |s.data| ensures Minus(Plus(s, o), o).data[i] == s.data[i] {
      AddSubCancel(s.data[i], o.data[i]);
    }
  }

  /** The addition test: (1+2i) + (1+0i) and (1+2i) + (1+2i), and their
      differences. */
  lemma TestAddition()
    ensures var a := Complex(1.0, 2.0); var b := Complex(1.0, 0.0); var c := Complex(1.0, 2.0);
      Add(a, b) == Complex(2.0, 2.0) && Add(a, c) == Complex(2.0, 4.0)
      && Sub(a, b) == Complex(0.0, 2.0) && Sub(a, c) == Zero
  {
  }

  // ---------------------------------------------------------------------
  // Arithmetic with arrays

  /** `pointwise_multiply(values)`: the array has (at least) one entry per
      grid point. */
  function PointwiseMultiply(s: State, values: seq<Complex>): (r: State)
    requires Valid(s) && |values| >= |s.data|
    ensures Valid(r) && r.layout == s.layout
  {
    State(s.layout, seq(|s.data|, i requires 0 <= i < |s.data| => Mul(s.data[i], values[i])))
  }

  /** `pointwise_divide(values)`, for an array without zeros. */
  function PointwiseDivide(s: State, values: seq<Complex>): (r: State)
    requires Valid(s) && |values| >= |s.data|
    requires forall i | 0 <= i < |s.data| :: values[i] != Zero
    ensures Valid(r) && r.layout == s.layout
  {
    State(s.layout, seq(|s.data|, i requires 0 <= i < |s.data| => Div(s.data[i], values[i])))
  }

  /** Dividing by the same array undoes a multiplication. */
  lemma {:induction false} DivideUndoesMultiply(s: State, values: seq<Complex>)
    requires Valid(s) && |values| >= |s.data|
    requires forall i | 0 <= i < |s.data| :: values[i] != Zero
    ensures PointwiseDivide(PointwiseMultiply(s, values), values) == s
  {
    forall i | 0 <= i < |s.data| ensures PointwiseDivide(PointwiseMultiply(s, values), values).data[i] == s.data[i] {
      MulDivCancel(s.data[i], values[i]);
    }
  }

  /** Each grid point is multiplied by the array entry at the same index. */
  lemma PointwiseMultiplyCells(s: State, values: seq<Complex>, x: nat, y: nat)
    requires Valid(s) && |values| >= |s.data| && x < s.layout.sizex && y < s.layout.sizey
    ensures At(PointwiseMultiply(s, values), x, y) == Mul(At(s, x, y), values[Layouts.Cell(s.layout, x, y)])
  {
    Layouts.IndexInGrid(s.layout, x, y);
  }

  /** `pointwise_multiply_and_add(values, add)`: v[i] * values[i] + add[i],
      for states of one layout. */
  function PointwiseMultiplyAndAdd(s: State, values: seq<Complex>, add: State): (r: State)
    requires Valid(s) && Valid(add) && s.layout == add.layout && |values| >= |s.data|
    ensures Valid(r) && r.layout == s.layout
  {
    State(s.layout, seq(|s.data|, i requires 0 <= i < |s.data| => Add(Mul(s.data[i], values[i]), add.data[i])))
  }

  /** Multiply-and-add is a multiplication followed by an addition. */
  lemma MultiplyAndAddComposes(s: State, values: seq<Complex>, add: State)
    requires Valid(s) && Valid(add) && s.layout == add.layout && |values| >= |s.data|
    ensures PointwiseMultiplyAndAdd(s, values, add) == Plus(PointwiseMultiply(s, values), add)
  {
  }

  /** The row-y multiplier of cell i. */
  function RowOf(l: Layouts.DataLayout, i: nat): (y: nat)
    requires i < l.N()
    ensures y < l.sizey
  {
    Layouts.IndexReachesAll(l, i);
    i / l.sizex
  }

  /** `pointwise_multiply_y(values)`: every cell of row y is multiplied by
      values[y]. */
  function PointwiseMultiplyY(s: State, values: seq<Complex>): (r: State)
    requires Valid(s) && |values| >= s.layout.sizey
    ensures Valid(r) && r.layout == s.layout
  {
    State(s.layout, seq(|s.data|, i requires 0 <= i < |s.data| => Mul(s.data[i], values[RowOf(s.layout, i)])))
  }

  lemma {:induction false} PointwiseMultiplyYCells(s: State, values: seq<Complex>, x: nat, y: nat)
    requires Valid(s) && |values| >= s.layout.sizey && x < s.layout.sizex && y < s.layout.sizey
    ensures At(PointwiseMultiplyY(s, values), x, y) == Mul(At(s, x, y), values[y])
  {
    Layouts.IndexInGrid(s.layout, x, y);
  }

  /** Only the first sizey entries of the array are read. */
  lemma {:induction false} PointwiseMultiplyYReadsRows(s: State, v: seq<Complex>, w: seq<Complex>)
    requires Valid(s) && |v| >= s.layout.sizey && |w| >= s.layout.sizey
    requires v[..s.layout.sizey] == w[..s.layout.sizey]
    ensures PointwiseMultiplyY(s, v) == PointwiseMultiplyY(s, w)
  {
    forall i | 0 <= i < |s.data| ensures v[RowOf(s.layout, i)] == w[RowOf(s.layout, i)] {
      assert v[..s.layout.sizey][RowOf(s.layout, i)] == w[..s.layout.sizey][RowOf(s.layout, i)];
    }
  }

  // ---------------------------------------------------------------------
  // The shifted imaginary multiplication

  /** `pointwise_multiply_imaginary_shiftx(values)`: cell (x, y) receives
      the old value of (x-1, y) times i * values(x-1, y), and the cells of
      column 0 become zero. Its loop counts x down from
      sizex - 1 in an unsigned type, so it needs at least one column. */
  function MultiplyImaginaryShiftX(s: State, values: seq<real>): (r: State)
    requires Valid(s) && |values| >= |s.data| && s.layout.sizex > 0
    ensures Valid(r) && r.layout == s.layout
  {
    var sx := s.layout.sizex;
    State(s.layout, seq(|s.data|, i requires 0 <= i < |s.data| =>
      if i % sx == 0 then Zero else Mul(s.data[i - 1], Complex(0.0, values[i - 1]))))
  }

  lemma {:induction false} ShiftXCells(s: State, values: seq<real>, x: nat, y: nat)
    requires Valid(s) && |values| >= |s.data| && x < s.layout.sizex && y < s.layout.sizey
    ensures x == 0 ==> At(MultiplyImaginaryShiftX(s, values), x, y) == Zero
    ensures x > 0 ==>
      At(MultiplyImaginaryShiftX(s, values), x, y) == Mul(At(s, x - 1, y), Complex(0.0, values[Layouts.Cell(s.layout, x - 1, y)]))
  {
    Layouts.IndexInGrid(s.layout, x, y);
    if x > 0 {
      Layouts.IndexInGrid(s.layout, x - 1, y);
    }
  }

  /** The last column of the array is never read. */
  lemma {:induction false} ShiftXIgnoresLastColumn(s: State, v: seq<real>, w: seq<real>)
    requires Valid(s) && |v| >= |s.data| && |w| >= |s.data| && s.layout.sizex > 0
    requires forall i | 0 <= i < |s.data| && i % s.layout.sizex != s.layout.sizex - 1 :: v[i] == w[i]
    ensures MultiplyImaginaryShiftX(s, v) == MultiplyImaginaryShiftX(s, w)
  {
    var sx := s.layout.sizex;
    var r1, r2 := MultiplyImaginaryShiftX(s, v), MultiplyImaginaryShiftX(s, w);
    forall i | 0 <= i < |s.data|
      ensures r1.data[i] == r2.data[i]
    {
      if i % sx != 0 {
        Layouts.PreviousColumn(i, sx);
      }
    }
    assert r1.data == r2.data;
  }

  /** The in-place loop of `pointwise_multiply_imaginary_shiftx`: columns are overwritten from the
      last one down, each reading its left neighbour, which is still
      unchanged; column 0 is cleared at the end. */
  method ShiftXInPlace(s: State, values: seq<real>) returns (r: State)
    requires Valid(s) && |values| >= |s.data| && s.layout.sizex > 0
    ensures r == MultiplyImaginaryShiftX(s, values)
  {
    var l := s.layout;
    var d := s.data;
    var x := l.sizex - 1;
    while x > 0
      invariant 0 <= x < l.sizex
      invariant ShiftedFrom(s, values, d, x, 0)
    {
      d := ShiftColumn(s, values, d, x);
      x := x - 1;
    }
    d := ClearFirstColumn(s, values, d);
    r := State(l, d);
  }

  /** The value the shift gives grid point (x, y), read from its left
      neighbour. */
  ghost function ShiftedCell(s: State, values: seq<real>, x: nat, y: nat): Complex
    requires Valid(s) && |values| >= |s.data| && x < s.layout.sizex && y < s.layout.sizey
  {
    if x == 0 then Zero
    else
      var k := Layouts.Cell(s.layout, x - 1, y);
      Mul(s.data[k], Complex(0.0, values[k]))
  }

  /** d holds the shifted values in every column right of x, and in column
      x in the rows below y; the rest of d still holds the input state. */
  ghost predicate ShiftedFrom(s: State, values: seq<real>, d: seq<Complex>, x: nat, y: nat)
    requires Valid(s) && |values| >= |s.data|
  {
    var l := s.layout;
    |d| == |s.data| &&
    forall u, v | 0 <= u < l.sizex && 0 <= v < l.sizey ::
      d[Layouts.Cell(l, u, v)] ==
        if u > x || (u == x && v < y) then ShiftedCell(s, values, u, v) else s.data[Layouts.Cell(l, u, v)]
  }

  /** One pass of the outer loop: column x takes its shifted values, read
      from column x - 1, which is still untouched. */
  method ShiftColumn(s: State, values: seq<real>, d0: seq<Complex>, x: nat) returns (d: seq<Complex>)
    requires Valid(s) && |values| >= |s.data|
    requires 0 < x < s.layout.sizex && ShiftedFrom(s, values, d0, x, 0)
    ensures ShiftedFrom(s, values, d, x - 1, 0)
  {
    var l := s.layout;
    d := d0;
    var y := 0;
    while y < l.sizey
      invariant 0 <= y <= l.sizey
      invariant ShiftedFrom(s, values, d, x, y)
    {
      var i := Layouts.Cell(l, x, y);
      assert i - 1 == Layouts.Cell(l, x - 1, y);
      d := d[i := Mul(d[i - 1], Complex(0.0, values[i - 1]))];
      forall u, v | 0 <= u < l.sizex && 0 <= v < l.sizey && (u, v) != (x, y)
        ensures Layouts.Cell(l, u, v) != i
      {
        Layouts.IndexInjective(l, u, v, x, y);
      }
      y := y + 1;
    }
    assert ShiftedFrom(s, values, d, x, l.sizey);
  }

  /** The final loop: column 0 has no left neighbour and becomes zero. */
  method ClearFirstColumn(s: State, values: seq<real>, d0: seq<Complex>) returns (d: seq<Complex>)
    requires Valid(s) && |values| >= |s.data| && s.layout.sizex > 0
    requires ShiftedFrom(s, values, d0, 0, 0)
    ensures d == MultiplyImaginaryShiftX(s, values).data
  {
    var l := s.layout;
    d := d0;
    var y := 0;
    while y < l.sizey
      invariant 0 <= y <= l.sizey
      invariant ShiftedFrom(s, values, d, 0, y)
    {
      var i := Layouts.Cell(l, 0, y);
      d := d[i := Zero];
      forall u, v | 0 <= u < l.sizex && 0 <= v < l.sizey && (u, v) != (0, y)
        ensures Layouts.Cell(l, u, v) != i
      {
        Layouts.IndexInjective(l, u, v, 0, y);
      }
      y := y + 1;
    }
    FullyShifted(s, values, d);
  }

  /** Once every column is shifted, d is the shifted state. */
  lemma {:induction false} FullyShifted(s: State, values: seq<real>, d: seq<Complex>)
    requires Valid(s) && |values| >= |s.data| && s.layout.sizex > 0
    requires ShiftedFrom(s, values, d, 0, s.layout.sizey)
    ensures d == MultiplyImaginaryShiftX(s, values).data
  {
    var l := s.layout;
    var spec := MultiplyImaginaryShiftX(s, values);
    forall k | 0 <= k < |d|
      ensures d[k] == spec.data[k]
    {
      Layouts.IndexReachesAll(l, k);
      var x, y := k % l.sizex, k / l.sizex;
      assert k == Layouts.Cell(l, x, y);
      ShiftXCells(s, values, x, y);
    }
  }

  /** The shift test on a 2 x 2 grid of (1+2i): the array (1, NaN, 2, NaN)
      gives 0 in column 0 and (1+2i) i, (1+2i) 2i in column 1, whatever
      stands in the unread column. */
  lemma TestShiftX(nan1: real, nan2: real)
    ensures var a := Complex(1.0, 2.0);
      var r := MultiplyImaginaryShiftX(State(Layouts.DataLayout(2, 2, 1.0), [a, a, a, a]), [1.0, nan1, 2.0, nan2]);
      r.data == [Zero, Complex(-2.0, 1.0), Zero, Complex(-4.0, 2.0)]
  {
    var a := Complex(1.0, 2.0);
    var r := MultiplyImaginaryShiftX(State(Layouts.DataLayout(2, 2, 1.0), [a, a, a, a]), [1.0, nan1, 2.0, nan2]);
    assert r.data[1] == Mul(a, Complex(0.0, 1.0));
    assert r.data[3] == Mul(a, Complex(0.0, 2.0));
  }

  // ---------------------------------------------------------------------
  // Assignment, equality and distances

  /** `operator=`: the layouts must be equal (and the storage distinct);
      all N values are copied. */
  function Assign(s: State, o: State): (r: State)
    requires Valid(s) && Valid(o) && s.layout == o.layout
    ensures Valid(r) && r.layout == s.layout
  {
    State(s.layout, o.data)
  }

  /** `operator==`: the same object, or the same layout and equal values.
      Layouts are compared by value, which agrees with their own equality
      (`Layouts.EqualIsSameGrid`). */
  predicate Equal(a: State, b: State, sameObject: bool)
    requires Valid(a) && Valid(b)
  {
    sameObject || (a.layout == b.layout && forall n | 0 <= n < |a.data| :: a.data[n] == b.data[n])
  }

  /** `operator!=`. */
  predicate NotEqual(a: State, b: State, sameObject: bool)
    requires Valid(a) && Valid(b)
  {
    !Equal(a, b, sameObject)
  }

  /** The comparison loop, which stops at the first differing value. */
  method Compare(a: State, b: State, sameObject: bool) returns (eq: bool)
    requires Valid(a) && Valid(b)
    ensures eq == Equal(a, b, sameObject)
  {
    if sameObject {
      return true;
    }
    if a.layout != b.layout {
      return false;
    }
    var n := 0;
    while n < |a.data|
      invariant 0 <= n <= |a.data|
      invariant forall m | 0 <= m < n :: a.data[m] == b.data[m]
    {
      if a.data[n] != b.data[n] {
        return false;
      }
      n := n + 1;
    }
    return true;
  }

  /** Equality of states is equality of their layouts and values, it is
      symmetric, and `!=` is its negation. */
  lemma EqualIsValueEquality(a: State, b: State, sameObject: bool)
    requires Valid(a) && Valid(b) && (sameObject ==> a == b)
    ensures Equal(a, b, sameObject) <==> a == b
    ensures Equal(a, b, sameObject) == Equal(b, a, sameObject)
    ensures NotEqual(a, b, sameObject) <==> a != b
  {
    if !sameObject && a.layout == b.layout && (forall n | 0 <= n < |a.data| :: a.data[n] == b.data[n]) {
      assert a.data == b.data;
    }
  }

  /** After an assignment the target compares equal to the assigned state. */
  lemma AssignMakesEqual(s: State, o: State)
    requires Valid(s) && Valid(o) && s.layout == o.layout
    ensures Equal(Assign(s, o), o, false)
  {
  }

  /** The sum of squared moduli of the first n differences. */
  function SumSquares(a: seq<Complex>, b: seq<Complex>, n: nat): (t: real)
    requires n <= |a| && n <= |b|
    ensures t >= 0.0
  {
    if n == 0 then 0.0 else SumSquares(a, b, n - 1) + NormSq(Sub(a[n - 1], b[n - 1]))
  }

  /** The sum vanishes exactly when the first n values agree. */
  lemma SumSquaresZero(a: seq<Complex>, b: seq<Complex>, n: nat)
    requires n <= |a| && n <= |b|
    ensures SumSquares(a, b, n) == 0.0 <==> forall i | 0 <= i < n :: a[i] == b[i]
  {
    if SumSquares(a, b, n) == 0.0 {
      forall i | 0 <= i < n
        ensures a[i] == b[i]
      {
        TermVanishes(a, b, n, i);
        DistanceZero(a[i], b[i]);
      }
    }
    if forall i | 0 <= i < n :: a[i] == b[i] {
      AgreeingSumZero(a, b, n);
    }
  }

  /** Every term of a vanishing sum vanishes. */
  lemma {:induction false} TermVanishes(a: seq<Complex>, b: seq<Complex>, n: nat, i: nat)
    requires i < n <= |a| && n <= |b| && SumSquares(a, b, n) == 0.0
    ensures NormSq(Sub(a[i], b[i])) == 0.0
  {
    var t, m := SumSquares(a, b, n - 1), NormSq(Sub(a[n - 1], b[n - 1]));
    assert SumSquares(a, b, n) == t + m;
    NonNegativeSumZero(t, m, SumSquares(a, b, n));
    if i < n - 1 {
      TermVanishes(a, b, n - 1, i);
    }
  }

  /** Agreeing values contribute nothing. */
  lemma {:induction false} AgreeingSumZero(a: seq<Complex>, b: seq<Complex>, n: nat)
    requires n <= |a| && n <= |b|
    requires forall i | 0 <= i < n :: a[i] == b[i]
    ensures SumSquares(a, b, n) == 0.0
  {
    if n > 0 {
      AgreeingSumZero(a, b, n - 1);
      assert a[n - 1] == b[n - 1];
      DistanceZero(a[n - 1], b[n - 1]);
      var t, m := SumSquares(a, b, n - 1), NormSq(Sub(a[n - 1], b[n - 1]));
      assert t == 0.0 && m == 0.0;
      assert SumSquares(a, b, n) == t + m;
    }
  }

  /** A sum of two non-negative numbers vanishes exactly when both do. */
  lemma NonNegativeSumZero(t: real, m: real, total: real)
    requires t >= 0.0 && m >= 0.0 && total == t + m
    ensures total == 0.0 <==> t == 0.0 && m == 0.0
  {
  }

  /** `rms_distance` before its final square root: the mean squared
      difference, infinite when the layouts differ and 0/0 (NaN) on an
      empty grid. */
  function MeanSquareDistance(a: State, b: State): (d: Extended)
    requires Valid(a) && Valid(b)
    ensures a.layout == b.layout && |a.data| > 0 ==> d.Fin? && d.v >= 0.0
  {
    if a.layout != b.layout then PosInf
    else Quotient(SumSquares(a.data, b.data, |a.data|), |a.data| as real)
  }

  /** On a non-empty grid of one layout the mean squared distance is finite
      and vanishes exactly between equal states; so a state is at distance
      zero from itself. */
  lemma {:induction false} MeanSquareDistanceZero(a: State, b: State)
    requires Valid(a) && Valid(b)
    ensures a.layout != b.layout <==> MeanSquareDistance(a, b) == PosInf
    ensures a.layout == b.layout && |a.data| > 0 ==>
      MeanSquareDistance(a, b).Fin? && (MeanSquareDistance(a, b) == Fin(0.0) <==> a == b)
  {
    if a.layout == b.layout && |a.data| > 0 {
      SumSquaresZero(a.data, b.data, |a.data|);
      if forall i | 0 <= i < |a.data| :: a.data[i] == b.data[i] {
        assert a.data == b.data;
      }
    }
  }

  /** `max_distance` on squared moduli: the largest squared modulus of a
      difference, infinite when the layouts differ. Comparing squared
      moduli orders the differences as comparing their moduli does. */
  method MaxSquareDistance(a: State, b: State) returns (d: Extended)
    requires Valid(a) && Valid(b)
    ensures a.layout != b.layout <==> d == PosInf
    ensures a.layout == b.layout ==> d.Fin?
    ensures a.layout == b.layout ==> forall n | 0 <= n < |a.data| :: NormSq(Sub(a.data[n], b.data[n])) <= d.v
    ensures a.layout == b.layout ==> d.v == 0.0 || exists n | 0 <= n < |a.data| :: NormSq(Sub(a.data[n], b.data[n])) == d.v
    ensures a.layout == b.layout ==> (d == Fin(0.0) <==> a == b)
    ensures a.layout == b.layout ==> forall h | h >= 0.0 && h * h == d.v :: LargestModulus(a.data, b.data, h)
  {
    if a.layout != b.layout {
      return PosInf;
    }
    var ds := SquareDistances(a.data, b.data);
    var max := LargestFromZero(ds);
    if max == 0.0 {
      assert a.data == b.data;
    }
    forall h | h >= 0.0 && h * h == max
      ensures LargestModulus(a.data, b.data, h)
    {
      RootIsLargestModulus(a.data, b.data, max, h);
    }
    return Fin(max);
  }

  /** m is `abs(z)`: the non-negative root of its squared modulus. */
  predicate IsModulus(m: real, z: Complex)
  {
    m >= 0.0 && m * m == NormSq(z)
  }

  /** h is what `max_distance` returns: no difference has a larger modulus,
      and on a non-zero distance some difference has modulus h. */
  ghost predicate LargestModulus(a: seq<Complex>, b: seq<Complex>, h: real)
    requires |a| == |b|
  {
    (forall n, m | 0 <= n < |a| && IsModulus(m, Sub(a[n], b[n])) :: m <= h)
    && (h == 0.0 || exists n | 0 <= n < |a| :: IsModulus(h, Sub(a[n], b[n])))
  }

  /** The root of the largest squared modulus is the largest modulus. */
  lemma {:induction false} RootIsLargestModulus(a: seq<Complex>, b: seq<Complex>, d: real, h: real)
    requires |a| == |b|
    requires forall n | 0 <= n < |a| :: NormSq(Sub(a[n], b[n])) <= d
    requires d == 0.0 || exists n | 0 <= n < |a| :: NormSq(Sub(a[n], b[n])) == d
    requires h >= 0.0 && h * h == d
    ensures LargestModulus(a, b, h)
  {
    forall n, m | 0 <= n < |a| && IsModulus(m, Sub(a[n], b[n]))
      ensures m <= h
    {
      SquareMonotone(m, h);
    }
    if d == 0.0 {
      SquareMonotone(h, 0.0);
    }
  }

  /** A sum of n terms, each at most d, is at most n d. */
  lemma {:induction false} SumSquaresAtMost(a: seq<Complex>, b: seq<Complex>, n: nat, d: real)
    requires n <= |a| && n <= |b|
    requires forall k | 0 <= k < n :: NormSq(Sub(a[k], b[k])) <= d
    ensures SumSquares(a, b, n) <= n as real * d
  {
    if n > 0 {
      SumSquaresAtMost(a, b, n - 1, d);
      assert (n - 1) as real * d + d == n as real * d;
    }
  }

  /** `rms_distance` never exceeds `max_distance`: on a non-empty grid of
      one layout, the root of the mean squared distance is at most any
      bound h on the moduli of the differences. */
  lemma {:induction false} RootMeanAtMostLargest(a: State, b: State, r: real, h: real)
    requires Valid(a) && Valid(b) && a.layout == b.layout && |a.data| > 0
    requires h >= 0.0 && forall n | 0 <= n < |a.data| :: NormSq(Sub(a.data[n], b.data[n])) <= h * h
    requires r >= 0.0 && MeanSquareDistance(a, b) == Fin(r * r)
    ensures r <= h
  {
    var N := |a.data| as real;
    SumSquaresAtMost(a.data, b.data, |a.data|, h * h);
    var sum := SumSquares(a.data, b.data, |a.data|);
    assert r * r == sum / N;
    MeanAtMost(sum, N, h * h);
    SquareMonotone(r, h);
  }

  lemma MeanAtMost(sum: real, N: real, d: real)
    requires N > 0.0 && sum <= N * d
    ensures sum / N <= d
  {
    assert sum / N * N == sum;
  }

  /** The squared moduli of the differences, cell by cell. */
  function SquareDistances(a: seq<Complex>, b: seq<Complex>): (ds: seq<real>)
    requires |a| == |b|
    ensures |ds| == |a|
    ensures forall n | 0 <= n < |a| :: ds[n] == NormSq(Sub(a[n], b[n])) && ds[n] >= 0.0
    ensures forall n | 0 <= n < |a| :: ds[n] == 0.0 <==> a[n] == b[n]
  {
    var ds := seq(|a|, n requires 0 <= n < |a| => NormSq(Sub(a[n], b[n])));
    forall n | 0 <= n < |a|
      ensures ds[n] == 0.0 <==> a[n] == b[n]
    {
      DistanceZero(a[n], b[n]);
    }
    ds
  }

  /** The running maximum of the loop, started at zero. */
  method LargestFromZero(ds: seq<real>) returns (max: real)
    requires forall n | 0 <= n < |ds| :: ds[n] >= 0.0
    ensures forall n | 0 <= n < |ds| :: ds[n] <= max
    ensures max == 0.0 || exists n | 0 <= n < |ds| :: ds[n] == max
    ensures max == 0.0 <==> forall n | 0 <= n < |ds| :: ds[n] == 0.0
  {
    max := 0.0;
    var n := 0;
    while n < |ds|
      invariant 0 <= n <= |ds| && max >= 0.0
      invariant forall m | 0 <= m < n :: ds[m] <= max
      invariant max == 0.0 || exists m | 0 <= m < n :: ds[m] == max
      invariant max == 0.0 <==> forall m | 0 <= m < n :: ds[m] == 0.0
    {
      if ds[n] > max {
        max := ds[n];
      }
      n := n + 1;
    }
  }

  /** The distance test on a 2 x 2 grid: the states differ by 2i in two of
      four cells, so the mean squared distance is 2 (rms sqrt 2). */
  lemma TestDistances(a: seq<Complex>, b: seq<Complex>)
    requires |a| == 4 && |b| == 4
    requires a[0] == a[1] == a[2] == a[3] == Complex(1.0, 2.0)
    requires b[0] == b[2] == Complex(1.0, 0.0) && b[1] == b[3] == Complex(1.0, 2.0)
    ensures var l := Layouts.DataLayout(2, 2, 1.0);
      MeanSquareDistance(State(l, a), State(l, b)) == Fin(2.0)
  {
    TestCellDistance(a[0], b[0]);
    TestCellDistance(a[2], b[2]);
    DistanceZero(a[1], b[1]);
    DistanceZero(a[3], b[3]);
    TestSum(a, b);
  }

  /** Cells 0 and 2 contribute 4 each, cells 1 and 3 nothing. */
  lemma TestSum(a: seq<Complex>, b: seq<Complex>)
    requires |a| == 4 && |b| == 4
    requires NormSq(Sub(a[0], b[0])) == 4.0 && NormSq(Sub(a[1], b[1])) == 0.0
    requires NormSq(Sub(a[2], b[2])) == 4.0 && NormSq(Sub(a[3], b[3])) == 0.0
    ensures SumSquares(a, b, 4) == 8.0
  {
    SumSquaresStep(a, b, 0, 4.0);
    SumSquaresStep(a, b, 1, 0.0);
    SumSquaresStep(a, b, 2, 4.0);
    SumSquaresStep(a, b, 3, 0.0);
  }

  /** The same test's maximum distance: the largest modulus of a
      difference is 2, the modulus of 2i. */
  lemma TestLargestModulus(a: seq<Complex>, b: seq<Complex>)
    requires |a| == 4 && |b| == 4
    requires a[0] == a[1] == a[2] == a[3] == Complex(1.0, 2.0)
    requires b[0] == b[2] == Complex(1.0, 0.0) && b[1] == b[3] == Complex(1.0, 2.0)
    ensures LargestModulus(a, b, 2.0)
  {
    TestCellDistance(a[0], b[0]);
    TestCellDistance(a[2], b[2]);
    DistanceZero(a[1], b[1]);
    DistanceZero(a[3], b[3]);
    TestLargest(a, b);
  }

  /** Cells 0 and 2 have the largest squared modulus, 4. */
  lemma TestLargest(a: seq<Complex>, b: seq<Complex>)
    requires |a| == 4 && |b| == 4
    requires NormSq(Sub(a[0], b[0])) == 4.0 && NormSq(Sub(a[1], b[1])) == 0.0
    requires NormSq(Sub(a[2], b[2])) == 4.0 && NormSq(Sub(a[3], b[3])) == 0.0
    ensures LargestModulus(a, b, 2.0)
  {
    RootIsLargestModulus(a, b, 4.0, 2.0);
  }

  /** The differing cells of the test are 2i apart. */
  lemma TestCellDistance(p: Complex, q: Complex)
    requires p == Complex(1.0, 2.0) && q == Complex(1.0, 0.0)
    ensures NormSq(Sub(p, q)) == 4.0
  {
  }

  /** One more cell adds its squared difference m to the sum. */
  lemma SumSquaresStep(a: seq<Complex>, b: seq<Complex>, n: nat, m: real)
    requires n < |a| && n < |b| && NormSq(Sub(a[n], b[n])) == m
    ensures SumSquares(a, b, n + 1) == SumSquares(a, b, n) + m
  {
  }

  // ---------------------------------------------------------------------
  // Initial values from a function

  /** `set_by_func(f)` as written: the x coordinate passed to f is read
      from the y positions. With more columns than rows this reads past
      the y positions; the model only covers grids with sizex <= sizey. */
  function SetByFuncAsWritten(l: Layouts.DataLayout, f: (real, real) -> Complex): (s: State)
    requires l.sizex <= l.sizey
    ensures Valid(s) && s.layout == l
  {
    State(l, seq(l.N(), i requires 0 <= i < l.N() =>
      Layouts.CellOf(l, i);
      f(Layouts.Posy(l)[i % l.sizex], Layouts.Posy(l)[i / l.sizex])))
  }

  /** `set_by_func(f)` as intended: f is sampled at the centre of each
      grid box. */
  function SetByFunc(l: Layouts.DataLayout, f: (real, real) -> Complex): (s: State)
    ensures Valid(s) && s.layout == l
  {
    State(l, seq(l.N(), i requires 0 <= i < l.N() =>
      Layouts.CellOf(l, i);
      f(Layouts.Posx(l)[i % l.sizex], Layouts.Posy(l)[i / l.sizex])))
  }

  /** Grid point (x, y) holds f at its box centre (posx[x], posy[y]). */
  lemma {:induction false} SetByFuncCells(l: Layouts.DataLayout, f: (real, real) -> Complex, x: nat, y: nat)
    requires x < l.sizex && y < l.sizey
    ensures At(SetByFunc(l, f), x, y) == f(Layouts.Posx(l)[x], Layouts.Posy(l)[y])
  {
    Layouts.IndexInGrid(l, x, y);
  }

  /** On square grids the two agree, which is why the 2 x 2 tests pass. */
  lemma {:induction false} SetByFuncSquareAgrees(l: Layouts.DataLayout, f: (real, real) -> Complex)
    requires l.sizex == l.sizey
    ensures SetByFuncAsWritten(l, f) == SetByFunc(l, f)
  {
    assert Layouts.Posx(l) == Layouts.Posy(l);
  }

  /** On a 1 x 3 grid of spacing 1 the function f(x, y) = x + iy gives
      -1 - i at (0, 0) as written, where the box centre is (0, -1). */
  lemma SetByFuncAsWrittenMisplaces()
    ensures var l := Layouts.DataLayout(1, 3, 1.0); var f := (x: real, y: real) => Complex(x, y);
      SetByFuncAsWritten(l, f).data[0] == Complex(-1.0, -1.0)
      && SetByFunc(l, f).data[0] == Complex(0.0, -1.0)
  {
    var l := Layouts.DataLayout(1, 3, 1.0);
    assert Layouts.Posx(l)[0] == 0.0;
    assert Layouts.Posy(l)[0] == -1.0;
  }
}
