/** Small shared vocabulary: failure-carrying results and sums over reals. */
module Util {

  /** The outcome of an operation that can throw: either a value or the kind
      of exception the C++ code raises. */
  datatype Result<+T, +E> = Ok(value: T) | Err(error: E) {
    predicate IsFailure() {
      Err?
    }

    function PropagateFailure<U>(): Result<U, E>
      requires Err?
    {
      Err(error)
    }

    function Extract(): T
      requires Ok?
    {
      value
    }
  }

  datatype Option<+T> = None | Some(value: T)

  /** Sum of the first `k` elements, folded from the left. */
  function SumTo(s: seq<real>, k: nat): real
    requires k <= |s|
  {
    if k == 0 then 0.0 else SumTo(s, k - 1) + s[k - 1]
  }

  /** Sum of a sequence of reals, folded from the left. */
  function Sum(s: seq<real>): real
  {
    SumTo(s, |s|)
  }

  /** Arithmetic mean; `numpy.mean` is only applied to non-empty
      sequences here. */
  function Mean(s: seq<real>): real
    requires |s| > 0
  {
    Sum(s) / (|s| as real)
  }

  lemma SumNonNegative(s: seq<real>)
    requires forall i :: 0 <= i < |s| ==> s[i] >= 0.0
    ensures Sum(s) >= 0.0
  {
    PartialSumsNonNegative(s, |s|);
  }

  lemma {:induction false} PartialSumsNonNegative(s: seq<real>, k: nat)
    requires k <= |s|
    requires forall i :: 0 <= i < |s| ==> s[i] >= 0.0
    ensures SumTo(s, k) >= 0.0
  {
    if k > 0 {
      PartialSumsNonNegative(s, k - 1);
    }
  }

  lemma SumNonPositive(s: seq<real>)
    requires forall i :: 0 <= i < |s| ==> s[i] <= 0.0
    ensures Sum(s) <= 0.0
  {
    PartialSumsNonPositive(s, |s|);
  }

  lemma {:induction false} PartialSumsNonPositive(s: seq<real>, k: nat)
    requires k <= |s|
    requires forall i :: 0 <= i < |s| ==> s[i] <= 0.0
    ensures SumTo(s, k) <= 0.0
  {
    if k > 0 {
      PartialSumsNonPositive(s, k - 1);
    }
  }

  /** A non-negative sequence with one positive element has a positive sum. */
  lemma SumPositive(s: seq<real>, m: nat)
    requires m < |s|
    requires forall i :: 0 <= i < |s| ==> s[i] >= 0.0
    requires s[m] > 0.0
    ensures Sum(s) > 0.0
  {
    PartialSumsPositive(s, m, |s|);
  }

  lemma {:induction false} PartialSumsPositive(s: seq<real>, m: nat, k: nat)
    requires m < k <= |s|
    requires forall i :: 0 <= i < |s| ==> s[i] >= 0.0
    requires s[m] > 0.0
    ensures SumTo(s, k) > 0.0
  {
    if m == k - 1 {
      PartialSumsNonNegative(s, k - 1);
    } else {
      PartialSumsPositive(s, m, k - 1);
    }
  }

  /** Dividing every element by the same non-zero constant divides the sum. */
  lemma SumScaled(s: seq<real>, t: seq<real>, d: real)
    requires d != 0.0
    requires |t| == |s|
    requires forall i :: 0 <= i < |s| ==> t[i] == s[i] / d
    ensures Sum(t) == Sum(s) / d
  {
    PartialSumsScaled(s, t, d, |s|);
  }

  lemma {:induction false} PartialSumsScaled(s: seq<real>, t: seq<real>, d: real, k: nat)
    requires d != 0.0
    requires |t| == |s| && k <= |s|
    requires forall i :: 0 <= i < |s| ==> t[i] == s[i] / d
    ensures SumTo(t, k) == SumTo(s, k) / d
  {
    if k > 0 {
      PartialSumsScaled(s, t, d, k - 1);
      DivStep(SumTo(t, k - 1), SumTo(s, k - 1), t[k - 1], s[k - 1], d);
    }
  }

  lemma DivStep(st: real, ss: real, t: real, s: real, d: real)
    requires d != 0.0
    requires st == ss / d && t == s / d
    ensures st + t == (ss + s) / d
  {
  }

  /** Scaling every element by the same constant scales the sum. */
  lemma SumScaledBy(s: seq<real>, t: seq<real>, a: real)
    requires |t| == |s|
    requires forall i :: 0 <= i < |s| ==> t[i] == a * s[i]
    ensures Sum(t) == a * Sum(s)
  {
    PartialSumsScaledBy(s, t, a, |s|);
  }

  lemma {:induction false} PartialSumsScaledBy(s: seq<real>, t: seq<real>, a: real, k: nat)
    requires |t| == |s| && k <= |s|
    requires forall i :: 0 <= i < |s| ==> t[i] == a * s[i]
    ensures SumTo(t, k) == a * SumTo(s, k)
  {
    if k > 0 {
      PartialSumsScaledBy(s, t, a, k - 1);
      ScaleStep(SumTo(t, k - 1), SumTo(s, k - 1), t[k - 1], s[k - 1], a);
    }
  }

  lemma ScaleStep(st: real, ss: real, t: real, s: real, a: real)
    requires st == a * ss && t == a * s
    ensures st + t == a * (ss + s)
  {
  }

  /** Sums are linear: a pointwise affine combination of two sequences sums
      to the same combination of their sums. */
  lemma SumAffine(xs: seq<real>, ys: seq<real>, zs: seq<real>, a: real, b: real, c: real)
    requires |xs| == |ys| == |zs|
    requires forall i :: 0 <= i < |zs| ==> zs[i] == a * xs[i] + b * ys[i] + c
    ensures Sum(zs) == a * Sum(xs) + b * Sum(ys) + c * (|zs| as real)
  {
    PartialSumsAffine(xs, ys, zs, a, b, c, |zs|);
  }

  lemma {:induction false} PartialSumsAffine(xs: seq<real>, ys: seq<real>, zs: seq<real>, a: real, b: real, c: real, k: nat)
    requires |xs| == |ys| == |zs| && k <= |zs|
    requires forall i :: 0 <= i < |zs| ==> zs[i] == a * xs[i] + b * ys[i] + c
    ensures SumTo(zs, k) == a * SumTo(xs, k) + b * SumTo(ys, k) + c * (k as real)
  {
    if k > 0 {
      PartialSumsAffine(xs, ys, zs, a, b, c, k - 1);
      AffineStep(SumTo(zs, k - 1), SumTo(xs, k - 1), SumTo(ys, k - 1),
        zs[k - 1], xs[k - 1], ys[k - 1], a, b, c, (k - 1) as real);
    }
  }

  lemma AffineStep(sz: real, sx: real, sy: real, z: real, x: real, y: real, a: real, b: real, c: real, n: real)
    requires sz == a * sx + b * sy + c * n
    requires z == a * x + b * y + c
    ensures sz + z == a * (sx + x) + b * (sy + y) + c * (n + 1.0)
  {
  }

  /** Largest element of a sequence of naturals, or 0 for the empty one. */
  function MaxNat(s: seq<nat>): (m: nat)
    ensures forall i :: 0 <= i < |s| ==> s[i] <= m
    ensures |s| > 0 ==> exists i :: 0 <= i < |s| && s[i] == m
    ensures |s| == 0 ==> m == 0
  {
    if |s| == 0 then 0
    else
      var rest := MaxNat(s[1..]);
      assert forall i :: 1 <= i < |s| ==> s[i] == s[1..][i - 1];
      if s[0] >= rest then s[0]
      else
        assert exists i :: 0 <= i < |s[1..]| && s[1..][i] == rest;
        var j :| 0 <= j < |s[1..]| && s[1..][j] == rest;
        assert s[j + 1] == rest;
        rest
  }

  /** Integer power of ten as a real, for decimal literals with exponents. */
  function Pow10(e: int): (r: real)
    ensures r > 0.0
    decreases if e < 0 then -e else e
  {
    if e == 0 then 1.0
    else if e > 0 then 10.0 * Pow10(e - 1)
    else Pow10(e + 1) / 10.0
  }

  /** Natural power. */
  function PowNat(b: int, e: nat): int
  {
    if e == 0 then 1 else b * PowNat(b, e - 1)
  }

  /** Sign facts about products, which the solver does not find alone. */
  lemma ProductNonNegative(p: real, q: real)
    requires p >= 0.0 && q >= 0.0
    ensures p * q >= 0.0
  {
  }

  lemma ProductPositive(p: real, q: real)
    requires p > 0.0 && q > 0.0
    ensures p * q > 0.0
  {
  }

  /** Non-negative numbers are ordered as their squares are. */
  lemma SquareMonotone(a: real, b: real)
    requires a >= 0.0 && b >= 0.0
    ensures a <= b <==> a * a <= b * b
  {
    assert b * b - a * a == (b - a) * (b + a);
    if a <= b {
      ProductNonNegative(b - a, b + a);
    } else {
      ProductPositive(a - b, b + a);
    }
  }

  // ---------------------------------------------------------------------
  // Doubles at the edges of the reals

  /** A double that may have left the reals through a division by zero. */
  datatype Extended = Fin(v: real) | PosInf | NegInf | NaN

  /** `a / b` on finite doubles; the zero divisor is taken as +0. */
  function Quotient(a: real, b: real): (q: Extended)
    ensures b != 0.0 ==> q == Fin(a / b)
    ensures b == 0.0 ==> !q.Fin? && (q.NaN? <==> a == 0.0)
  {
    if b != 0.0 then Fin(a / b)
    else if a > 0.0 then PosInf
    else if a < 0.0 then NegInf
    else NaN
  }

  function Minus(x: Extended, y: Extended): Extended
  {
    match (x, y)
    case (Fin(a), Fin(b)) => Fin(a - b)
    case (NaN, _) => NaN
    case (_, NaN) => NaN
    case (PosInf, PosInf) => NaN
    case (NegInf, NegInf) => NaN
    case (PosInf, _) => PosInf
    case (NegInf, _) => NegInf
    case (_, PosInf) => NegInf
    case (_, NegInf) => PosInf
  }

  function RealAbs(a: real): real { if a < 0.0 then -a else a }

  /** `fabs`. */
  function Abs(x: Extended): Extended
  {
    match x
    case Fin(a) => Fin(RealAbs(a))
    case NaN => NaN
    case _ => PosInf
  }

  /** `x < limit` for a finite limit: NaN compares false. */
  predicate Below(x: Extended, limit: real)
  {
    match x
    case Fin(a) => a < limit
    case NegInf => true
    case _ => false
  }

  /** pi, known here only to lie between these bounds. */
  type PiRange = x: real | 3.14159 < x < 3.14160 witness 3.141592

  const Pi: PiRange
}
