/** The operator algebra (`operators.hpp`, `operatorproduct.cpp`,
    `operatorsum.cpp`, `simpleoperators.hpp`): operators act on the values
    of a state, products apply their factors one after another and sums add
    up what their terms make of the same state. The operators whose action
    is numerical (the exponentiated kinetic and potential energies) are
    `Primitive`s whose action is a parameter. */
module Operators {
  import opened Complexes

  /** The values of a state, in the order of its layout. */
  type Vector = seq<Complex>

  datatype Operator =
    | NullOperator
    | ZeroOperator
    | ConstantOperator(multiplier: Complex)
      /** An operator outside this model, known by name and by the
          workspace it asks for. */
    | Primitive(name: nat, workspace: nat)
      /** The factors in the order they were multiplied in. */
    | Product(factors: seq<Operator>)
    | Sum(terms: seq<Operator>)

  /** An action of the primitive operators, which keeps the number of
      values. */
  ghost predicate Preserves(act: (nat, Vector) -> Vector)
  {
    forall name, v :: |act(name, v)| == |v|
  }

  // ---------------------------------------------------------------------
  // Vectors

  /** `State::zero`. */
  function Zeros(n: nat): (z: Vector)
    ensures |z| == n && forall i | 0 <= i < n :: z[i] == Zero
  {
    seq(n, i => Zero)
  }

  /** `State::operator*=` by a complex number. */
  function Scale(c: Complex, v: Vector): (r: Vector)
    ensures |r| == |v| && forall i | 0 <= i < |v| :: r[i] == Mul(v[i], c)
  {
    seq(|v|, i requires 0 <= i < |v| => Mul(v[i], c))
  }

  /** `State::operator+=`. */
  function AddVectors(a: Vector, b: Vector): (r: Vector)
    requires |a| == |b|
    ensures |r| == |a| && forall i | 0 <= i < |a| :: r[i] == Add(a[i], b[i])
  {
    seq(|a|, i requires 0 <= i < |a| => Add(a[i], b[i]))
  }

  lemma AddZeros(v: Vector)
    ensures AddVectors(Zeros(|v|), v) == v
  {
    assert forall i | 0 <= i < |v| :: Add(Zero, v[i]) == v[i];
  }

  // ---------------------------------------------------------------------
  // What an operator does

  /** The action of an operator: a product is the composition of its
      factors, the first factor acting last; a sum adds up its terms'
      results on the same state, an empty sum giving zero. */
  function Apply(op: Operator, act: (nat, Vector) -> Vector, v: Vector): (r: Vector)
    requires Preserves(act)
    ensures |r| == |v|
    decreases op
  {
    match op
    case NullOperator => v
    case ZeroOperator => Zeros(|v|)
    case ConstantOperator(c) => Scale(c, v)
    case Primitive(name, _) => act(name, v)
    case Product(fs) => ApplyFactors(fs, act, v)
    case Sum(ts) => SumTerms(ts, act, v)
  }

  function ApplyFactors(fs: seq<Operator>, act: (nat, Vector) -> Vector, v: Vector): (r: Vector)
    requires Preserves(act)
    ensures |r| == |v|
    decreases fs
  {
    if fs == [] then v else Apply(fs[0], act, ApplyFactors(fs[1..], act, v))
  }

  function SumTerms(ts: seq<Operator>, act: (nat, Vector) -> Vector, v: Vector): (r: Vector)
    requires Preserves(act)
    ensures |r| == |v|
    decreases ts
  {
    if ts == [] then Zeros(|v|)
    else AddVectors(SumTerms(ts[..|ts| - 1], act, v), Apply(ts[|ts| - 1], act, v))
  }

  /** `OperatorProduct::operate`: the factors act from the last added to
      the first. */
  method OperateProduct(fs: seq<Operator>, act: (nat, Vector) -> Vector, v: Vector) returns (r: Vector)
    requires Preserves(act)
    ensures r == Apply(Product(fs), act, v)
  {
    r := v;
    var k := |fs|;
    while k > 0
      invariant 0 <= k <= |fs|
      invariant r == ApplyFactors(fs[k..], act, v)
    {
      k := k - 1;
      assert fs[k..][1..] == fs[k + 1..];
      r := Apply(fs[k], act, r);
    }
  }

  /** `OperatorSum::operate`: no terms zero the state and a single term is
      applied directly; otherwise the original is kept aside, the first
      term acts on the state, and every further term acts on a fresh copy
      of the original that is then added on. */
  method OperateSum(ts: seq<Operator>, act: (nat, Vector) -> Vector, v: Vector) returns (r: Vector)
    requires Preserves(act)
    ensures r == Apply(Sum(ts), act, v)
  {
    if |ts| == 0 {
      return Zeros(|v|);
    }
    if |ts| == 1 {
      r := Apply(ts[0], act, v);
      assert ts[..|ts| - 1] == [];
      AddZeros(r);
      assert SumTerms(ts, act, v) == AddVectors(Zeros(|v|), r);
      return;
    }
    var original := v;
    r := Apply(ts[0], act, v);
    assert ts[..1][..0] == [];
    AddZeros(r);
    var k := 1;
    while k < |ts|
      invariant 1 <= k <= |ts|
      invariant r == SumTerms(ts[..k], act, v)
    {
      var intermediate := Apply(ts[k], act, original);
      r := AddVectors(r, intermediate);
      assert ts[..k + 1][..k] == ts[..k];
      k := k + 1;
    }
    assert ts[..|ts|] == ts;
  }

  // ---------------------------------------------------------------------
  // Building products and sums

  /** The components a product or a sum starts from when it is copied,
      and a lone operator otherwise. */
  function FactorsOf(op: Operator): seq<Operator>
  {
    if op.Product? then op.factors else [op]
  }

  function TermsOf(op: Operator): seq<Operator>
  {
    if op.Sum? then op.terms else [op]
  }

  /** `a * b`: a copy of a's factors with b appended by `operator*=`. A
      right-hand side counts as one factor, whatever it is. */
  function Times(a: Operator, b: Operator): (p: Operator)
    ensures p.Product? && p.factors == FactorsOf(a) + [b]
  {
    Product(FactorsOf(a) + [b])
  }

  /** `a + b`: a copy of a's terms with b appended by `operator+=`. */
  function Plus(a: Operator, b: Operator): (s: Operator)
    ensures s.Sum? && s.terms == TermsOf(a) + [b]
  {
    Sum(TermsOf(a) + [b])
  }

  /** Appending a factor composes: the new factor acts first. */
  lemma {:induction false} ApplyAppended(fs: seq<Operator>, b: Operator, act: (nat, Vector) -> Vector, v: Vector)
    requires Preserves(act)
    ensures ApplyFactors(fs + [b], act, v) == ApplyFactors(fs, act, Apply(b, act, v))
    decreases |fs|
  {
    if fs != [] {
      assert (fs + [b])[1..] == fs[1..] + [b];
      ApplyAppended(fs[1..], b, act, v);
    }
  }

  /** a * b acts as b followed by a. */
  lemma TimesComposes(a: Operator, b: Operator, act: (nat, Vector) -> Vector, v: Vector)
    requires Preserves(act)
    ensures Apply(Times(a, b), act, v) == Apply(a, act, Apply(b, act, v))
  {
    ApplyAppended(FactorsOf(a), b, act, v);
    if !a.Product? {
      assert ApplyFactors([a], act, Apply(b, act, v)) == Apply(a, act, Apply(b, act, v)) by {
        assert [a][1..] == [];
      }
    }
  }

  /** a + b adds b's result to a's. */
  lemma PlusAdds(a: Operator, b: Operator, act: (nat, Vector) -> Vector, v: Vector)
    requires Preserves(act)
    ensures Apply(Plus(a, b), act, v) == AddVectors(Apply(a, act, v), Apply(b, act, v))
  {
    var ts := TermsOf(a) + [b];
    assert ts[..|ts| - 1] == TermsOf(a);
    assert Apply(Plus(a, b), act, v) == AddVectors(SumTerms(TermsOf(a), act, v), Apply(b, act, v));
    if !a.Sum? {
      SingleTerm(a, act, v);
    }
  }

  lemma SingleTerm(a: Operator, act: (nat, Vector) -> Vector, v: Vector)
    requires Preserves(act)
    ensures SumTerms([a], act, v) == Apply(a, act, v)
  {
    assert [a][..0] == [];
    AddZeros(Apply(a, act, v));
  }

  /** Products are associative: multiplying by the factors of p and then
      those of q composes the two. */
  lemma {:induction false} FactorsConcatenate(p: seq<Operator>, q: seq<Operator>, act: (nat, Vector) -> Vector, v: Vector)
    requires Preserves(act)
    ensures ApplyFactors(p + q, act, v) == ApplyFactors(p, act, ApplyFactors(q, act, v))
    decreases |p|
  {
    if p != [] {
      assert (p + q)[1..] == p[1..] + q;
      FactorsConcatenate(p[1..], q, act, v);
    } else {
      assert p + q == q;
    }
  }

  /** The empty product leaves the state alone, the empty sum zeroes it,
      and a one-term sum is its term. */
  lemma EmptyCases(o: Operator, act: (nat, Vector) -> Vector, v: Vector)
    requires Preserves(act)
    ensures Apply(Product([]), act, v) == v
    ensures Apply(Sum([]), act, v) == Zeros(|v|)
    ensures Apply(Sum([o]), act, v) == Apply(o, act, v)
    ensures Apply(Product([o]), act, v) == Apply(o, act, v)
  {
    assert [o][..0] == [];
    assert [o][1..] == [];
    AddZeros(Apply(o, act, v));
  }

  // ---------------------------------------------------------------------
  // Workspace

  /** `required_workspace`: the states an operator borrows. A product needs
      the most any factor needs; a sum of two or more terms needs two more
      than that, for the original state and the intermediate result. */
  function Required(op: Operator): nat
    decreases op
  {
    match op
    case NullOperator => 0
    case ZeroOperator => 0
    case ConstantOperator(_) => 0
    case Primitive(_, w) => w
    case Product(fs) => MaxRequired(fs)
    case Sum(ts) =>
      if |ts| == 0 then 0
      else if |ts| == 1 then Required(ts[0])
      else MaxRequired(ts) + 2
  }

  function MaxRequired(os: seq<Operator>): (m: nat)
    ensures forall k | 0 <= k < |os| :: Required(os[k]) <= m
    ensures os == [] ==> m == 0
    ensures os != [] ==> exists k | 0 <= k < |os| :: Required(os[k]) == m
    decreases os
  {
    if os == [] then 0
    else
      var rest := MaxRequired(os[1..]);
      var here := Required(os[0]);
      assert forall k | 1 <= k < |os| :: os[k] == os[1..][k - 1];
      if here >= rest then here else rest
  }

  /** The workspace each nested call receives is enough for what its
      `operate` touches. A primitive's `operator()` checks the workspace
      against its own need; a product hands its whole workspace to every
      factor; a sum of two or more terms reads `workspace[0]` and
      `workspace[1]` and hands the slice after them to every term; a
      one-term sum hands everything to its term. No composite check is
      assumed here: the bound comes from the leaves and the slicing. */
  ghost predicate CallsSucceed(op: Operator, n: nat)
    decreases op
  {
    match op
    case Primitive(_, w) => w <= n
    case Product(fs) => forall k | 0 <= k < |fs| :: CallsSucceed(fs[k], n)
    case Sum(ts) =>
      if |ts| == 0 then true
      else if |ts| == 1 then CallsSucceed(ts[0], n)
      else n >= 2 && forall k | 0 <= k < |ts| :: CallsSucceed(ts[k], n - 2)
    case _ => true
  }

  /** A workspace of the required size is enough for every nested call. */
  lemma {:induction false} RequiredSuffices(op: Operator, n: nat)
    requires Required(op) <= n
    ensures CallsSucceed(op, n)
    decreases op
  {
    match op
    case Product(fs) =>
      forall k | 0 <= k < |fs|
        ensures CallsSucceed(fs[k], n)
      {
        RequiredSuffices(fs[k], n);
      }
    case Sum(ts) =>
      if |ts| == 1 {
        RequiredSuffices(ts[0], n);
      } else if |ts| > 1 {
        forall k | 0 <= k < |ts|
          ensures CallsSucceed(ts[k], n - 2)
        {
          RequiredSuffices(ts[k], n - 2);
        }
      }
    case _ =>
  }

  /** No smaller workspace lets every nested call through: the factor or
      term with the largest need forces the maximum, and a sum's two
      reserved states force the extra two. So `required_workspace` is the
      least workspace that works. */
  lemma {:induction false} RequiredIsLeast(op: Operator, n: nat)
    requires CallsSucceed(op, n)
    ensures Required(op) <= n
    decreases op
  {
    match op
    case Product(fs) =>
      if fs != [] {
        var k :| 0 <= k < |fs| && Required(fs[k]) == MaxRequired(fs);
        RequiredIsLeast(fs[k], n);
      }
    case Sum(ts) =>
      if |ts| == 1 {
        RequiredIsLeast(ts[0], n);
      } else if |ts| > 1 {
        var k :| 0 <= k < |ts| && Required(ts[k]) == MaxRequired(ts);
        RequiredIsLeast(ts[k], n - 2);
      }
    case _ =>
  }

  // ---------------------------------------------------------------------
  // The unit tests

  const Two: Operator := ConstantOperator(Of(2.0))
  const Imag: Operator := ConstantOperator(I)

  /** Two * Two * I multiplies by 4i, and Two + Two + I gives
      2a + 2a + ia, on any state a; the sum fits a workspace of two. */
  lemma TestOperators(act: (nat, Vector) -> Vector, a: Vector)
    requires Preserves(act)
    ensures Apply(Times(Times(Two, Two), Imag), act, a) == Scale(Complex(0.0, 4.0), a)
    ensures Apply(Plus(Plus(Two, Two), Imag), act, a)
      == AddVectors(AddVectors(Scale(Of(2.0), a), Scale(Of(2.0), a)), Scale(I, a))
    ensures Required(Plus(Plus(Two, Two), Imag)) == 2
  {
    TimesComposes(Times(Two, Two), Imag, act, a);
    TimesComposes(Two, Two, act, Apply(Imag, act, a));
    PlusAdds(Plus(Two, Two), Imag, act, a);
    PlusAdds(Two, Two, act, a);
    var ts := Plus(Plus(Two, Two), Imag).terms;
    assert ts == [Two, Two, Imag];
    assert MaxRequired(ts) == 0;
  }
}
