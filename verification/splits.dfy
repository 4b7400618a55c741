/** The split-operator approximations of the imaginary-time evolution
    operator (`secondordersplit.cpp`, `multiproductsplit.cpp`): the
    second-order Störmer–Verlet factorisation and its powers, and the
    multi-product expansion that sums such powers with rational
    coefficients. The exponentials themselves are `Primitive` operators;
    what is modelled is which of them are built, in what order, with which
    coefficients, time steps and prefactors, and who releases them. */
module Splits {
  import opened Util
  import Operators

  // ---------------------------------------------------------------------
  // The second-order split

  /** The evolution operators a split allocates, as object identities: the
      kinetic part, the half-step potential, the full-step potential used
      between kinetic parts, and the half-step potential carrying the
      prefactor. */
  datatype Part = Kinetic | HalfPotential | SquarePotential | PrefactorPotential

  /** `ExpKinetic` or `ExpPotential`: p · exp(c · τ · X) for the kinetic or
      potential energy X, coefficient c, prefactor p and time step τ. */
  datatype Exponential = Exponential(ofPotential: bool, coefficient: real, prefactor: Extended, timeStep: real)

  /** Where `potential_with_prefactor` points: nowhere, at the half-step
      object, or at an object of its own. */
  datatype PrefactorPointer = NoPrefactorPart | SharesHalf | OwnPart(part: Exponential)

  /** The objects a split reaches through its four pointers (`None` for a
      null pointer; the kinetic part always exists) and its factors, in the
      order they were multiplied in. */
  datatype SecondOrderSplit = SecondOrderSplit(
    kinetic: Exponential, half: Option<Exponential>, square: Option<Exponential>,
    withPrefactor: PrefactorPointer, factors: seq<Part>)

  /** The object a part names, if it was allocated. */
  function Lookup(sp: SecondOrderSplit, p: Part): Option<Exponential>
  {
    match p
    case Kinetic => Some(sp.kinetic)
    case HalfPotential => sp.half
    case SquarePotential => sp.square
    case PrefactorPotential => if sp.withPrefactor.OwnPart? then Some(sp.withPrefactor.part) else None
  }

  /** The prefactor pointer shares the half-step object only when there is
      one, and every factor names an allocated object. */
  ghost predicate Valid(sp: SecondOrderSplit)
  {
    && (sp.withPrefactor.SharesHalf? ==> sp.half.Some?)
    && (forall i | 0 <= i < |sp.factors| :: Lookup(sp, sp.factors[i]).Some?)
  }

  /** The factors (V², K) added for t = 2 .. exponent. */
  function Middle(exponent: int): (m: seq<Part>)
    ensures |m| == if exponent < 2 then 0 else 2 * (exponent - 1)
    ensures forall i | 0 <= i < |m| :: m[i] == if i % 2 == 0 then SquarePotential else Kinetic
    decreases exponent
  {
    if exponent < 2 then [] else Middle(exponent - 1) + [SquarePotential, Kinetic]
  }

  /** The `SecondOrderSplit` constructor. With a potential the product is
      exp(-τV/2)·p, exp(-τT), then (exp(-τV), exp(-τT)) for every further
      power, and exp(-τV/2); a prefactor of exactly one reuses the
      half-step object. Without a potential no splitting is needed and the
      single factor is p · exp(-exponent · τ · T). */
  function NewSecondOrderSplit(potentialIsNull: bool, timeStep: real, prefactor: Extended, exponent: int): (sp: SecondOrderSplit)
    ensures Valid(sp) && Kinetic in sp.factors
    ensures !potentialIsNull ==> |sp.factors| == 2 * (if exponent < 1 then 1 else exponent) + 1
    ensures !potentialIsNull ==> (sp.withPrefactor.SharesHalf? <==> prefactor == Fin(1.0))
    ensures sp.square.Some? <==> !potentialIsNull && exponent >= 2
    ensures potentialIsNull ==>
      (sp.factors == [Kinetic] && sp.kinetic == Exponential(false, -exponent as real, prefactor, timeStep))
    ensures forall p | Lookup(sp, p).Some? :: Lookup(sp, p).value.timeStep == timeStep
    ensures Lookup(sp, sp.factors[0]).value.prefactor == prefactor
    ensures forall i | 1 <= i < |sp.factors| :: Lookup(sp, sp.factors[i]).value.prefactor == Fin(1.0)
  {
    if !potentialIsNull then
      var shared := prefactor == Fin(1.0);
      SecondOrderSplit(
        Exponential(false, -1.0, Fin(1.0), timeStep),
        Some(Exponential(true, -0.5, Fin(1.0), timeStep)),
        if exponent >= 2 then Some(Exponential(true, -1.0, Fin(1.0), timeStep)) else None,
        if shared then SharesHalf else OwnPart(Exponential(true, -0.5, prefactor, timeStep)),
        [if shared then HalfPotential else PrefactorPotential, Kinetic] + Middle(exponent) + [HalfPotential])
    else
      SecondOrderSplit(Exponential(false, -1.0 * exponent as real, prefactor, timeStep),
        None, None, NoPrefactorPart, [Kinetic])
  }

  ghost predicate Distinct(l: seq<Part>)
  {
    forall i, j | 0 <= i < j < |l| :: l[i] != l[j]
  }

  /** The parts of `order` that name allocated objects, in order. */
  function KeepAllocated(sp: SecondOrderSplit, order: seq<Part>): (kept: seq<Part>)
    ensures forall p :: p in kept <==> p in order && Lookup(sp, p).Some?
    ensures Distinct(order) ==> Distinct(kept)
  {
    if order == [] then []
    else (if Lookup(sp, order[0]).Some? then [order[0]] else []) + KeepAllocated(sp, order[1..])
  }

  /** The destructor deletes the kinetic part, the squared potential, the
      prefactor potential unless it is the half-step one, and the half-step
      potential, in that order (deleting a null pointer does nothing).
      Every allocated object is released exactly once. */
  function Destroy(sp: SecondOrderSplit): (released: seq<Part>)
    ensures Distinct(released)
    ensures forall p :: p in released <==> Lookup(sp, p).Some?
  {
    KeepAllocated(sp, [Kinetic, SquarePotential, PrefactorPotential, HalfPotential])
  }

  /** The parts `set_time_step` updates, in order: the kinetic part, then
      every non-null potential part, the prefactor one only when it is not
      the half-step one. Every allocated object is updated exactly once. */
  function UpdateOrder(sp: SecondOrderSplit): (updated: seq<Part>)
    ensures Distinct(updated)
    ensures forall p :: p in updated <==> Lookup(sp, p).Some?
  {
    KeepAllocated(sp, [Kinetic, HalfPotential, SquarePotential, PrefactorPotential])
  }

  function Restep(o: Option<Exponential>, timeStep: real): Option<Exponential>
  {
    if o.Some? then Some(o.value.(timeStep := timeStep)) else None
  }

  /** `set_time_step`: every object in `UpdateOrder` takes the new step;
      nothing else changes. */
  function SetTimeStep(sp: SecondOrderSplit, timeStep: real): (r: SecondOrderSplit)
    ensures r.factors == sp.factors
    ensures forall p :: Lookup(r, p) == if p in UpdateOrder(sp) then Restep(Lookup(sp, p), timeStep) else Lookup(sp, p)
    ensures Valid(sp) ==> Valid(r)
  {
    sp.(kinetic := sp.kinetic.(timeStep := timeStep),
        half := Restep(sp.half, timeStep),
        square := Restep(sp.square, timeStep),
        withPrefactor := if sp.withPrefactor.OwnPart? then OwnPart(sp.withPrefactor.part.(timeStep := timeStep)) else sp.withPrefactor)
  }

  /** Changing the time step of a built split is the same as building it
      with the new step. */
  lemma SetTimeStepRebuilds(potentialIsNull: bool, t0: real, t1: real, prefactor: Extended, exponent: int)
    ensures SetTimeStep(NewSecondOrderSplit(potentialIsNull, t0, prefactor, exponent), t1)
      == NewSecondOrderSplit(potentialIsNull, t1, prefactor, exponent)
  {
  }

  // ---------------------------------------------------------------------
  // The factor list is a power of the symmetric split

  /** What a factor does, up to its prefactor: exp(c τ V) or exp(c τ T). */
  datatype Step = V(c: real) | T(c: real)

  function StepOf(e: Exponential): Step
  {
    if e.ofPotential then V(e.coefficient) else T(e.coefficient)
  }

  /** The steps of a list of parts that all name allocated objects. */
  function MapSteps(sp: SecondOrderSplit, ps: seq<Part>): (s: seq<Step>)
    requires forall i | 0 <= i < |ps| :: Lookup(sp, ps[i]).Some?
    ensures |s| == |ps| && forall i | 0 <= i < |ps| :: s[i] == StepOf(Lookup(sp, ps[i]).value)
  {
    seq(|ps|, i requires 0 <= i < |ps| => StepOf(Lookup(sp, ps[i]).value))
  }

  function Steps(sp: SecondOrderSplit): (s: seq<Step>)
    requires Valid(sp)
    ensures |s| == |sp.factors|
  {
    MapSteps(sp, sp.factors)
  }

  /** The e-th power of exp(-τV/2) exp(-τT) exp(-τV/2). */
  function Strang(e: nat): seq<Step>
  {
    if e == 0 then [] else [V(-0.5), T(-1.0), V(-0.5)] + Strang(e - 1)
  }

  /** Adjacent potential exponentials combine into one:
      exp(aτV) exp(bτV) = exp((a + b)τV). */
  function Merge(s: seq<Step>): seq<Step>
    decreases |s|
  {
    if |s| <= 1 then s
    else if s[0].V? && s[1].V? then Merge([V(s[0].c + s[1].c)] + s[2..])
    else [s[0]] + Merge(s[1..])
  }

  /** The steps after the first kinetic factor of a split of the given
      exponent: the full potential steps and kinetic steps in turn, ending
      on the half potential step. */
  function Tail(k: nat): seq<Step>
  {
    if k == 0 then [V(-0.5)] else [V(-1.0), T(-1.0)] + Tail(k - 1)
  }

  lemma {:induction false} MergeTail(k: nat)
    ensures Merge([V(-0.5)] + Strang(k)) == Tail(k)
  {
    if k > 0 {
      var rest := Strang(k - 1);
      var s := [V(-0.5)] + Strang(k);
      assert s == [V(-0.5), V(-0.5), T(-1.0), V(-0.5)] + rest;
      assert Merge(s) == Merge([V(-1.0), T(-1.0), V(-0.5)] + rest) by {
        assert s[2..] == [T(-1.0), V(-0.5)] + rest;
        assert [V(-1.0)] + s[2..] == [V(-1.0), T(-1.0), V(-0.5)] + rest;
      }
      var u := [V(-1.0), T(-1.0), V(-0.5)] + rest;
      assert Merge(u) == [V(-1.0)] + Merge(u[1..]) by {
        assert u[1..] == [T(-1.0), V(-0.5)] + rest;
      }
      var w := u[1..];
      assert w == [T(-1.0), V(-0.5)] + rest;
      assert Merge(w) == [T(-1.0)] + Merge(w[1..]);
      assert w[1..] == [V(-0.5)] + rest;
      MergeTail(k - 1);
    }
  }

  /** The factors after the first kinetic one step as Tail(exponent - 1). */
  lemma {:induction false} MiddleTail(sp: SecondOrderSplit, exponent: int)
    requires exponent >= 1 && sp.half.Some?
    requires StepOf(sp.kinetic) == T(-1.0) && StepOf(sp.half.value) == V(-0.5)
    requires exponent >= 2 ==> sp.square.Some? && StepOf(sp.square.value) == V(-1.0)
    ensures forall i | 0 <= i < |Middle(exponent) + [HalfPotential]| :: Lookup(sp, (Middle(exponent) + [HalfPotential])[i]).Some?
    ensures MapSteps(sp, Middle(exponent) + [HalfPotential]) == Tail(exponent - 1)
    decreases exponent
  {
    if exponent >= 2 {
      var prefix := Middle(exponent - 1);
      var tail := [SquarePotential, Kinetic, HalfPotential];
      MiddleTail(sp, exponent - 1);
      MapStepsConcat(sp, prefix, [HalfPotential]);
      var before := MapSteps(sp, prefix + [HalfPotential]);
      assert before == Tail(exponent - 2);
      assert MapSteps(sp, prefix) == before[..|before| - 1];
      assert Middle(exponent) + [HalfPotential] == prefix + tail;
      MapStepsConcat(sp, prefix, tail);
      assert MapSteps(sp, tail) == [V(-1.0), T(-1.0), V(-0.5)];
      TailSplits(exponent - 2);
    }
  }

  lemma MapStepsConcat(sp: SecondOrderSplit, a: seq<Part>, b: seq<Part>)
    requires forall i | 0 <= i < |a| :: Lookup(sp, a[i]).Some?
    requires forall i | 0 <= i < |b| :: Lookup(sp, b[i]).Some?
    ensures forall i | 0 <= i < |a + b| :: Lookup(sp, (a + b)[i]).Some?
    ensures MapSteps(sp, a + b) == MapSteps(sp, a) + MapSteps(sp, b)
  {
  }

  /** Tail(k + 1) is Tail(k) with its final half step replaced by a full
      step, a kinetic step and a half step. */
  lemma {:induction false} TailSplits(k: nat)
    ensures Tail(k + 1) == Tail(k)[..|Tail(k)| - 1] + [V(-1.0), T(-1.0), V(-0.5)]
    ensures |Tail(k)| >= 1 && Tail(k)[|Tail(k)| - 1] == V(-0.5)
  {
    if k > 0 {
      TailSplits(k - 1);
    }
  }

  /** The symmetric power starts with a half potential step and a kinetic
      step, and the rest merges into Tail(e - 1). */
  lemma {:induction false} StrangHead(e: nat)
    requires e >= 1
    ensures Merge(Strang(e)) == [V(-0.5), T(-1.0)] + Tail(e - 1)
  {
    MergeTail(e - 1);
    var s := Strang(e);
    assert s == [V(-0.5), T(-1.0)] + ([V(-0.5)] + Strang(e - 1));
    assert Merge(s) == [V(-0.5)] + Merge(s[1..]);
    assert s[1..] == [T(-1.0)] + ([V(-0.5)] + Strang(e - 1));
    assert Merge(s[1..]) == [T(-1.0)] + Merge(s[2..]);
    assert s[2..] == [V(-0.5)] + Strang(e - 1);
  }

  /** With a potential, the factors are the e-th power of the symmetric
      split with neighbouring half steps of the potential merged, so the
      product takes e time steps of the kinetic and the potential energy
      alike. */
  lemma SplitIsStrangPower(timeStep: real, prefactor: Extended, exponent: nat)
    requires exponent >= 1
    ensures Steps(NewSecondOrderSplit(false, timeStep, prefactor, exponent)) == Merge(Strang(exponent))
  {
    var sp := NewSecondOrderSplit(false, timeStep, prefactor, exponent);
    var rest := Middle(exponent) + [HalfPotential];
    assert sp.factors == [sp.factors[0], Kinetic] + rest;
    MiddleTail(sp, exponent);
    StrangHead(exponent);
    MapStepsConcat(sp, [sp.factors[0], Kinetic], rest);
  }

  // ---------------------------------------------------------------------
  // The multi-product coefficients

  /** t^e. */
  function Power(t: nat, e: nat): (p: nat)
    ensures t > 0 ==> p > 0
  {
    if e == 0 then 1 else t * Power(t, e - 1)
  }

  /** The product of t² - n² over n = 1 .. k, n ≠ t, exactly. */
  function Denominator(t: int, k: nat): int
  {
    if k == 0 then 1
    else if k == t then Denominator(t, k - 1)
    else Denominator(t, k - 1) * (t * t - k * k)
  }

  /** A C++ `int` result: the value reduced into [-2³¹, 2³¹). Signed
      overflow wraps around as in two's complement. */
  function Wrap(x: int): (w: int)
    ensures -0x8000_0000 <= w < 0x8000_0000
  {
    (x + 0x8000_0000) % 0x1_0000_0000 - 0x8000_0000
  }

  /** `calculate_coefficients`' denominator: starting from 1 and multiplied
      by t² - n² for n = 1 .. k, n ≠ t, in `int` arithmetic. */
  function DenominatorAsWritten(t: int, k: nat): (d: int)
    ensures -0x8000_0000 <= d < 0x8000_0000
  {
    if k == 0 then 1
    else if k == t then DenominatorAsWritten(t, k - 1)
    else Wrap(DenominatorAsWritten(t, k - 1) * Wrap(t * t - k * k))
  }

  /** Numbers that differ by a multiple of 2³² wrap to the same int. */
  lemma WrapCongruent(x: int, j: int)
    ensures Wrap(x + j * 0x1_0000_0000) == Wrap(x)
  {
  }

  /** Wrapping is a ring homomorphism for multiplication. */
  lemma {:induction false} WrapMultiplies(a: int, b: int)
    ensures Wrap(Wrap(a) * Wrap(b)) == Wrap(a * b)
  {
    var m := 0x1_0000_0000;
    var i := (a + 0x8000_0000) / m;
    var j := (b + 0x8000_0000) / m;
    assert Wrap(a) == a - i * m;
    assert Wrap(b) == b - j * m;
    var k := i * b + j * a - i * j * m;
    assert Wrap(a) * Wrap(b) == a * b + (-k) * m;
    WrapCongruent(a * b, -k);
  }

  /** The int denominator is the exact one reduced modulo 2³². */
  lemma {:induction false} AsWrittenIsWrapped(t: int, k: nat)
    ensures DenominatorAsWritten(t, k) == Wrap(Denominator(t, k))
  {
    if k == 0 {
    } else if k == t {
      AsWrittenIsWrapped(t, k - 1);
    } else {
      AsWrittenIsWrapped(t, k - 1);
      WrapMultiplies(Denominator(t, k - 1), t * t - k * k);
      WrapIdempotent(Denominator(t, k - 1));
    }
  }

  lemma WrapIdempotent(x: int)
    ensures Wrap(Wrap(x)) == Wrap(x)
  {
  }

  /** No factor vanishes, so neither does the exact denominator. */
  lemma {:induction false} DenominatorNonZero(t: nat, k: nat)
    requires t >= 1
    ensures Denominator(t, k) != 0
  {
    if k > 0 {
      DenominatorNonZero(t, k - 1);
      if k != t {
        SquaresDiffer(t, k);
        NonZeroProduct(Denominator(t, k - 1), t * t - k * k);
      }
    }
  }

  lemma SquaresDiffer(t: nat, k: nat)
    requires t != k
    ensures t * t != k * k
  {
    if t < k {
      SquareMonotone(t, k);
    } else {
      SquareMonotone(k, t);
    }
  }

  lemma SquareMonotone(a: nat, b: nat)
    requires a < b
    ensures a * a < b * b
  {
    assert a * a <= a * b;
    assert a * b < b * b;
  }

  lemma NonZeroProduct(a: int, b: int)
    requires a != 0 && b != 0
    ensures a * b != 0
  {
  }

  /** The intended coefficient c_t = t^(2(h-1)) / Π_{n≠t} (t² - n²) of
      the expansion of order 2h, as an exact rational. */
  function Coefficient(h: nat, t: nat): real
    requires 1 <= t <= h
  {
    DenominatorNonZero(t, h);
    Power(t, 2 * (h - 1)) as real / Denominator(t, h) as real
  }

  /** The coefficient as `calculate_coefficients` computes it: the power
      divided by the int denominator, infinite when that wrapped to zero. */
  function CoefficientAsWritten(h: nat, t: nat): (c: Extended)
    requires 1 <= t <= h
    ensures c.PosInf? <==> DenominatorAsWritten(t, h) == 0
  {
    var d := DenominatorAsWritten(t, h);
    if d == 0 then PosInf else Fin(Power(t, 2 * (h - 1)) as real / d as real)
  }

  /** c_1 + .. + c_k of the expansion of order 2h. */
  function CoefficientSum(h: nat, k: nat): real
    requires k <= h
  {
    if k == 0 then 0.0 else CoefficientSum(h, k - 1) + Coefficient(h, k)
  }

  /** The int denominators fit below order 16: up to half order 7 the
      computed coefficients are the intended ones. */
  lemma {:induction false} SmallOrdersExact(h: nat, t: nat)
    requires 1 <= t <= h <= 7
    ensures CoefficientAsWritten(h, t) == Fin(Coefficient(h, t))
  {
    AsWrittenIsWrapped(t, h);
    FitsUpToSeven(h, t);
    DenominatorNonZero(t, h);
  }

  predicate FitsFrom(h: nat, t: nat)
    decreases h - t
  {
    t > h || (-0x8000_0000 <= Denominator(t, h) < 0x8000_0000 && FitsFrom(h, t + 1))
  }

  lemma {:induction false} FitsFromGives(h: nat, t0: nat, t: nat)
    requires FitsFrom(h, t0) && t0 <= t <= h
    ensures -0x8000_0000 <= Denominator(t, h) < 0x8000_0000
    decreases t - t0
  {
    if t0 < t {
      FitsFromGives(h, t0 + 1, t);
    }
  }

  lemma {:induction false} FitsUpToSeven(h: nat, t: nat)
    requires 1 <= t <= h <= 7
    ensures Wrap(Denominator(t, h)) == Denominator(t, h)
  {
    if h == 1 {
      FitsOrder1();
    } else if h == 2 {
      FitsOrder2();
    } else if h == 3 {
      FitsOrder3();
    } else if h == 4 {
      FitsOrder4();
    } else if h == 5 {
      FitsOrder5();
    } else if h == 6 {
      FitsOrder6();
    } else {
      FitsOrder7();
    }
    FitsFromGives(h, 1, t);
  }

  lemma FitsOrder1()
    ensures FitsFrom(1, 1)
  {
    assert Denominator(1, 1) == 1;
    assert FitsFrom(1, 1);
  }

  lemma FitsOrder2()
    ensures FitsFrom(2, 1)
  {
    assert Denominator(1, 2) == -3;
    assert Denominator(2, 2) == 3;
    assert FitsFrom(2, 2);
    assert FitsFrom(2, 1);
  }

  lemma FitsOrder3()
    ensures FitsFrom(3, 1)
  {
    assert Denominator(1, 3) == 24;
    assert Denominator(2, 3) == -15;
    assert Denominator(3, 3) == 40;
    assert FitsFrom(3, 3);
    assert FitsFrom(3, 2);
    assert FitsFrom(3, 1);
  }

  lemma FitsOrder4()
    ensures FitsFrom(4, 1)
  {
    assert Denominator(1, 4) == -360;
    assert Denominator(2, 4) == 180;
    assert Denominator(3, 4) == -280;
    assert Denominator(4, 4) == 1260;
    assert FitsFrom(4, 4);
    assert FitsFrom(4, 3);
    assert FitsFrom(4, 2);
    assert FitsFrom(4, 1);
  }

  lemma FitsOrder5()
    ensures FitsFrom(5, 1)
  {
    assert Denominator(1, 5) == 8640;
    assert Denominator(2, 5) == -3780;
    assert Denominator(3, 5) == 4480;
    assert Denominator(4, 5) == -11340;
    assert Denominator(5, 5) == 72576;
    assert FitsFrom(5, 5);
    assert FitsFrom(5, 4);
    assert FitsFrom(5, 3);
    assert FitsFrom(5, 2);
    assert FitsFrom(5, 1);
  }

  lemma FitsOrder6()
    ensures FitsFrom(6, 1)
  {
    assert Denominator(1, 6) == -302400;
    assert Denominator(2, 6) == 120960;
    assert Denominator(3, 6) == -120960;
    assert Denominator(4, 6) == 226800;
    assert Denominator(5, 6) == -798336;
    assert Denominator(6, 6) == 6652800;
    assert FitsFrom(6, 6);
    assert FitsFrom(6, 5);
    assert FitsFrom(6, 4);
    assert FitsFrom(6, 3);
    assert FitsFrom(6, 2);
    assert FitsFrom(6, 1);
  }

  lemma FitsOrder7()
    ensures FitsFrom(7, 1)
  {
    assert Denominator(1, 7) == 14515200;
    assert Denominator(2, 7) == -5443200;
    assert Denominator(3, 7) == 4838400;
    assert Denominator(4, 7) == -7484400;
    assert Denominator(5, 7) == 19160064;
    assert Denominator(6, 7) == -86486400;
    assert Denominator(7, 7) == 889574400;
    assert FitsFrom(7, 7);
    assert FitsFrom(7, 6);
    assert FitsFrom(7, 5);
    assert FitsFrom(7, 4);
    assert FitsFrom(7, 3);
    assert FitsFrom(7, 2);
    assert FitsFrom(7, 1);
  }

  /** The coefficients of every order up to 16 sum to one, so that the
      expansion reproduces the exact evolution to leading order. */
  lemma CoefficientsSumToOne(h: nat)
    requires 1 <= h <= 8
    ensures CoefficientSum(h, h) == 1.0
  {
    if h == 1 {
      SumToOne1();
    } else if h == 2 {
      SumToOne2();
    } else if h == 3 {
      SumToOne3();
    } else if h == 4 {
      SumToOne4();
    } else if h == 5 {
      SumToOne5();
    } else if h == 6 {
      SumToOne6();
    } else if h == 7 {
      SumToOne7();
    } else {
      SumToOne8();
    }
  }

  lemma SumToOne1()
    ensures CoefficientSum(1, 1) == 1.0
  {
    assert Power(1, 0) == 1 && Denominator(1, 1) == 1;
    assert CoefficientSum(1, 1) == 1.0 / 1.0;
  }

  lemma SumToOne2()
    ensures CoefficientSum(2, 2) == 1.0
  {
    assert Power(1, 2) == 1 && Denominator(1, 2) == -3;
    assert Power(2, 2) == 4 && Denominator(2, 2) == 3;
    assert CoefficientSum(2, 2) == 1.0 / (-3.0) + 4.0 / 3.0;
  }

  lemma SumToOne3()
    ensures CoefficientSum(3, 3) == 1.0
  {
    assert Power(1, 4) == 1 && Denominator(1, 3) == 24;
    assert Power(2, 4) == 16 && Denominator(2, 3) == -15;
    assert Power(3, 4) == 81 && Denominator(3, 3) == 40;
    assert CoefficientSum(3, 3) == 1.0 / 24.0 + 16.0 / (-15.0) + 81.0 / 40.0;
  }

  lemma SumToOne4()
    ensures CoefficientSum(4, 4) == 1.0
  {
    assert Power(1, 6) == 1 && Denominator(1, 4) == -360;
    assert Power(2, 6) == 64 && Denominator(2, 4) == 180;
    assert Power(3, 6) == 729 && Denominator(3, 4) == -280;
    assert Power(4, 6) == 4096 && Denominator(4, 4) == 1260;
    assert CoefficientSum(4, 4) == 1.0 / (-360.0) + 64.0 / 180.0 + 729.0 / (-280.0) + 4096.0 / 1260.0;
  }

  lemma SumToOne5()
    ensures CoefficientSum(5, 5) == 1.0
  {
    assert Power(1, 8) == 1 && Denominator(1, 5) == 8640;
    assert Power(2, 8) == 256 && Denominator(2, 5) == -3780;
    assert Power(3, 8) == 6561 && Denominator(3, 5) == 4480;
    assert Power(4, 8) == 65536 && Denominator(4, 5) == -11340;
    assert Power(5, 8) == 390625 && Denominator(5, 5) == 72576;
    assert CoefficientSum(5, 5) == 1.0 / 8640.0 + 256.0 / (-3780.0) + 6561.0 / 4480.0 + 65536.0 / (-11340.0) + 390625.0 / 72576.0;
  }

  lemma SumToOne6()
    ensures CoefficientSum(6, 6) == 1.0
  {
    assert Power(1, 10) == 1 && Denominator(1, 6) == -302400;
    assert Power(2, 10) == 1024 && Denominator(2, 6) == 120960;
    assert Power(3, 10) == 59049 && Denominator(3, 6) == -120960;
    assert Power(4, 10) == 1048576 && Denominator(4, 6) == 226800;
    assert Power(5, 10) == 9765625 && Denominator(5, 6) == -798336;
    assert Power(6, 10) == 60466176 && Denominator(6, 6) == 6652800;
    assert CoefficientSum(6, 6) == 1.0 / (-302400.0) + 1024.0 / 120960.0 + 59049.0 / (-120960.0) + 1048576.0 / 226800.0 + 9765625.0 / (-798336.0) + 60466176.0 / 6652800.0;
  }

  lemma SumToOne7()
    ensures CoefficientSum(7, 7) == 1.0
  {
    assert Power(1, 12) == 1 && Denominator(1, 7) == 14515200;
    assert Power(2, 12) == 4096 && Denominator(2, 7) == -5443200;
    assert Power(3, 12) == 531441 && Denominator(3, 7) == 4838400;
    assert Power(4, 12) == 16777216 && Denominator(4, 7) == -7484400;
    assert Power(5, 12) == 244140625 && Denominator(5, 7) == 19160064;
    assert Power(6, 12) == 2176782336 && Denominator(6, 7) == -86486400;
    assert Power(7, 12) == 13841287201 && Denominator(7, 7) == 889574400;
    assert CoefficientSum(7, 7) == 1.0 / 14515200.0 + 4096.0 / (-5443200.0) + 531441.0 / 4838400.0 + 16777216.0 / (-7484400.0) + 244140625.0 / 19160064.0 + 2176782336.0 / (-86486400.0) + 13841287201.0 / 889574400.0;
  }

  lemma SumToOne8()
    ensures CoefficientSum(8, 8) == 1.0
  {
    Coefficient8At1();
    PartialSum8(1, 0.0, (-1.0 / 914457600.0));
    Coefficient8At2();
    PartialSum8(2, (-1.0 / 914457600.0), (32.0 / 637875.0));
    Coefficient8At3();
    PartialSum8(3, (76457.0 / 1524096000.0), (-177147.0 / 9856000.0));
    Coefficient8At4();
    PartialSum8(4, (-15024301.0 / 838252800.0), (1048576.0 / 1403325.0));
    Coefficient8At5();
    PartialSum8(5, (1833975289.0 / 2514758400.0), (-6103515625.0 / 747242496.0));
    Coefficient8At6();
    PartialSum8(6, (-29477227859.0 / 3962649600.0), (5668704.0 / 175175.0));
    Coefficient8At7();
    PartialSum8(7, (83561957483.0 / 3353011200.0), (-678223072849.0 / 13343616000.0));
    Coefficient8At8();
    PartialSum8(8, (-16541356309.0 / 638512875.0), (17179869184.0 / 638512875.0));
  }

  /** One more term of the order-16 sum. */
  lemma PartialSum8(k: nat, before: real, c: real)
    requires 1 <= k <= 8
    requires CoefficientSum(8, k - 1) == before && Coefficient(8, k) == c
    ensures CoefficientSum(8, k) == before + c
  {
  }

  lemma Coefficient8At1()
    ensures Coefficient(8, 1) == (-1.0 / 914457600.0)
  {
    assert Power(1, 14) == 1 && Denominator(1, 8) == -914457600;
    DenominatorNonZero(1, 8);
  }

  lemma Coefficient8At2()
    ensures Coefficient(8, 2) == (32.0 / 637875.0)
  {
    assert Power(2, 14) == 16384 && Denominator(2, 8) == 326592000;
    DenominatorNonZero(2, 8);
  }

  lemma Coefficient8At3()
    ensures Coefficient(8, 3) == (-177147.0 / 9856000.0)
  {
    assert Power(3, 14) == 4782969 && Denominator(3, 8) == -266112000;
    DenominatorNonZero(3, 8);
  }

  lemma Coefficient8At4()
    ensures Coefficient(8, 4) == (1048576.0 / 1403325.0)
  {
    assert Power(4, 14) == 268435456 && Denominator(4, 8) == 359251200;
    DenominatorNonZero(4, 8);
  }

  lemma Coefficient8At5()
    ensures Coefficient(8, 5) == (-6103515625.0 / 747242496.0)
  {
    assert Power(5, 7) == 78125;
    assert Power(5, 14) == 6103515625;
    assert Denominator(5, 4) == 72576;
    assert Denominator(5, 8) == -747242496;
    DenominatorNonZero(5, 8);
    assert Coefficient(8, 5) == 6103515625.0 / (-747242496.0);
  }

  lemma Coefficient8At6()
    ensures Coefficient(8, 6) == (5668704.0 / 175175.0)
  {
    assert Power(6, 14) == 78364164096 && Denominator(6, 8) == 2421619200;
    DenominatorNonZero(6, 8);
  }

  lemma Coefficient8At7()
    ensures Coefficient(8, 7) == (-678223072849.0 / 13343616000.0)
  {
    assert Power(7, 14) == 678223072849 && Denominator(7, 8) == -13343616000;
    DenominatorNonZero(7, 8);
  }

  lemma Coefficient8At8()
    ensures Coefficient(8, 8) == (17179869184.0 / 638512875.0)
  {
    assert Power(8, 14) == 4398046511104 && Denominator(8, 8) == 163459296000;
    DenominatorNonZero(8, 8);
  }

  /** At order 16 (half order 8) the denominator of c_6, 2421619200, no
      longer fits in an int: it wraps to -1873348096, and the computed
      coefficient has the wrong sign and size. */
  lemma OrderSixteenOverflows()
    ensures Denominator(6, 8) == 2421619200
    ensures DenominatorAsWritten(6, 8) == -1873348096
    ensures CoefficientAsWritten(8, 6) != Fin(Coefficient(8, 6))
    ensures CoefficientAsWritten(8, 6).Fin? && CoefficientAsWritten(8, 6).v < 0.0 < Coefficient(8, 6)
  {
    AsWrittenIsWrapped(6, 8);
    assert Denominator(6, 8) == 2421619200;
  }

  // ---------------------------------------------------------------------
  // The multi-product split

  /** `MultiProductSplit`: the half order, the coefficients and the
      members, member t being the second-order split of step τ / (t + 1),
      prefactor c_(t+1) and exponent t + 1. The members are summed. */
  datatype MultiProductSplit = MultiProductSplit(halforder: nat, coefficients: seq<Extended>, members: seq<SecondOrderSplit>)

  /** The constructor. A null potential needs no splitting and forces half
      order 1; otherwise the half order must be positive. */
  function NewMultiProductSplit(hord: int, potentialIsNull: bool, timeStep: real): (m: MultiProductSplit)
    requires potentialIsNull || hord >= 1
    ensures m.halforder == if potentialIsNull then 1 else hord
    ensures |m.coefficients| == m.halforder && |m.members| == m.halforder
    ensures forall t | 0 <= t < m.halforder :: m.coefficients[t] == CoefficientAsWritten(m.halforder, t + 1)
    ensures forall t | 0 <= t < m.halforder ::
      m.members[t] == NewSecondOrderSplit(potentialIsNull, timeStep / (t + 1) as real, m.coefficients[t], t + 1)
  {
    var h: nat := if potentialIsNull then 1 else hord;
    var cs := seq(h, t requires 0 <= t < h => CoefficientAsWritten(h, t + 1));
    MultiProductSplit(h, cs,
      seq(h, t requires 0 <= t < h => NewSecondOrderSplit(potentialIsNull, timeStep / (t + 1) as real, cs[t], t + 1)))
  }

  /** `set_time_step`: member t gets the step τ / (t + 1). */
  function SetMultiTimeStep(m: MultiProductSplit, timeStep: real): (r: MultiProductSplit)
    ensures r.halforder == m.halforder && r.coefficients == m.coefficients && |r.members| == |m.members|
    ensures forall t | 0 <= t < |m.members| :: r.members[t] == SetTimeStep(m.members[t], timeStep / (t + 1) as real)
  {
    m.(members := seq(|m.members|, t requires 0 <= t < |m.members| => SetTimeStep(m.members[t], timeStep / (t + 1) as real)))
  }

  /** Changing the time step of a built expansion is the same as building
      it with the new step. */
  lemma MultiSetTimeStepRebuilds(hord: int, potentialIsNull: bool, t0: real, t1: real)
    requires potentialIsNull || hord >= 1
    ensures SetMultiTimeStep(NewMultiProductSplit(hord, potentialIsNull, t0), t1) == NewMultiProductSplit(hord, potentialIsNull, t1)
  {
    var a := SetMultiTimeStep(NewMultiProductSplit(hord, potentialIsNull, t0), t1);
    var b := NewMultiProductSplit(hord, potentialIsNull, t1);
    forall t | 0 <= t < |a.members|
      ensures a.members[t] == b.members[t]
    {
      SetTimeStepRebuilds(potentialIsNull, t0 / (t + 1) as real, t1 / (t + 1) as real, b.coefficients[t], t + 1);
    }
  }

  /** Below order 16 the members carry the intended coefficients, which sum
      to one. */
  lemma MembersUseIntendedCoefficients(hord: int, timeStep: real)
    requires 1 <= hord <= 7
    ensures var m := NewMultiProductSplit(hord, false, timeStep);
      (forall t | 0 <= t < hord :: m.coefficients[t] == Fin(Coefficient(hord, t + 1)))
      && CoefficientSum(hord, hord) == 1.0
  {
    forall t | 1 <= t <= hord
      ensures CoefficientAsWritten(hord, t) == Fin(Coefficient(hord, t))
    {
      SmallOrdersExact(hord, t);
    }
    CoefficientsSumToOne(hord);
  }

  // ---------------------------------------------------------------------
  // As operators

  /** A split as a product of primitive operators: the kinetic exponential
      borrows `kineticWorkspace` states and a potential exponential none. */
  function SplitOperator(sp: SecondOrderSplit, kineticWorkspace: nat): (op: Operators.Operator)
    ensures op.Product? && |op.factors| == |sp.factors|
  {
    Operators.Product(seq(|sp.factors|, i requires 0 <= i < |sp.factors| =>
      Operators.Primitive(PartName(sp.factors[i]), if sp.factors[i] == Kinetic then kineticWorkspace else 0)))
  }

  function PartName(p: Part): nat
  {
    match p
    case Kinetic => 0
    case HalfPotential => 1
    case SquarePotential => 2
    case PrefactorPotential => 3
  }

  function MultiOperator(m: MultiProductSplit, kineticWorkspace: nat): (op: Operators.Operator)
    ensures op.Sum? && |op.terms| == |m.members|
  {
    Operators.Sum(seq(|m.members|, t requires 0 <= t < |m.members| => SplitOperator(m.members[t], kineticWorkspace)))
  }

  /** A split needs the kinetic part's workspace, and the expansion two
      states more once it sums two or more members. */
  lemma MultiProductWorkspace(hord: int, potentialIsNull: bool, timeStep: real, kineticWorkspace: nat)
    requires potentialIsNull || hord >= 1
    ensures var m := NewMultiProductSplit(hord, potentialIsNull, timeStep);
      Operators.Required(MultiOperator(m, kineticWorkspace))
        == if m.halforder >= 2 then kineticWorkspace + 2 else kineticWorkspace
  {
    var m := NewMultiProductSplit(hord, potentialIsNull, timeStep);
    var op := MultiOperator(m, kineticWorkspace);
    forall t | 0 <= t < |m.members|
      ensures Operators.Required(op.terms[t]) == kineticWorkspace
    {
      SplitWorkspace(m.members[t], kineticWorkspace);
    }
    if |op.terms| >= 2 {
      var r := Operators.MaxRequired(op.terms);
      assert Operators.Required(op.terms[0]) <= r;
    }
  }

  lemma SplitWorkspace(sp: SecondOrderSplit, kineticWorkspace: nat)
    requires Kinetic in sp.factors
    ensures Operators.Required(SplitOperator(sp, kineticWorkspace)) == kineticWorkspace
  {
    var op := SplitOperator(sp, kineticWorkspace);
    var r := Operators.MaxRequired(op.factors);
    var k :| 0 <= k < |sp.factors| && sp.factors[k] == Kinetic;
    assert Operators.Required(op.factors[k]) == kineticWorkspace;
    assert forall i | 0 <= i < |op.factors| :: Operators.Required(op.factors[i]) <= kineticWorkspace;
  }
}
