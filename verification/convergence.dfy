/** Convergence tests (`convergence.cpp`, `convergence.hpp`): the
    description parser, the parameter constructors, and the decision each
    test makes from the recorded energy history. The decisions divide
    doubles, so a zero divisor is modelled with the IEEE infinities and
    NaN that the `test` functions' comparisons then see. */
module Convergence {
  import opened Util
  import Parser

  /** Why a convergence description was refused (`InvalidConvergenceType`). */
  datatype Reason =
    | TakesNoParameters
    | TakesOneParameter
    | TakesOneOrTwoParameters

  /** A description the generic parser refuses is reported as an invalid
      potential type, as `parse_convergence_description` does. */
  datatype ConvergenceError =
    | UnknownConvergenceType(text: string)
    | InvalidConvergenceType(reason: Reason)
    | InvalidPotentialType(text: string)

  datatype Test =
    | NoTest
    | OneStep
    | AbsoluteEnergyChange(limit: real)
    | RelativeEnergyChange(limit: real)
    | EnergyDeviationChange(relativeDeviationLimit: real, differenceLimit: real)

  /** What a test reads from the system: the energies and their standard
      deviations recorded after each step (one row per step, one column
      per sorted state), the step counter since the last time-step change,
      and the per-state time-step convergence flags. */
  datatype History = History(
    energies: seq<seq<real>>,
    deviations: seq<seq<real>>,
    stepCounter: nat,
    timestepConverged: seq<bool>)

  // ---------------------------------------------------------------------
  // Constructors

  function NoTestFrom(params: seq<real>): (t: Result<Test, ConvergenceError>)
    ensures t.Ok? <==> |params| == 0
    ensures t.Ok? ==> t.value == NoTest
    ensures t.Err? ==> t.error == InvalidConvergenceType(TakesNoParameters)
  {
    if |params| != 0 then Err(InvalidConvergenceType(TakesNoParameters)) else Ok(NoTest)
  }

  function OneStepFrom(params: seq<real>): (t: Result<Test, ConvergenceError>)
    ensures t.Ok? <==> |params| == 0
    ensures t.Ok? ==> t.value == OneStep
    ensures t.Err? ==> t.error == InvalidConvergenceType(TakesNoParameters)
  {
    if |params| != 0 then Err(InvalidConvergenceType(TakesNoParameters)) else Ok(OneStep)
  }

  function AbsoluteFrom(params: seq<real>): (t: Result<Test, ConvergenceError>)
    ensures t.Ok? <==> |params| == 1
    ensures t.Ok? ==> t.value == AbsoluteEnergyChange(params[0])
    ensures t.Err? ==> t.error == InvalidConvergenceType(TakesOneParameter)
  {
    if |params| == 1 then Ok(AbsoluteEnergyChange(params[0])) else Err(InvalidConvergenceType(TakesOneParameter))
  }

  function RelativeFrom(params: seq<real>): (t: Result<Test, ConvergenceError>)
    ensures t.Ok? <==> |params| == 1
    ensures t.Ok? ==> t.value == RelativeEnergyChange(params[0])
    ensures t.Err? ==> t.error == InvalidConvergenceType(TakesOneParameter)
  {
    if |params| == 1 then Ok(RelativeEnergyChange(params[0])) else Err(InvalidConvergenceType(TakesOneParameter))
  }

  /** One value is the relative deviation limit, with no difference limit;
      two values give both. */
  function DeviationFrom(params: seq<real>): (t: Result<Test, ConvergenceError>)
    ensures t.Ok? <==> |params| == 1 || |params| == 2
    ensures t.Ok? ==> t.value.EnergyDeviationChange? && t.value.relativeDeviationLimit == params[0]
    ensures |params| == 1 ==> t.Ok? && t.value.differenceLimit == 0.0
    ensures |params| == 2 ==> t.Ok? && t.value.differenceLimit == params[1]
    ensures t.Err? ==> t.error == InvalidConvergenceType(TakesOneOrTwoParameters)
  {
    if |params| == 1 then Ok(EnergyDeviationChange(params[0], 0.0))
    else if |params| == 2 then Ok(EnergyDeviationChange(params[0], params[1]))
    else Err(InvalidConvergenceType(TakesOneOrTwoParameters))
  }

  // ---------------------------------------------------------------------
  // Parsing

  const NoNames: set<string> := {"none", "no", "null"}
  const OneStepNames: set<string> := {"onestep", "one-step"}
  const AbsoluteNames: set<string> := {"absEchange", "absEdelta"}
  const RelativeNames: set<string> := {"relEchange", "relEdelta"}
  const DeviationNames: set<string> := {"deviation"}

  function KnownNames(): set<string>
  {
    NoNames + OneStepNames + AbsoluteNames + RelativeNames + DeviationNames
  }

  /** Construction from a parsed name and value list; the error for an
      unknown name carries the whole description text `s`. */
  function FromPair(s: string, name: string, params: seq<real>): (t: Result<Test, ConvergenceError>)
    ensures name in NoNames ==> t == NoTestFrom(params)
    ensures name in OneStepNames ==> t == OneStepFrom(params)
    ensures name in AbsoluteNames ==> t == AbsoluteFrom(params)
    ensures name in RelativeNames ==> t == RelativeFrom(params)
    ensures name in DeviationNames ==> t == DeviationFrom(params)
    ensures name !in KnownNames() ==> t == Err(UnknownConvergenceType(s))
  {
    if name in NoNames then NoTestFrom(params)
    else if name in OneStepNames then OneStepFrom(params)
    else if name in AbsoluteNames then AbsoluteFrom(params)
    else if name in RelativeNames then RelativeFrom(params)
    else if name in DeviationNames then DeviationFrom(params)
    else Err(UnknownConvergenceType(s))
  }

  /** `parse_convergence_description(str)`. */
  function ParseConvergenceDescription(s: string): (t: Result<Test, ConvergenceError>)
    ensures Parser.ParseParameterString(s).Err? ==> t == Err(InvalidPotentialType(s))
    ensures t.Err? && t.error.UnknownConvergenceType? ==> t.error.text == s
  {
    match Parser.ParseParameterString(s)
    case Err(_) => Err(InvalidPotentialType(s))
    case Ok(d) => FromPair(s, d.name, d.values)
  }

  /** A description the generic parser accepts is dispatched on its name
      and values. */
  lemma ParsedDispatch(s: string, d: Parser.Described)
    requires Parser.ParseParameterString(s) == Ok(d)
    ensures ParseConvergenceDescription(s) == FromPair(s, d.name, d.values)
  {
  }

  /** A written-out description "name(v1, ..., vn)" is dispatched on that
      name and those numbers. */
  lemma DescribedTest(lead: string, name: string, items: seq<Parser.Item>, trail: string)
    requires Parser.AllWhitespace(lead) && Parser.AllWhitespace(trail) && Parser.IsName(name)
    requires forall it <- items :: Parser.Readable(it)
    ensures var s := lead + Parser.Describe(name, items) + trail;
      ParseConvergenceDescription(s) == FromPair(s, name, Parser.Values(items))
  {
    Parser.DescribeRoundTrip(lead, name, items, trail);
    ParsedDispatch(lead + Parser.Describe(name, items) + trail, Parser.Described(name, Parser.Values(items)));
  }

  /** The aliases reach the same constructor, whatever the text. */
  lemma Aliases(s: string, params: seq<real>)
    ensures FromPair(s, "none", params) == FromPair(s, "no", params) == FromPair(s, "null", params)
      == NoTestFrom(params)
    ensures FromPair(s, "onestep", params) == FromPair(s, "one-step", params) == OneStepFrom(params)
    ensures FromPair(s, "absEchange", params) == FromPair(s, "absEdelta", params) == AbsoluteFrom(params)
    ensures FromPair(s, "relEchange", params) == FromPair(s, "relEdelta", params) == RelativeFrom(params)
  {
  }

  // ---------------------------------------------------------------------
  // Decisions

  /** `ConvergenceTest::test` indexes the last two rows at `n` without a check. */
  predicate Readable(h: History, n: nat)
  {
    |h.deviations| == |h.energies|
    && (|h.energies| >= 2 ==>
          n < |h.energies[|h.energies| - 1]| && n < |h.energies[|h.energies| - 2]|
          && n < |h.deviations[|h.deviations| - 1]| && n < |h.deviations[|h.deviations| - 2]|)
    && n < |h.timestepConverged|
  }

  /** `test(sys, n)`: whether the state at sorted position n is converged. */
  predicate Passes(t: Test, h: History, n: nat)
    requires Readable(h, n)
  {
    var k := |h.energies|;
    match t
    case NoTest => false
    case OneStep => h.stepCounter == 1 && h.timestepConverged[n]
    case AbsoluteEnergyChange(limit) =>
      k >= 2 && RealAbs(h.energies[k - 1][n] - h.energies[k - 2][n]) < limit
    case RelativeEnergyChange(limit) =>
      k >= 2 && Below(Abs(Quotient(h.energies[k - 1][n] - h.energies[k - 2][n], h.energies[k - 2][n])), limit)
    case EnergyDeviationChange(relLimit, diffLimit) =>
      k >= 2 &&
      var now := Quotient(h.deviations[k - 1][n], h.energies[k - 1][n]);
      var before := Quotient(h.deviations[k - 2][n], h.energies[k - 2][n]);
      Below(now, relLimit) || Below(Abs(Minus(now, before)), diffLimit)
  }

  /** Every test but the one-step test needs two recorded steps. */
  lemma ShortHistoryFails(t: Test, h: History, n: nat)
    requires Readable(h, n) && |h.energies| < 2 && !t.OneStep?
    ensures !Passes(t, h, n)
  {
  }

  /** The one-step test passes exactly on the first step after a time-step
      change, for a state already converged at that step. */
  lemma OneStepPasses(h: History, n: nat)
    requires Readable(h, n)
    ensures Passes(OneStep, h, n) <==> h.stepCounter == 1 && h.timestepConverged[n]
  {
  }

  /** The relative test in plain real arithmetic: a zero previous energy
      never passes, and otherwise the change is measured relative to it. */
  lemma RelativeInReals(limit: real, h: History, n: nat)
    requires Readable(h, n) && |h.energies| >= 2
    ensures var last := h.energies[|h.energies| - 1][n];
      var prev := h.energies[|h.energies| - 2][n];
      Passes(RelativeEnergyChange(limit), h, n) <==>
        prev != 0.0 && RealAbs((last - prev) / prev) < limit
  {
  }

  /** For a positive previous energy, the relative test with limit L is the
      absolute test with limit L times that energy. */
  lemma {:induction false} RelativeIsScaledAbsolute(limit: real, h: History, n: nat)
    requires Readable(h, n) && |h.energies| >= 2
    requires h.energies[|h.energies| - 2][n] > 0.0
    ensures Passes(RelativeEnergyChange(limit), h, n)
      <==> Passes(AbsoluteEnergyChange(limit * h.energies[|h.energies| - 2][n]), h, n)
  {
    var k := |h.energies|;
    var last := h.energies[k - 1][n];
    var prev := h.energies[k - 2][n];
    RelativeInReals(limit, h, n);
    ScaledComparison(last - prev, prev, limit);
  }

  lemma ScaledComparison(d: real, p: real, limit: real)
    requires p > 0.0
    ensures RealAbs(d / p) < limit <==> RealAbs(d) < limit * p
  {
    assert RealAbs(d / p) == RealAbs(d) / p;
    assert RealAbs(d) == (RealAbs(d) / p) * p;
  }

  /** Without a difference limit the deviation test only compares the
      latest relative deviation; that is what a one-value description
      builds. */
  lemma DeviationWithoutDifference(relLimit: real, h: History, n: nat)
    requires Readable(h, n) && |h.energies| >= 2
    ensures var k := |h.energies|;
      Passes(EnergyDeviationChange(relLimit, 0.0), h, n) <==>
        Below(Quotient(h.deviations[k - 1][n], h.energies[k - 1][n]), relLimit)
    ensures DeviationFrom([relLimit]) == Ok(EnergyDeviationChange(relLimit, 0.0))
  {
  }

  /** The deviation test in plain real arithmetic when both energies are
      non-zero. */
  lemma DeviationInReals(relLimit: real, diffLimit: real, h: History, n: nat)
    requires Readable(h, n) && |h.energies| >= 2
    requires h.energies[|h.energies| - 1][n] != 0.0 && h.energies[|h.energies| - 2][n] != 0.0
    ensures var k := |h.energies|;
      var now := h.deviations[k - 1][n] / h.energies[k - 1][n];
      var before := h.deviations[k - 2][n] / h.energies[k - 2][n];
      Passes(EnergyDeviationChange(relLimit, diffLimit), h, n) <==>
        now < relLimit || RealAbs(now - before) < diffLimit
  {
  }

  /** A looser limit passes whatever a stricter one passes. */
  lemma LimitMonotone(t: Test, u: Test, h: History, n: nat)
    requires Readable(h, n)
    requires (t.AbsoluteEnergyChange? && u.AbsoluteEnergyChange? && t.limit <= u.limit)
      || (t.RelativeEnergyChange? && u.RelativeEnergyChange? && t.limit <= u.limit)
      || (t.EnergyDeviationChange? && u.EnergyDeviationChange?
          && t.relativeDeviationLimit <= u.relativeDeviationLimit && t.differenceLimit <= u.differenceLimit)
    ensures Passes(t, h, n) ==> Passes(u, h, n)
  {
  }

  /** Only the last two recorded steps matter. */
  lemma {:induction false} OlderHistoryIgnored(t: Test, h: History, es: seq<seq<real>>, ds: seq<seq<real>>, n: nat)
    requires Readable(h, n) && |h.energies| >= 2 && |es| == |ds|
    ensures var g := h.(energies := es + h.energies, deviations := ds + h.deviations);
      Readable(g, n) && Passes(t, g, n) == Passes(t, h, n)
  {
    var g := h.(energies := es + h.energies, deviations := ds + h.deviations);
    var k := |h.energies|;
    var m := |g.energies|;
    assert g.energies[m - 1] == h.energies[k - 1] && g.energies[m - 2] == h.energies[k - 2];
    assert g.deviations[m - 1] == h.deviations[k - 1] && g.deviations[m - 2] == h.deviations[k - 2];
  }
}
