/** Command-line validation (`commandlineparser.cpp`): after the option
    library has read the arguments, `CommandLineParser::parse` checks them
    and derives the simulation parameters. The option library is
    abstracted to a record holding, for each option, whether it was given
    and its value (the default when it was not). */
module CommandLine {
  import opened Util
  import Convergence
  import opened Configuration

  /** A value option: given or not, and the value the library reports. */
  datatype Arg<T> = Arg(isSet: bool, value: T)

  datatype Options = Options(
    highmem: bool,
    wisdomFileName: Arg<string>,
    noise: Arg<string>,
    impurityType: Arg<string>,
    impurityDistribution: Arg<string>,
    impurityConstraint: Arg<string>,
    recover: bool,
    rngseed: Arg<nat>,
    minTimeStep: Arg<real>,
    maxSteps: Arg<int>,
    exhaustEps: bool,
    epsDivisor: Arg<real>,
    epsValues: seq<real>,
    order: Arg<int>,
    totalStates: Arg<nat>,
    dirichlet: bool,
    pi: bool,
    lenx: Arg<real>,
    sizey: Arg<nat>,
    sizex: Arg<nat>,
    size: Arg<nat>,
    B: Arg<real>,
    ignoreLowest: Arg<nat>,
    states: Arg<nat>,
    numThreads: Arg<nat>,
    quiet: nat,
    verbose: nat,
    saveNothing: bool,
    saveOnlyEnergies: bool,
    saveEverything: bool,
    clobber: bool,
    copyFrom: Arg<string>,
    datafileName: Arg<string>,
    timestepTest: Arg<string>,
    finalTest: Arg<string>,
    potential: Arg<string>)

  /** The options a refusal names. */
  datatype Flag =
    | Threads | Size | Sizex | Sizey | Lenx | Timestep | TimestepDivisor
    | TotalStates | States | Order | MinEps | MaxSteps

  datatype CmdError =
    | SaveSwitchesTogether
    | SizeTogether
    | NonPositive(flag: Flag)
    | Negative(flag: Flag)
    | TooFewStates
    | OrderNotEven
    | ImpuritiesNeedArguments
    | ImpurityArgumentsWithoutEffect
    | TestRefused(error: Convergence.ConvergenceError)

  const Impurities: string := "impurities"

  function SaveSwitchCount(o: Options): nat
  {
    (if o.saveNothing then 1 else 0) + (if o.saveOnlyEnergies then 1 else 0) + (if o.saveEverything then 1 else 0)
  }

  /** Every condition the validation block demands, stated together. */
  predicate Accepted(o: Options)
  {
    && SaveSwitchCount(o) <= 1
    && o.numThreads.value > 0
    && !(o.size.isSet && (o.sizex.isSet || o.sizey.isSet))
    && o.size.value > 0 && o.sizex.value > 0 && o.sizey.value > 0
    && o.lenx.value > 0.0
    && (forall i :: 0 <= i < |o.epsValues| ==> o.epsValues[i] > 0.0)
    && o.epsDivisor.value > 0.0
    && o.totalStates.value > 0 && o.states.value > 0
    && !(o.totalStates.isSet && o.states.isSet && o.totalStates.value < o.ignoreLowest.value + o.states.value)
    && o.order.value > 0 && o.order.value % 2 == 0
    && o.minTimeStep.value >= 0.0
    && o.maxSteps.value > 0
  }

  /** The first time-step value that is not positive, if any. */
  function FirstNonPositive(es: seq<real>): (k: Option<nat>)
    ensures k.None? <==> forall i :: 0 <= i < |es| ==> es[i] > 0.0
    ensures k.Some? ==>
      k.value < |es| && es[k.value] <= 0.0 && forall i :: 0 <= i < k.value ==> es[i] > 0.0
  {
    if |es| == 0 then None
    else if es[0] <= 0.0 then Some(0)
    else match FirstNonPositive(es[1..])
      case None => None
      case Some(k) => Some(k + 1)
  }

  /** The validation block of `CommandLineParser::parse`, check by check in
      its order. */
  function Validate(o: Options): (e: Option<CmdError>)
    ensures e.None? <==> Accepted(o)
  {
    if SaveSwitchCount(o) > 1 then Some(SaveSwitchesTogether)
    else if o.numThreads.value == 0 then Some(NonPositive(Threads))
    else if o.size.isSet && (o.sizex.isSet || o.sizey.isSet) then Some(SizeTogether)
    else if o.size.value == 0 then Some(NonPositive(Size))
    else if o.sizex.value == 0 then Some(NonPositive(Sizex))
    else if o.sizey.value == 0 then Some(NonPositive(Sizey))
    else if o.lenx.value <= 0.0 then Some(NonPositive(Lenx))
    else if FirstNonPositive(o.epsValues).Some? then Some(NonPositive(Timestep))
    else if o.epsDivisor.value <= 0.0 then Some(NonPositive(TimestepDivisor))
    else if o.totalStates.value == 0 then Some(NonPositive(TotalStates))
    else if o.states.value == 0 then Some(NonPositive(States))
    else if o.totalStates.isSet && o.states.isSet && o.totalStates.value < o.ignoreLowest.value + o.states.value
    then Some(TooFewStates)
    else if o.order.value <= 0 then Some(NonPositive(Order))
    else if o.order.value % 2 != 0 then Some(OrderNotEven)
    else if o.minTimeStep.value < 0.0 then Some(Negative(MinEps))
    else if o.maxSteps.value <= 0 then Some(NonPositive(MaxSteps))
    else None
  }

  /** The save switches are applied one after the other, so with one of
      them given it decides, and with none the current choice stays. */
  function SaveChoice(o: Options, current: SaveWhat): SaveWhat
  {
    if o.saveNothing then Nothing
    else if o.saveOnlyEnergies then OnlyEnergies
    else if o.saveEverything then Everything
    else current
  }

  /** Number of states wanted to converge: the total when only the total is
      given, otherwise the `--states` value. */
  function Needed(o: Options): nat
  {
    if !o.states.isSet && o.totalStates.isSet then o.totalStates.value else o.states.value
  }

  /** Total number of states: 25% more than wanted, rounded down, when only
      `--states` is given, otherwise the total option's value. */
  function Total(o: Options): nat
  {
    if o.states.isSet && !o.totalStates.isSet then (o.states.value * 5) / 4 else o.totalStates.value
  }

  /** The grid length: the given one, times pi with `--pi`. */
  function Length(o: Options): real
  {
    (if o.pi then Pi else 1.0) * o.lenx.value
  }

  /** The parameter-building half of `parse`, after validation: `seed` is
      the one the random generator would produce when none is given. */
  function Build(o: Options, base: Parameters, seed: nat): (r: Result<Parameters, CmdError>)
  {
    var p1 := base.(
      recover := o.recover,
      rngseed := if o.rngseed.isSet then o.rngseed.value else seed,
      datafileName := o.datafileName.value,
      wisdomFileName := o.wisdomFileName.value,
      copyFrom := o.copyFrom.value,
      initialStatePreset := if o.copyFrom.isSet then CopyFromFile else base.initialStatePreset,
      potentialType := o.potential.value);
    match Convergence.ParseConvergenceDescription(o.timestepTest.value)
    case Err(e) => Err(TestRefused(e))
    case Ok(timestepTest) =>
      match Convergence.ParseConvergenceDescription(o.finalTest.value)
      case Err(e) => Err(TestRefused(e))
      case Ok(finalTest) =>
        if o.noise.value == Impurities && !(o.impurityType.isSet && o.impurityDistribution.isSet) then
          Err(ImpuritiesNeedArguments)
        else if o.noise.value != Impurities && (o.impurityType.isSet || o.impurityDistribution.isSet) then
          Err(ImpurityArgumentsWithoutEffect)
        else
          Ok(p1.(
            timestepTest := timestepTest,
            finalTest := finalTest,
            noiseType := o.noise.value,
            impurityType := o.impurityType.value,
            impurityDistribution := o.impurityDistribution.value,
            impurityConstraint := o.impurityConstraint.value,
            saveWhat := SaveChoice(o, base.saveWhat),
            clobber := o.clobber,
            verbosity := DefaultVerbosity + o.verbose - o.quiet,
            numThreads := o.numThreads.value,
            sizex := if o.size.isSet then o.size.value else o.sizex.value,
            sizey := if o.size.isSet then o.size.value else o.sizey.value,
            lenx := Length(o),
            boundary := if o.dirichlet then Dirichlet else Periodic,
            orthoAlg := if o.highmem then HighMem else Default,
            epsValues := base.epsValues + o.epsValues,
            epsDivisor := o.epsDivisor.value,
            exhaustEps := o.exhaustEps,
            neededToConverge := Needed(o),
            N := Total(o),
            ignoreLowest := o.ignoreLowest.value,
            B := o.B.value,
            halforder := o.order.value / 2,
            minTimeStep := o.minTimeStep.value,
            maxSteps := o.maxSteps.value))
  }

  /** `CommandLineParser::parse` as written, on the parameters `base` the
      parser object was constructed with. */
  function Parse(o: Options, base: Parameters, seed: nat): (r: Result<Parameters, CmdError>)
  {
    match Validate(o)
    case Some(e) => Err(e)
    case None => Build(o, base, seed)
  }

  // ---------------------------------------------------------------------
  // Properties of the parse as written

  /** Options that fail validation are refused with the first failing
      check, before anything is built. */
  lemma RefusedBeforeBuilding(o: Options, base: Parameters, seed: nat)
    ensures !Accepted(o) ==> Parse(o, base, seed) == Err(Validate(o).value)
    ensures Accepted(o) ==> Parse(o, base, seed) == Build(o, base, seed)
  {
  }

  /** At most one save switch; it decides what is saved, and with none the
      constructed default stays. */
  lemma SaveSwitches(o: Options, base: Parameters, seed: nat)
    requires Parse(o, base, seed).Ok?
    ensures SaveSwitchCount(o) <= 1
    ensures var w := Parse(o, base, seed).value.saveWhat;
      && (o.saveNothing ==> w == Nothing)
      && (o.saveOnlyEnergies ==> w == OnlyEnergies)
      && (o.saveEverything ==> w == Everything)
      && (SaveSwitchCount(o) == 0 ==> w == base.saveWhat)
  {
  }

  /** `--size` excludes `--sizex` and `--sizey` and sets both dimensions;
      every size is positive. */
  lemma GridSize(o: Options, base: Parameters, seed: nat)
    requires Parse(o, base, seed).Ok?
    ensures var p := Parse(o, base, seed).value;
      && !(o.size.isSet && (o.sizex.isSet || o.sizey.isSet))
      && (o.size.isSet ==> p.sizex == o.size.value && p.sizey == o.size.value)
      && (!o.size.isSet ==> p.sizex == o.sizex.value && p.sizey == o.sizey.value)
      && p.sizex > 0 && p.sizey > 0
  {
  }

  /** The splitting order is positive and even, and the half order is half
      of it. */
  lemma OrderHalved(o: Options, base: Parameters, seed: nat)
    requires Parse(o, base, seed).Ok?
    ensures o.order.value > 0 && o.order.value % 2 == 0
    ensures 2 * Parse(o, base, seed).value.halforder == o.order.value
    ensures Parse(o, base, seed).value.halforder >= 1
  {
  }

  /** How the state counts are derived from which of `-N` and `--states`
      were given. */
  lemma StateCounts(o: Options, base: Parameters, seed: nat)
    requires Parse(o, base, seed).Ok?
    ensures var p := Parse(o, base, seed).value;
      && p.ignoreLowest == o.ignoreLowest.value
      && (o.totalStates.isSet && o.states.isSet ==>
            p.N == o.totalStates.value && p.neededToConverge == o.states.value && CountsConsistent(p))
      && (o.states.isSet && !o.totalStates.isSet ==>
            4 * p.N <= 5 * o.states.value < 4 * p.N + 4 && p.neededToConverge == o.states.value)
      && (o.totalStates.isSet && !o.states.isSet ==>
            p.N == o.totalStates.value && p.neededToConverge == o.totalStates.value)
      && (!o.totalStates.isSet && !o.states.isSet ==>
            p.N == o.totalStates.value && p.neededToConverge == o.states.value)
  {
  }

  /** Each `-v` raises and each `-q` lowers the verbosity by one; the
      switches pick the boundary and the orthonormalisation algorithm. */
  lemma Switches(o: Options, base: Parameters, seed: nat)
    requires Parse(o, base, seed).Ok?
    ensures var p := Parse(o, base, seed).value;
      && p.verbosity == DefaultVerbosity + o.verbose - o.quiet
      && (p.boundary == Dirichlet <==> o.dirichlet)
      && (p.orthoAlg == HighMem <==> o.highmem)
  {
  }

  /** `--pi` scales the given length by pi; the length is positive. */
  lemma GridLength(o: Options, base: Parameters, seed: nat)
    requires Parse(o, base, seed).Ok?
    ensures var p := Parse(o, base, seed).value;
      && p.lenx == (if o.pi then Pi * o.lenx.value else o.lenx.value)
      && p.lenx > 0.0
  {
    assert Accepted(o);
    LengthPositive(o);
  }

  lemma LengthPositive(o: Options)
    requires o.lenx.value > 0.0
    ensures Length(o) == (if o.pi then Pi * o.lenx.value else o.lenx.value) && Length(o) > 0.0
  {
    ProductPositive(Pi, o.lenx.value);
  }

  /** The given time steps are all positive and follow the constructed
      list in the order given; the minimum step is not negative. */
  lemma TimeSteps(o: Options, base: Parameters, seed: nat)
    requires Parse(o, base, seed).Ok?
    ensures var p := Parse(o, base, seed).value;
      && p.epsValues == base.epsValues + o.epsValues
      && (forall i :: |base.epsValues| <= i < |p.epsValues| ==> p.epsValues[i] > 0.0)
      && p.minTimeStep >= 0.0 && p.maxSteps > 0 && p.epsDivisor > 0.0
  {
  }

  /** The noise type "impurities" needs both impurity descriptions, and any
      other noise type refuses them. */
  lemma ImpurityArguments(o: Options, base: Parameters, seed: nat)
    requires Parse(o, base, seed).Ok?
    ensures o.noise.value == Impurities ==> o.impurityType.isSet && o.impurityDistribution.isSet
    ensures o.noise.value != Impurities ==> !o.impurityType.isSet && !o.impurityDistribution.isSet
  {
  }

  /** A convergence-test description the description parser refuses makes
      the whole parse fail, once validation has passed. */
  lemma TestsMustParse(o: Options, base: Parameters, seed: nat)
    requires Accepted(o)
    ensures Convergence.ParseConvergenceDescription(o.timestepTest.value).Err? ==>
      Parse(o, base, seed) == Err(TestRefused(Convergence.ParseConvergenceDescription(o.timestepTest.value).error))
    ensures Parse(o, base, seed).Ok? ==>
      Convergence.ParseConvergenceDescription(o.timestepTest.value) == Ok(Parse(o, base, seed).value.timestepTest)
      && Convergence.ParseConvergenceDescription(o.finalTest.value) == Ok(Parse(o, base, seed).value.finalTest)
  {
  }

  // ---------------------------------------------------------------------
  // The state counts are not checked after derivation

  /** The options as the library reports them when nothing is given; the
      impurity defaults are not part of this model and are parameters. */
  function NothingGiven(impurityType: string, impurityDistribution: string, impurityConstraint: string): (o: Options)
    ensures Accepted(o)
  {
    Options(
      highmem := false, wisdomFileName := Arg(false, DefaultWisdomFileName),
      noise := Arg(false, DefaultNoiseType), impurityType := Arg(false, impurityType),
      impurityDistribution := Arg(false, impurityDistribution),
      impurityConstraint := Arg(false, impurityConstraint), recover := false,
      rngseed := Arg(false, DefaultRngSeed), minTimeStep := Arg(false, DefaultMinTimeStep),
      maxSteps := Arg(false, DefaultMaxSteps), exhaustEps := false,
      epsDivisor := Arg(false, DefaultEpsDivisor), epsValues := [],
      order := Arg(false, 2 * DefaultHalforder), totalStates := Arg(false, DefaultN),
      dirichlet := false, pi := false, lenx := Arg(false, DefaultLenx),
      sizey := Arg(false, DefaultSizey), sizex := Arg(false, DefaultSizex),
      size := Arg(false, DefaultSizex), B := Arg(false, 0.0),
      ignoreLowest := Arg(false, DefaultIgnoreLowest), states := Arg(false, DefaultNeededToConverge),
      numThreads := Arg(false, DefaultNumThreads), quiet := 0, verbose := 0,
      saveNothing := false, saveOnlyEnergies := false, saveEverything := false, clobber := false,
      copyFrom := Arg(false, ""), datafileName := Arg(false, DefaultDatafileName),
      timestepTest := Arg(false, DefaultTimestepTestText), finalTest := Arg(false, DefaultFinalTestText),
      potential := Arg(false, DefaultPotentialType))
  }

  /** With nothing but `--highmem` given, the parse succeeds and selects
      the memory-hungry orthonormalisation. */
  lemma HighmemOnly(it: string, id: string, ic: string, base: Parameters, seed: nat)
    ensures var r := Parse(NothingGiven(it, id, ic).(highmem := true), base, seed);
      r.Ok? && r.value.orthoAlg == HighMem
  {
    TimestepDefaultParses();
    FinalDefaultParses();
    assert Accepted(NothingGiven(it, id, ic).(highmem := true));
  }

  /** When only the total is given, every state counts as needed, so any
      ignored lowest state pushes the needed ones past the total: the
      parse accepts counts that `set_num_states` would refuse. */
  lemma TotalOnlyOverflows(o: Options, base: Parameters, seed: nat)
    requires Parse(o, base, seed).Ok?
    requires o.totalStates.isSet && !o.states.isSet && o.ignoreLowest.value > 0
    ensures !CountsConsistent(Parse(o, base, seed).value)
  {
  }

  /** `-N 10 --ignore-lowest 2`: accepted with 10 states, all 10 needed and
      2 ignored, so positions 2 to 11 of 10 sorted states are checked. */
  lemma TotalOnlyExample(it: string, id: string, ic: string, base: Parameters, seed: nat)
    ensures var r := Parse(NothingGiven(it, id, ic).(totalStates := Arg(true, 10), ignoreLowest := Arg(true, 2)), base, seed);
      && r.Ok? && r.value.N == 10 && r.value.neededToConverge == 10 && r.value.ignoreLowest == 2
      && !CountsConsistent(r.value)
  {
    TimestepDefaultParses();
    FinalDefaultParses();
    assert Accepted(NothingGiven(it, id, ic).(totalStates := Arg(true, 10), ignoreLowest := Arg(true, 2)));
  }

  /** The parse with the state-count check of `set_num_states` applied to
      the derived counts, as the error message of the validation block
      intends. */
  function ParseChecked(o: Options, base: Parameters, seed: nat): (r: Result<Parameters, CmdError>)
    ensures r.Ok? ==> CountsConsistent(r.value)
  {
    match Parse(o, base, seed)
    case Err(e) => Err(e)
    case Ok(p) => if CountsConsistent(p) then Ok(p) else Err(TooFewStates)
  }

  /** The checked parse differs from the parse as written exactly on the
      accepted command lines whose derived counts do not fit. */
  lemma CheckedParseAgrees(o: Options, base: Parameters, seed: nat)
    ensures ParseChecked(o, base, seed) != Parse(o, base, seed) <==>
      Parse(o, base, seed).Ok? && !CountsConsistent(Parse(o, base, seed).value)
    ensures ParseChecked(o, base, seed).Ok? ==> ParseChecked(o, base, seed) == Parse(o, base, seed)
  {
  }
}
