/** The simulation parameters (`parameters.cpp`, `parameters.hpp`): the
    default values, `set_to_defaults`, and the setters that store a group
    of fields at once, among them the state-count check. */
module Configuration {
  import opened Util
  import Parser
  import Convergence
  import Noises

  datatype SaveWhat = Nothing | OnlyEnergies | FinalStates | Everything
  datatype InitialStatePreset = UserSuppliedInitialState | CopyFromFile | Random
  datatype BoundaryType = Periodic | Dirichlet
  datatype OrthoAlgorithm = Default | HighMem

  /** The initial-state function pointer: null, or a function the user
      supplied, known by a handle. */
  datatype InitialStateFunc = NullFunc | UserFunc(handle: nat)

  datatype Parameters = Parameters(
    recover: bool,
    rngseed: nat,
    datafileName: string,
    wisdomFileName: string,
    copyFrom: string,
    saveWhat: SaveWhat,
    clobber: bool,
    verbosity: int,
    numThreads: nat,
    orthoAlg: OrthoAlgorithm,
    boundary: BoundaryType,
    sizex: nat,
    sizey: nat,
    lenx: real,
    N: nat,
    initialStatePreset: InitialStatePreset,
    initialStateDescription: string,
    initialStateFunc: InitialStateFunc,
    potentialType: string,
    B: real,
    noiseType: string,
    impurityType: string,
    impurityDistribution: string,
    impurityConstraint: string,
    halforder: int,
    epsValues: seq<real>,
    epsDivisor: real,
    exhaustEps: bool,
    timestepTest: Convergence.Test,
    finalTest: Convergence.Test,
    neededToConverge: nat,
    ignoreLowest: nat,
    maxSteps: int,
    minTimeStep: real)

  /** `set_num_states` refused the counts; the fields hold them anyway. */
  datatype ConfigError =
    | InvalidNumberOfStates(N: nat, needed: nat, ignore: nat)
    | InvalidTest(error: Convergence.ConvergenceError)

  // ---------------------------------------------------------------------
  // Defaults

  const DefaultRngSeed: nat := 0x20120131
  const DefaultDatafileName: string := "data/itp2d.h5"
  const DefaultWisdomFileName: string := "fftw_wisdom"
  const DefaultVerbosity: int := 1
  const DefaultNumThreads: nat := 2
  const DefaultSizex: nat := 64
  const DefaultSizey: nat := 64
  const DefaultLenx: real := 12.0
  const DefaultN: nat := 25
  const DefaultPotentialType: string := "default"
  const DefaultTimestepTestText: string := "deviation(1e-3,1e-5)"
  const DefaultFinalTestText: string := "deviation(1e-3,0)"
  const DefaultNoiseType: string := "none"
  const DefaultHalforder: int := 5
  const DefaultInitialEps: real := 0.50
  const DefaultEpsDivisor: real := 5.0
  const DefaultNeededToConverge: nat := 16
  const DefaultIgnoreLowest: nat := 0
  const DefaultMaxSteps: int := 50
  const DefaultMinTimeStep: real := 0.000000001

  /** The state counts `set_num_states` accepts: every state that has to
      converge, above the ignored lowest ones, is among the N computed. */
  predicate CountsConsistent(p: Parameters)
  {
    p.ignoreLowest + p.neededToConverge <= p.N
  }

  // ---------------------------------------------------------------------
  // Setters

  /** `set_num_states`: stores all three counts, then refuses them when the
      needed states do not fit above the ignored ones. */
  function SetNumStates(p: Parameters, n: nat, needed: nat, ignore: nat): (r: (Parameters, Option<ConfigError>))
    ensures r.0.N == n && r.0.neededToConverge == needed && r.0.ignoreLowest == ignore
    ensures r.0.(N := p.N, neededToConverge := p.neededToConverge, ignoreLowest := p.ignoreLowest) == p
    ensures r.1.Some? <==> !CountsConsistent(r.0)
    ensures r.1.Some? ==> r.1.value == InvalidNumberOfStates(n, needed, ignore)
  {
    var q := p.(N := n, neededToConverge := needed, ignoreLowest := ignore);
    if ignore + needed > n then (q, Some(InvalidNumberOfStates(n, needed, ignore))) else (q, None)
  }

  /** `define_grid`. */
  function DefineGrid(p: Parameters, sizex: nat, sizey: nat, lenx: real, boundary: BoundaryType): (r: Parameters)
    ensures r.sizex == sizex && r.sizey == sizey && r.lenx == lenx && r.boundary == boundary
    ensures r.(sizex := p.sizex, sizey := p.sizey, lenx := p.lenx, boundary := p.boundary) == p
  {
    p.(boundary := boundary, sizex := sizex, sizey := sizey, lenx := lenx)
  }

  /** `get_grid_delta`: the grid spacing, a double division. */
  function GridDelta(p: Parameters): (d: Extended)
    ensures p.sizex > 0 ==> d.Fin? && d.v * (p.sizex as real) == p.lenx
    ensures p.sizex == 0 ==> !d.Fin?
  {
    Quotient(p.lenx, p.sizex as real)
  }

  /** `define_initial_states(preset)`: a preset clears the function
      pointer; only the random preset has a name. */
  function DefineInitialStates(p: Parameters, preset: InitialStatePreset): (r: Parameters)
    ensures r.initialStatePreset == preset && r.initialStateFunc == NullFunc
    ensures r.initialStateDescription == (if preset == Random then "random" else "unknown")
    ensures r.(initialStatePreset := p.initialStatePreset, initialStateFunc := p.initialStateFunc,
               initialStateDescription := p.initialStateDescription) == p
  {
    var q := p.(initialStatePreset := preset, initialStateFunc := NullFunc);
    match preset
    case Random => q.(initialStateDescription := "random")
    case _ => q.(initialStateDescription := "unknown")
  }

  /** `define_initial_states(description, func)`. */
  function DefineUserInitialStates(p: Parameters, description: string, handle: nat): (r: Parameters)
    ensures r.initialStatePreset == UserSuppliedInitialState && r.initialStateFunc == UserFunc(handle)
    ensures r.initialStateDescription == description
    ensures r.(initialStatePreset := p.initialStatePreset, initialStateFunc := p.initialStateFunc,
               initialStateDescription := p.initialStateDescription) == p
  {
    p.(initialStatePreset := UserSuppliedInitialState, initialStateFunc := UserFunc(handle),
       initialStateDescription := description)
  }

  /** `define_data_storage`. */
  function DefineDataStorage(p: Parameters, filename: string, saveWhat: SaveWhat, clobber: bool): (r: Parameters)
    ensures r.datafileName == filename && r.saveWhat == saveWhat && r.clobber == clobber
    ensures r.(datafileName := p.datafileName, saveWhat := p.saveWhat, clobber := p.clobber) == p
  {
    p.(datafileName := filename, saveWhat := saveWhat, clobber := clobber)
  }

  /** `define_external_field`. */
  function DefineExternalField(p: Parameters, potentialType: string, B: real): (r: Parameters)
    ensures r.potentialType == potentialType && r.B == B
    ensures r.(potentialType := p.potentialType, B := p.B) == p
  {
    p.(B := B, potentialType := potentialType)
  }

  /** `set_bailout_limits`. */
  function SetBailoutLimits(p: Parameters, maxSteps: int, minTimeStep: real): (r: Parameters)
    ensures r.maxSteps == maxSteps && r.minTimeStep == minTimeStep
    ensures r.(maxSteps := p.maxSteps, minTimeStep := p.minTimeStep) == p
  {
    p.(maxSteps := maxSteps, minTimeStep := minTimeStep)
  }

  /** A later call of a setter replaces everything an earlier call stored. */
  lemma LaterSetterWins(p: Parameters, a: (nat, nat, real, BoundaryType), b: (nat, nat, real, BoundaryType),
                        n1: nat, k1: nat, i1: nat, n2: nat, k2: nat, i2: nat)
    ensures DefineGrid(DefineGrid(p, a.0, a.1, a.2, a.3), b.0, b.1, b.2, b.3) == DefineGrid(p, b.0, b.1, b.2, b.3)
    ensures SetNumStates(SetNumStates(p, n1, k1, i1).0, n2, k2, i2) == SetNumStates(p, n2, k2, i2)
  {
  }

  /** A preset replaces everything an earlier user-supplied definition
      stored, its function included. */
  lemma PresetsClearFunction(p: Parameters, description: string, handle: nat, preset: InitialStatePreset)
    ensures DefineInitialStates(DefineUserInitialStates(p, description, handle), preset).initialStateFunc == NullFunc
    ensures DefineInitialStates(p, preset) == DefineInitialStates(DefineUserInitialStates(p, description, handle), preset)
  {
  }

  // ---------------------------------------------------------------------
  // set_to_defaults

  /** `set_to_defaults`, in its own order: the plain fields, the two
      convergence tests parsed from their default descriptions, the noise
      type, the external field, the state counts and the initial states.
      The copy source, the time-step list and the impurity settings are
      not touched. */
  function SetToDefaults(p: Parameters): (r: Result<Parameters, ConfigError>)
  {
    var q := p.(recover := false, rngseed := DefaultRngSeed, datafileName := DefaultDatafileName,
                wisdomFileName := DefaultWisdomFileName, saveWhat := FinalStates, clobber := false,
                verbosity := DefaultVerbosity, numThreads := DefaultNumThreads, boundary := Periodic,
                sizex := DefaultSizex, sizey := DefaultSizey, lenx := DefaultLenx,
                halforder := DefaultHalforder, epsDivisor := DefaultEpsDivisor, exhaustEps := false,
                maxSteps := DefaultMaxSteps, minTimeStep := DefaultMinTimeStep, orthoAlg := Default);
    match Convergence.ParseConvergenceDescription(DefaultTimestepTestText)
    case Err(e) => Err(InvalidTest(e))
    case Ok(timestepTest) =>
      match Convergence.ParseConvergenceDescription(DefaultFinalTestText)
      case Err(e) => Err(InvalidTest(e))
      case Ok(finalTest) =>
        var withTests := q.(timestepTest := timestepTest, finalTest := finalTest, noiseType := DefaultNoiseType);
        var withField := DefineExternalField(withTests, DefaultPotentialType, 0.0);
        var (counted, refused) := SetNumStates(withField, DefaultN, DefaultNeededToConverge, DefaultIgnoreLowest);
        if refused.Some? then Err(refused.value) else Ok(DefineInitialStates(counted, Random))
  }

  /** The default values, written out. */
  function Defaults(p: Parameters): (d: Parameters)
    ensures CountsConsistent(d)
  {
    Parameters(
      recover := false, rngseed := DefaultRngSeed, datafileName := DefaultDatafileName,
      wisdomFileName := DefaultWisdomFileName, copyFrom := p.copyFrom, saveWhat := FinalStates,
      clobber := false, verbosity := DefaultVerbosity, numThreads := DefaultNumThreads,
      orthoAlg := Default, boundary := Periodic, sizex := DefaultSizex, sizey := DefaultSizey,
      lenx := DefaultLenx, N := DefaultN, initialStatePreset := Random,
      initialStateDescription := "random", initialStateFunc := NullFunc,
      potentialType := DefaultPotentialType, B := 0.0, noiseType := DefaultNoiseType,
      impurityType := p.impurityType, impurityDistribution := p.impurityDistribution,
      impurityConstraint := p.impurityConstraint, halforder := DefaultHalforder,
      epsValues := p.epsValues, epsDivisor := DefaultEpsDivisor, exhaustEps := false,
      timestepTest := Convergence.EnergyDeviationChange(0.001, 0.00001),
      finalTest := Convergence.EnergyDeviationChange(0.001, 0.0),
      neededToConverge := DefaultNeededToConverge, ignoreLowest := DefaultIgnoreLowest,
      maxSteps := DefaultMaxSteps, minTimeStep := DefaultMinTimeStep)
  }

  /** `set_to_defaults` never throws: both default test descriptions are
      accepted, the default counts pass the state-count check, and the
      result is the written-out default record. */
  lemma DefaultsApplied(p: Parameters)
    ensures SetToDefaults(p) == Ok(Defaults(p))
  {
    TimestepDefaultParses();
    FinalDefaultParses();
  }

  /** The default noise description names the noise-free type. */
  lemma DefaultNoiseParses()
    ensures Noises.ParseNoiseDescription(DefaultNoiseType) == Ok(Noises.NoNoise)
  {
    assert Parser.IsName("none");
    Parser.BareName("", "none", "");
    assert "" + "none" + "" == DefaultNoiseType;
  }

  // ---------------------------------------------------------------------
  // The default test descriptions, spelled out

  const One: Parser.Token := Parser.Token(false, "1", false, "", false, false, "")
  const Zero: Parser.Token := Parser.Token(false, "0", false, "", false, false, "")
  const Milli: Parser.Token := Parser.Token(false, "1", false, "", true, true, "3")
  const TenMicro: Parser.Token := Parser.Token(false, "1", false, "", true, true, "5")

  const TimestepItems: seq<Parser.Item> := [Parser.Item("", Milli, ""), Parser.Item("", TenMicro, "")]
  const FinalItems: seq<Parser.Item> := [Parser.Item("", Milli, ""), Parser.Item("", Zero, "")]

  lemma JoinTwo(a: Parser.Item, b: Parser.Item)
    ensures Parser.Join([a, b]) == Parser.ItemText(a) + "," + Parser.ItemText(b)
  {
    assert [a, b][1..] == [b];
  }

  lemma MilliSpelled()
    ensures Parser.Spell(Milli) == "1e-3" && Parser.WellFormed(Milli) && Parser.Value(Milli) == 0.001
  {
    assert Parser.SignText(Milli) == "" && Parser.PointText(Milli) == "";
    assert Parser.ExponentText(Milli) == "e-3";
    assert Parser.DigitsValue("1") == 1 && Parser.DigitsValue("3") == 3 && Parser.DigitsValue("") == 0;
    assert Pow10(-3) == 0.001;
  }

  lemma TenMicroSpelled()
    ensures Parser.Spell(TenMicro) == "1e-5" && Parser.WellFormed(TenMicro) && Parser.Value(TenMicro) == 0.00001
  {
    assert Parser.SignText(TenMicro) == "" && Parser.PointText(TenMicro) == "";
    assert Parser.ExponentText(TenMicro) == "e-5";
    assert Parser.DigitsValue("1") == 1 && Parser.DigitsValue("5") == 5 && Parser.DigitsValue("") == 0;
    assert Pow10(-5) == 0.00001;
  }

  lemma ZeroSpelled()
    ensures Parser.Spell(Zero) == "0" && Parser.WellFormed(Zero) && Parser.Value(Zero) == 0.0
  {
    assert Parser.SignText(Zero) == "" && Parser.PointText(Zero) == "" && Parser.ExponentText(Zero) == "";
    assert Parser.DigitsValue("0") == 0 && Parser.DigitsValue("") == 0;
  }

  lemma DeviationIsName()
    ensures Parser.IsName("deviation")
  {
  }

  lemma TimestepItemsReadable()
    ensures forall it <- TimestepItems :: Parser.Readable(it)
  {
    MilliSpelled();
    TenMicroSpelled();
    assert Parser.Readable(TimestepItems[0]) && Parser.Readable(TimestepItems[1]);
  }

  lemma TimestepItemsText()
    ensures Parser.Describe("deviation", TimestepItems) == DefaultTimestepTestText
  {
    MilliSpelled();
    TenMicroSpelled();
    JoinTwo(TimestepItems[0], TimestepItems[1]);
  }

  lemma TimestepItemsValues()
    requires forall it <- TimestepItems :: Parser.Readable(it)
    ensures Parser.Values(TimestepItems) == [0.001, 0.00001]
  {
    MilliSpelled();
    TenMicroSpelled();
  }

  lemma FinalItemsReadable()
    ensures forall it <- FinalItems :: Parser.Readable(it)
  {
    MilliSpelled();
    ZeroSpelled();
    assert Parser.Readable(FinalItems[0]) && Parser.Readable(FinalItems[1]);
  }

  lemma FinalItemsText()
    ensures Parser.Describe("deviation", FinalItems) == DefaultFinalTestText
  {
    MilliSpelled();
    ZeroSpelled();
    JoinTwo(FinalItems[0], FinalItems[1]);
  }

  lemma FinalItemsValues()
    requires forall it <- FinalItems :: Parser.Readable(it)
    ensures Parser.Values(FinalItems) == [0.001, 0.0]
  {
    MilliSpelled();
    ZeroSpelled();
  }

  lemma TimestepDefaultParses()
    ensures Convergence.ParseConvergenceDescription(DefaultTimestepTestText)
      == Ok(Convergence.EnergyDeviationChange(0.001, 0.00001))
  {
    TimestepItemsReadable();
    TimestepItemsText();
    TimestepItemsValues();
    DeviationParses(DefaultTimestepTestText, TimestepItems);
  }

  lemma FinalDefaultParses()
    ensures Convergence.ParseConvergenceDescription(DefaultFinalTestText)
      == Ok(Convergence.EnergyDeviationChange(0.001, 0.0))
  {
    FinalItemsReadable();
    FinalItemsText();
    FinalItemsValues();
    DeviationParses(DefaultFinalTestText, FinalItems);
  }

  /** A "deviation(...)" text of readable numbers becomes the test built
      from those numbers. */
  lemma DeviationParses(text: string, items: seq<Parser.Item>)
    requires forall it <- items :: Parser.Readable(it)
    requires Parser.Describe("deviation", items) == text
    ensures Convergence.ParseConvergenceDescription(text)
      == Convergence.DeviationFrom(Parser.Values(items))
  {
    DeviationIsName();
    Convergence.DescribedTest("", "deviation", items, "");
    Unpadded(text);
    DeviationPair(text, Parser.Values(items));
  }

  lemma Unpadded(s: string)
    ensures "" + s + "" == s
  {
  }

  lemma DeviationPair(s: string, params: seq<real>)
    ensures Convergence.FromPair(s, "deviation", params) == Convergence.DeviationFrom(params)
  {
    assert "deviation" in Convergence.DeviationNames;
  }
}
