/** The control state machine of an imaginary-time propagation run
    (`itpsystem.cpp`): the initial time step, one iteration (`step`), the
    time-step change, the ordering of the computed energies, the counting
    of converged states, and `finish`.

    Propagation, orthonormalisation and the evaluation of energies are
    numerical work outside this model. They enter as an `Outcome`: whether
    the abort flag was raised, how orthonormalisation ended, and the energy
    and standard deviation computed for each state. */
module Simulation {
  import opened Util
  import opened Configuration
  import Convergence
  import Sorting
  import Spectrum
  import StateSets
  import CommandLine

  /** An (E, σ, n) tuple: energy, its standard deviation, state index. */
  datatype Level = Level(energy: real, deviation: real, index: nat)

  /** The lexicographic order of such tuples that `std::sort` uses. */
  predicate LevelLe(a: Level, b: Level)
  {
    a.energy < b.energy
    || (a.energy == b.energy && (a.deviation < b.deviation
                                 || (a.deviation == b.deviation && a.index <= b.index)))
  }

  lemma LevelOrder()
    ensures Sorting.TotalOrder((a: Level, b: Level) => LevelLe(a, b))
  {
  }

  datatype OrthoResult = Orthonormal | NonPositiveEigenvalue | OtherFailure

  /** What the numerical part of one iteration reports. */
  datatype Outcome = Outcome(aborted: bool, ortho: OrthoResult, measured: seq<(real, real)>)

  datatype System = System(
    finished: bool,
    errorFlag: bool,
    allTimestepConverged: bool,
    allFinallyConverged: bool,
    exhausting: bool,
    states: StateSets.StateSet,
    levels: seq<Level>,            // the (E, σ, n) tuples in ascending order
    energies: seq<seq<real>>,      // one row per step, in sorted order
    deviations: seq<seq<real>>,
    totalSteps: nat,
    stepCounter: nat,
    eps: real,
    epsValues: seq<real>)

  /** The parameters a run needs: the needed states fit above the ignored
      ones among the N computed (the counting reads the sorted tuples up
      to position ignore + needed - 1), and the time-step divisor can be
      divided by. */
  predicate Runnable(p: Parameters)
  {
    CountsConsistent(p) && p.epsDivisor != 0.0
  }

  // ---------------------------------------------------------------------
  // Construction

  /** The constructor as written: the first time step is popped from the
      user's list, or the default when the list is empty; the exhausting
      flag is copied from the parameters. */
  function InitAsWritten(p: Parameters): (s: System)
    ensures |p.epsValues| > 0 ==> s.eps == p.epsValues[0] && s.epsValues == p.epsValues[1..]
    ensures |p.epsValues| == 0 ==> s.eps == DefaultInitialEps && s.epsValues == []
    ensures s.exhausting == p.exhaustEps
    ensures !s.finished && !s.errorFlag && !s.allTimestepConverged && !s.allFinallyConverged
    ensures s.totalSteps == 0 && s.stepCounter == 0 && s.energies == [] && s.deviations == []
    ensures s.states == StateSets.New(p.N, p.orthoAlg)
  {
    var first := if |p.epsValues| > 0 then p.epsValues[0] else DefaultInitialEps;
    var rest := if |p.epsValues| > 0 then p.epsValues[1..] else [];
    System(false, false, false, false, p.exhaustEps, StateSets.New(p.N, p.orthoAlg),
           seq(p.N, _ => Level(0.0, 0.0, 0)), [], [], 0, 0, first, rest)
  }

  /** The constructor with the exhausting flag cleared when no list value
      is left after the first one has been popped, as `change_time_step`
      does when it pops the last one. */
  function Init(p: Parameters): (s: System)
    ensures s.exhausting <==> p.exhaustEps && |p.epsValues| > 1
    ensures s == InitAsWritten(p).(exhausting := s.exhausting)
  {
    var s := InitAsWritten(p);
    s.(exhausting := s.exhausting && |s.epsValues| > 0)
  }

  /** While the list is being exhausted there is a value left to pop. */
  predicate ExhaustingHasValues(s: System)
  {
    s.exhausting ==> |s.epsValues| > 0
  }

  // ---------------------------------------------------------------------
  // Finishing and changing the time step

  /** `finish`: marks the run finished; a second call does nothing. Saving
      the results is output and is not modelled. */
  function Finish(s: System): (r: System)
    ensures r.finished
    ensures r.(finished := s.finished) == s
    ensures s.finished ==> r == s
  {
    s.(finished := true)
  }

  lemma FinishIdempotent(s: System)
    ensures Finish(Finish(s)) == Finish(s)
  {
  }

  /** The first half of `change_time_step`: pops the next list value,
      clearing the exhausting flag when that empties the list, or divides
      the step by the divisor. */
  function NextTimeStep(p: Parameters, s: System): (r: System)
    requires p.epsDivisor != 0.0
    ensures |s.epsValues| > 0 ==> r.eps == s.epsValues[0] && r.epsValues == s.epsValues[1..]
    ensures |s.epsValues| > 0 ==> (r.exhausting <==> s.exhausting && |s.epsValues| > 1)
    ensures |s.epsValues| == 0 ==> r.eps == s.eps / p.epsDivisor && r.epsValues == [] && r.exhausting == s.exhausting
    ensures r == s.(eps := r.eps, epsValues := r.epsValues, exhausting := r.exhausting)
  {
    if |s.epsValues| > 0 then
      s.(eps := s.epsValues[0], epsValues := s.epsValues[1..], exhausting := s.exhausting && |s.epsValues| > 1)
    else
      s.(eps := s.eps / p.epsDivisor)
  }

  /** The end of `change_time_step` for an accepted step: the step counter
      restarts and time-step convergence is forgotten. */
  function RestartConvergence(s: System): (r: System)
    requires StateSets.Valid(s.states)
    ensures r.stepCounter == 0 && !r.allTimestepConverged
    ensures StateSets.Valid(r.states) && r.states.timestep.count == 0
    ensures |r.states.timestep.flags| == |s.states.timestep.flags|
    ensures forall j | 0 <= j < |r.states.timestep.flags| :: !r.states.timestep.flags[j]
    ensures r.states == s.states.(timestep := r.states.timestep)
    ensures r == s.(stepCounter := 0, allTimestepConverged := false, states := r.states)
  {
    StateSets.ClearedCountsNothing(s.states.timestep);
    s.(stepCounter := 0, allTimestepConverged := false,
       states := s.states.(timestep := StateSets.ClearFrom(s.states.timestep, 0)))
  }

  /** `change_time_step`: a new step below the minimum is an error that
      finishes the run, with nothing reset. */
  function ChangeTimeStep(p: Parameters, s: System): (r: System)
    requires p.epsDivisor != 0.0 && StateSets.Valid(s.states)
    ensures var t := NextTimeStep(p, s);
      r.eps == t.eps && r.epsValues == t.epsValues && r.exhausting == t.exhausting
    ensures r.eps < p.minTimeStep ==>
      r.finished && r.errorFlag && r.stepCounter == s.stepCounter && r.states == s.states
      && r.allTimestepConverged == s.allTimestepConverged
    ensures r.eps >= p.minTimeStep ==>
      r.finished == s.finished && r.errorFlag == s.errorFlag && r.stepCounter == 0 && !r.allTimestepConverged
      && r.states.timestep.count == 0 && (forall j | 0 <= j < |r.states.timestep.flags| :: !r.states.timestep.flags[j])
    ensures StateSets.Valid(r.states) && r.states.N() == s.states.N() && r.states.final == s.states.final
    ensures r.levels == s.levels && r.energies == s.energies && r.deviations == s.deviations
    ensures r.totalSteps == s.totalSteps && r.allFinallyConverged == s.allFinallyConverged
  {
    var t := NextTimeStep(p, s);
    if t.eps < p.minTimeStep then Finish(t.(errorFlag := true)) else RestartConvergence(t)
  }

  // ---------------------------------------------------------------------
  // Energies

  /** The tuples of the states in index order. */
  function Tuples(measured: seq<(real, real)>): (ts: seq<Level>)
    ensures |ts| == |measured|
    ensures forall n | 0 <= n < |ts| :: ts[n] == Level(measured[n].0, measured[n].1, n)
  {
    seq(|measured|, n requires 0 <= n < |measured| => Level(measured[n].0, measured[n].1, n))
  }

  function SortLevels(ts: seq<Level>): seq<Level>
  {
    Sorting.Sort(ts, (a: Level, b: Level) => LevelLe(a, b))
  }

  function EnergiesOf(ls: seq<Level>): (es: seq<real>)
    ensures |es| == |ls| && forall i | 0 <= i < |ls| :: es[i] == ls[i].energy
  {
    seq(|ls|, i requires 0 <= i < |ls| => ls[i].energy)
  }

  function DeviationsOf(ls: seq<Level>): (ds: seq<real>)
    ensures |ds| == |ls| && forall i | 0 <= i < |ls| :: ds[i] == ls[i].deviation
  {
    seq(|ls|, i requires 0 <= i < |ls| => ls[i].deviation)
  }

  /** `resize`: a history shorter than k rows is padded with empty rows. */
  function Pad(rows: seq<seq<real>>, k: nat): (r: seq<seq<real>>)
    ensures |r| == if |rows| < k then k else |rows|
    ensures forall j | 0 <= j < |rows| :: r[j] == rows[j]
  {
    if |rows| < k then rows + seq(k - |rows|, _ => []) else rows
  }

  /** `calculate_energies`: nothing before the first step; afterwards the
      tuples are sorted and their energies and deviations become the
      history row of the current step. */
  function CalculateEnergies(s: System, measured: seq<(real, real)>): (r: System)
    ensures s.totalSteps == 0 ==> r == s
    ensures s.totalSteps > 0 ==>
      r.levels == SortLevels(Tuples(measured))
      && |r.energies| == |Pad(s.energies, s.totalSteps)| && |r.deviations| == |Pad(s.deviations, s.totalSteps)|
      && r.energies[s.totalSteps - 1] == EnergiesOf(r.levels)
      && r.deviations[s.totalSteps - 1] == DeviationsOf(r.levels)
      && (forall k | 0 <= k < |s.energies| && k != s.totalSteps - 1 :: r.energies[k] == s.energies[k])
      && (forall k | 0 <= k < |s.deviations| && k != s.totalSteps - 1 :: r.deviations[k] == s.deviations[k])
    ensures r.(levels := s.levels, energies := s.energies, deviations := s.deviations) == s
  {
    if s.totalSteps == 0 then s
    else
      var levels := SortLevels(Tuples(measured));
      var k := s.totalSteps - 1;
      s.(levels := levels,
         energies := Pad(s.energies, s.totalSteps)[k := EnergiesOf(levels)],
         deviations := Pad(s.deviations, s.totalSteps)[k := DeviationsOf(levels)])
  }

  /** The sorted tuples: ascending, each state exactly once, each carrying
      the energy and deviation measured for its own state. */
  lemma {:induction false} SortedLevels(measured: seq<(real, real)>)
    ensures var ls := SortLevels(Tuples(measured));
      && |ls| == |measured|
      && Sorting.SortedBy(ls, (a: Level, b: Level) => LevelLe(a, b))
      && Sorting.Distinct(ls)
      && (forall i | 0 <= i < |ls| :: ls[i].index < |measured|
            && ls[i].energy == measured[ls[i].index].0 && ls[i].deviation == measured[ls[i].index].1)
      && (forall i, j | 0 <= i < j < |ls| :: ls[i].index != ls[j].index)
  {
    var le := (a: Level, b: Level) => LevelLe(a, b);
    var ts := Tuples(measured);
    var ls := SortLevels(ts);
    LevelOrder();
    Sorting.SortSorted(ts, le);
    Sorting.SortKeepsDistinct(ts, le);
    forall i | 0 <= i < |ls|
      ensures ls[i].index < |measured| && ls[i] == ts[ls[i].index]
    {
      assert ls[i] in multiset(ls);
      assert ls[i] in ts;
    }
  }

  /** The recorded energies of a step are in ascending order, which is
      what the spectral statistics expect of the final energies. */
  lemma RecordedAscending(s: System, measured: seq<(real, real)>)
    requires s.totalSteps > 0
    ensures Spectrum.Sorted(CalculateEnergies(s, measured).energies[s.totalSteps - 1])
  {
    SortedLevels(measured);
  }

  // ---------------------------------------------------------------------
  // Convergence counting

  /** What the convergence tests see, with the given time-step flags. */
  function HistoryOf(s: System, flags: seq<bool>): Convergence.History
  {
    Convergence.History(s.energies, s.deviations, s.stepCounter, flags)
  }

  /** The shape the tests and the counting rely on: one tuple per state,
      each naming a state, and the last two history rows readable at every
      sorted position. */
  predicate Shaped(s: System)
  {
    var N := |s.levels|;
    && StateSets.Valid(s.states) && s.states.N() == N
    && (forall i | 0 <= i < N :: s.levels[i].index < N)
    && |s.deviations| == |s.energies|
    && (|s.energies| >= 2 ==>
          |s.energies[|s.energies| - 1]| >= N && |s.energies[|s.energies| - 2]| >= N
          && |s.deviations[|s.deviations| - 1]| >= N && |s.deviations[|s.deviations| - 2]| >= N)
  }

  lemma ShapedReadable(s: System, flags: seq<bool>, n: nat)
    requires Shaped(s) && n < |s.levels| && |flags| == |s.levels|
    ensures Convergence.Readable(HistoryOf(s, flags), n)
  {
  }

  /** Only the one-step test reads the time-step flags. */
  lemma PassesIgnoresFlags(t: Convergence.Test, s: System, f: seq<bool>, g: seq<bool>)
    requires Shaped(s) && |f| == |s.levels| && |g| == |s.levels|
    ensures !t.OneStep? ==> forall m | 0 <= m < |s.levels| ::
      (ShapedReadable(s, f, m); ShapedReadable(s, g, m);
       Convergence.Passes(t, HistoryOf(s, f), m) == Convergence.Passes(t, HistoryOf(s, g), m))
  {
  }

  /** One turn of the first loop of `check_timestep_convergence`: the
      state at sorted position n gets its time-step flag raised when the
      position passes the test. */
  function MarkOne(t: Convergence.Test, s: System, st: StateSets.StateSet, n: nat): (r: StateSets.StateSet)
    requires Shaped(s) && StateSets.Valid(st) && st.N() == |s.levels| && n < |s.levels|
    ensures StateSets.Valid(r) && r.N() == st.N() && r.(timestep := st.timestep) == st
    ensures r.timestep.flags == st.timestep.flags || r.timestep.flags == st.timestep.flags[s.levels[n].index := true]
  {
    ShapedReadable(s, st.timestep.flags, n);
    if Convergence.Passes(t, HistoryOf(s, st.timestep.flags), n)
    then StateSets.SetTimestepConverged(st, s.levels[n].index, true) else st
  }

  /** The first loop of `check_timestep_convergence`, from position n on. */
  function MarkTimestep(t: Convergence.Test, s: System, st: StateSets.StateSet, n: nat): (r: StateSets.StateSet)
    requires Shaped(s) && StateSets.Valid(st) && st.N() == |s.levels|
    ensures StateSets.Valid(r) && r.N() == st.N() && r.(timestep := st.timestep) == st
    decreases |s.levels| - n
  {
    if n >= |s.levels| then st else MarkTimestep(t, s, MarkOne(t, s, st, n), n + 1)
  }

  /** Marking never lowers a flag, and raises only flags of states at the
      positions it visits. */
  lemma {:induction false} MarkTimestepRaisesOnly(t: Convergence.Test, s: System, st: StateSets.StateSet, n: nat)
    requires Shaped(s) && StateSets.Valid(st) && st.N() == |s.levels|
    ensures var r := MarkTimestep(t, s, st, n);
      (forall j | 0 <= j < st.N() :: st.timestep.flags[j] ==> r.timestep.flags[j])
      && (forall j | 0 <= j < st.N() && r.timestep.flags[j] && !st.timestep.flags[j] ::
            exists m | n <= m < |s.levels| :: s.levels[m].index == j)
    decreases |s.levels| - n
  {
    if n < |s.levels| {
      var next := MarkOne(t, s, st, n);
      MarkTimestepRaisesOnly(t, s, next, n + 1);
      var r := MarkTimestep(t, s, next, n + 1);
      forall j | 0 <= j < st.N() && r.timestep.flags[j] && !st.timestep.flags[j]
        ensures exists m | n <= m < |s.levels| :: s.levels[m].index == j
      {
        if next.timestep.flags[j] {
          assert s.levels[n].index == j;
        }
      }
    }
  }

  /** For a test that does not read the flags, every visited position that
      passes has its state's flag raised afterwards. */
  lemma {:induction false} MarkTimestepRaisesPassing(t: Convergence.Test, s: System, st: StateSets.StateSet, n: nat)
    requires Shaped(s) && StateSets.Valid(st) && st.N() == |s.levels| && !t.OneStep?
    ensures forall m | n <= m < |s.levels| ::
      (ShapedReadable(s, st.timestep.flags, m);
       Convergence.Passes(t, HistoryOf(s, st.timestep.flags), m)) ==> MarkTimestep(t, s, st, n).timestep.flags[s.levels[m].index]
    decreases |s.levels| - n
  {
    if n < |s.levels| {
      var next := MarkOne(t, s, st, n);
      PassesIgnoresFlags(t, s, st.timestep.flags, next.timestep.flags);
      MarkTimestepRaisesPassing(t, s, next, n + 1);
      MarkTimestepRaisesOnly(t, s, next, n + 1);
    }
  }

  /** Whether every sorted position in [lo, hi) holds a state whose flag is
      raised: the counting loop's `flag`. */
  function AllFlagged(levels: seq<Level>, flags: seq<bool>, lo: nat, hi: nat): (b: bool)
    requires hi <= |levels| && forall i | 0 <= i < |levels| :: levels[i].index < |flags|
    ensures b <==> forall n | lo <= n < hi :: flags[levels[n].index]
    decreases hi - lo
  {
    if lo >= hi then true else flags[levels[lo].index] && AllFlagged(levels, flags, lo + 1, hi)
  }

  /** The sorted positions in [lo, hi) whose state's flag is down, in order. */
  function Unflagged(levels: seq<Level>, flags: seq<bool>, lo: nat, hi: nat): (ms: seq<nat>)
    requires hi <= |levels| && forall i | 0 <= i < |levels| :: levels[i].index < |flags|
    ensures forall k | 0 <= k < |ms| :: lo <= ms[k] < hi && !flags[levels[ms[k]].index]
    ensures forall n | lo <= n < hi && !flags[levels[n].index] :: n in ms
    ensures forall i, j | 0 <= i < j < |ms| :: ms[i] < ms[j]
    decreases hi - lo
  {
    if lo >= hi then []
    else
      var rest := Unflagged(levels, flags, lo + 1, hi);
      if flags[levels[lo].index] then rest else [lo] + rest
  }

  /** The positions reported as still missing: the first five at most. */
  function MissingReported(levels: seq<Level>, flags: seq<bool>, lo: nat, hi: nat): (ms: seq<nat>)
    requires hi <= |levels| && forall i | 0 <= i < |levels| :: levels[i].index < |flags|
    ensures |ms| <= 5
    ensures |ms| == 0 <==> AllFlagged(levels, flags, lo, hi)
    ensures forall k | 0 <= k < |ms| :: lo <= ms[k] < hi && !flags[levels[ms[k]].index]
    ensures |ms| < 5 ==> forall n | lo <= n < hi && !flags[levels[n].index] :: n in ms
  {
    var all := Unflagged(levels, flags, lo, hi);
    assert |all| > 0 ==> !flags[levels[all[0]].index];
    if |all| <= 5 then all else all[..5]
  }

  /** `check_timestep_convergence`: mark, then decide whether all needed
      states, at sorted positions ignore .. ignore + needed - 1, are
      time-step converged. */
  function CheckTimestepConvergence(p: Parameters, s: System): (r: System)
    requires Shaped(s) && |s.levels| == p.N && CountsConsistent(p)
    ensures r.states == MarkTimestep(p.timestepTest, s, s.states, 0)
    ensures r.allTimestepConverged <==>
      forall n | p.ignoreLowest <= n < p.ignoreLowest + p.neededToConverge ::
        r.states.timestep.flags[s.levels[n].index]
    ensures r.(states := s.states, allTimestepConverged := s.allTimestepConverged) == s
  {
    var st := MarkTimestep(p.timestepTest, s, s.states, 0);
    s.(states := st,
       allTimestepConverged := AllFlagged(s.levels, st.timestep.flags, p.ignoreLowest, p.ignoreLowest + p.neededToConverge))
  }

  /** The test result of sorted position n, with the given time-step flags. */
  predicate PassesAt(t: Convergence.Test, s: System, flags: seq<bool>, n: nat)
    requires Shaped(s) && |flags| == |s.levels| && n < |s.levels|
  {
    ShapedReadable(s, flags, n);
    Convergence.Passes(t, HistoryOf(s, flags), n)
  }

  /** The first loop of `check_final_convergence`, from position n on:
      the final flag of the state at each sorted position becomes that
      position's test result, raised or lowered. */
  function MarkFinal(t: Convergence.Test, s: System, st: StateSets.StateSet, n: nat): (r: StateSets.StateSet)
    requires Shaped(s) && StateSets.Valid(st) && st.N() == |s.levels|
    ensures StateSets.Valid(r) && r.N() == st.N() && r.(final := st.final) == st
    decreases |s.levels| - n
  {
    if n >= |s.levels| then st
    else MarkFinal(t, s, StateSets.SetFinallyConverged(st, s.levels[n].index, PassesAt(t, s, st.timestep.flags, n)), n + 1)
  }

  /** With each state at one sorted position only, the final flag of the
      state at every visited position is that position's test result;
      states at no visited position keep their flag. */
  lemma {:induction false} MarkFinalRecords(t: Convergence.Test, s: System, st: StateSets.StateSet, n: nat)
    requires Shaped(s) && StateSets.Valid(st) && st.N() == |s.levels|
    ensures var r := MarkFinal(t, s, st, n);
      (forall j | 0 <= j < st.N() && (forall m | n <= m < |s.levels| :: s.levels[m].index != j) ::
         r.final.flags[j] == st.final.flags[j])
      && ((forall i, j | n <= i < j < |s.levels| :: s.levels[i].index != s.levels[j].index) ==>
            forall m | n <= m < |s.levels| :: r.final.flags[s.levels[m].index] == PassesAt(t, s, st.timestep.flags, m))
    decreases |s.levels| - n
  {
    if n < |s.levels| {
      var next := StateSets.SetFinallyConverged(st, s.levels[n].index, PassesAt(t, s, st.timestep.flags, n));
      MarkFinalRecords(t, s, next, n + 1);
    }
  }

  /** `check_final_convergence`. */
  function CheckFinalConvergence(p: Parameters, s: System): (r: System)
    requires Shaped(s) && |s.levels| == p.N && CountsConsistent(p)
    ensures r.states == MarkFinal(p.finalTest, s, s.states, 0)
    ensures r.allFinallyConverged <==>
      forall n | p.ignoreLowest <= n < p.ignoreLowest + p.neededToConverge ::
        r.states.final.flags[s.levels[n].index]
    ensures r.(states := s.states, allFinallyConverged := s.allFinallyConverged) == s
  {
    var st := MarkFinal(p.finalTest, s, s.states, 0);
    s.(states := st,
       allFinallyConverged := AllFlagged(s.levels, st.final.flags, p.ignoreLowest, p.ignoreLowest + p.neededToConverge))
  }

  // ---------------------------------------------------------------------
  // One iteration

  /** `orthonormalize` as the control flow sees it. A non-positive
      eigenvalue means the states were propagated too far: with recovery
      on, the time step changes (the states are reset, which is numerical
      work not modelled here); otherwise, and on any other failure, the
      run ends with an error. The iteration goes on either way. */
  function Orthonormalize(p: Parameters, s: System, result: OrthoResult): (r: System)
    requires p.epsDivisor != 0.0 && StateSets.Valid(s.states)
    ensures result == Orthonormal ==> r == s
    ensures result == NonPositiveEigenvalue && p.recover ==> r == ChangeTimeStep(p, s)
    ensures result == OtherFailure || (result == NonPositiveEigenvalue && !p.recover) ==>
      r.finished && r.errorFlag && r == s.(finished := true, errorFlag := true)
  {
    match result
    case Orthonormal => s
    case NonPositiveEigenvalue => if p.recover then ChangeTimeStep(p, s) else Finish(s.(errorFlag := true))
    case OtherFailure => Finish(s.(errorFlag := true))
  }

  /** What follows the time-step convergence check in `step`: once all
      needed states are time-step converged, the final test decides
      between finishing and a new time step; before that, the time step
      changes only while the user's list is being exhausted. */
  function Conclude(p: Parameters, s: System): (r: System)
    requires Shaped(s) && |s.levels| == p.N && Runnable(p)
    ensures StateSets.Valid(r.states) && r.states.N() == p.N
    ensures r.levels == s.levels && r.energies == s.energies && r.deviations == s.deviations
    ensures r.totalSteps == s.totalSteps
    ensures s.errorFlag ==> r.errorFlag
  {
    if s.allTimestepConverged then
      var f := CheckFinalConvergence(p, s);
      if f.allFinallyConverged then Finish(f) else ChangeTimeStep(p, f)
    else if s.exhausting then ChangeTimeStep(p, s)
    else s
  }

  /** Before all needed states are time-step converged, nothing happens
      unless the list is being exhausted, and then the time step changes. */
  lemma ConcludeUnconverged(p: Parameters, s: System)
    requires Shaped(s) && |s.levels| == p.N && Runnable(p) && !s.allTimestepConverged
    ensures !s.exhausting ==> Conclude(p, s) == s
    ensures s.exhausting ==>
      Conclude(p, s).eps == NextTimeStep(p, s).eps && Conclude(p, s).epsValues == NextTimeStep(p, s).epsValues
  {
  }

  /** Once all needed states are time-step converged, the final flags of
      the needed positions decide: all raised finishes the run with the
      time step kept, otherwise the time step changes. */
  lemma ConcludeConverged(p: Parameters, s: System)
    requires Shaped(s) && |s.levels| == p.N && Runnable(p) && s.allTimestepConverged
    ensures var r := Conclude(p, s);
      (r.allFinallyConverged <==>
         forall n | p.ignoreLowest <= n < p.ignoreLowest + p.neededToConverge :: r.states.final.flags[s.levels[n].index])
    ensures var r := Conclude(p, s);
      r.allFinallyConverged ==> r.finished && r.eps == s.eps && r.epsValues == s.epsValues
    ensures var r := Conclude(p, s);
      !r.allFinallyConverged ==> r.eps == NextTimeStep(p, s).eps && r.epsValues == NextTimeStep(p, s).epsValues
  {
  }

  /** The run ends without an error only after the final test passed for
      every needed state. */
  lemma ConcludeFinishesConverged(p: Parameters, s: System)
    requires Shaped(s) && |s.levels| == p.N && Runnable(p)
    ensures var r := Conclude(p, s);
      r.finished && !s.finished && !r.errorFlag ==> s.allTimestepConverged && r.allFinallyConverged
    ensures var r := Conclude(p, s);
      r.errorFlag ==> s.errorFlag || r.eps < p.minTimeStep
  {
  }

  /** The invariant of a run: one flag pair and one tuple per state, every
      tuple naming a state and, once a step has been recorded, each state
      named once; one history row per step taken, each of N entries with
      the energies ascending; no more steps than the limit allows. */
  ghost predicate Inv(p: Parameters, s: System)
  {
    && Layout(p, s)
    && HistoryRows(p, s, s.totalSteps)
    && (s.totalSteps <= p.maxSteps || s.totalSteps == 0)
  }

  ghost predicate Layout(p: Parameters, s: System)
  {
    && StateSets.Valid(s.states) && s.states.N() == p.N
    && |s.levels| == p.N
    && (forall i | 0 <= i < p.N :: s.levels[i].index < p.N)
  }

  /** k rows recorded; after the first, the tuples name distinct states. */
  ghost predicate HistoryRows(p: Parameters, s: System, k: nat)
  {
    && |s.energies| == k && |s.deviations| == k
    && (forall j | 0 <= j < k :: |s.energies[j]| == p.N && |s.deviations[j]| == p.N)
    && (forall j | 0 <= j < k :: Spectrum.Sorted(s.energies[j]))
    && (k > 0 ==> forall i, j | 0 <= i < j < |s.levels| :: s.levels[i].index != s.levels[j].index)
  }

  lemma LayoutShaped(p: Parameters, s: System)
    requires Layout(p, s) && HistoryRows(p, s, |s.energies|)
    ensures Shaped(s) && |s.levels| == p.N
  {
  }

  /** `step`: an abort request or the step limit ends the run with an
      error and nothing counted; otherwise both counters advance, and the
      states are orthonormalised, measured, sorted and tested. */
  function Step(p: Parameters, s: System, o: Outcome): (r: System)
    requires Inv(p, s) && Runnable(p) && |o.measured| == p.N
    ensures o.aborted || s.totalSteps >= p.maxSteps ==>
      r.finished && r.errorFlag && r.totalSteps == s.totalSteps && r.stepCounter == s.stepCounter
    ensures !o.aborted && s.totalSteps < p.maxSteps ==> r.totalSteps == s.totalSteps + 1
  {
    if o.aborted then Finish(s.(errorFlag := true))
    else if s.totalSteps >= p.maxSteps then Finish(s.(errorFlag := true))
    else
      var m := Advance(p, s, o);
      var c := CheckTimestepConvergence(p, m);
      CheckedShaped(p, m);
      Conclude(p, c)
  }

  /** Both step counters advance by one. */
  function Begin(s: System): (r: System)
    ensures r.stepCounter == s.stepCounter + 1 && r.totalSteps == s.totalSteps + 1
    ensures r.(stepCounter := s.stepCounter, totalSteps := s.totalSteps) == s
  {
    s.(stepCounter := s.stepCounter + 1, totalSteps := s.totalSteps + 1)
  }

  /** The part of `step` up to the measurement: both counters advance, the
      states are orthonormalised, and the sorted energies are recorded.
      The time-step fields are those orthonormalisation left. */
  function Advance(p: Parameters, s: System, o: Outcome): (r: System)
    requires Inv(p, s) && Runnable(p) && |o.measured| == p.N && !o.aborted && s.totalSteps < p.maxSteps
    ensures Layout(p, r) && HistoryRows(p, r, r.totalSteps) && Shaped(r) && |r.levels| == p.N
    ensures r.totalSteps == s.totalSteps + 1 && r.totalSteps <= p.maxSteps
    ensures r.finished ==> s.finished || r.errorFlag
    ensures var o2 := Orthonormalize(p, Begin(s), o.ortho);
      r.eps == o2.eps && r.epsValues == o2.epsValues && r.exhausting == o2.exhausting
  {
    var s1 := Begin(s);
    assert Layout(p, s1) && HistoryRows(p, s1, s.totalSteps);
    var s2 := Orthonormalize(p, s1, o.ortho);
    OrthonormalizeKeeps(p, s1, o.ortho, s.totalSteps);
    Recorded(p, s2, o.measured);
    CalculateEnergies(s2, o.measured)
  }

  /** Orthonormalisation, whatever its outcome, leaves the tuples, the
      history and the flag bookkeeping in shape. */
  lemma OrthonormalizeKeeps(p: Parameters, s: System, result: OrthoResult, k: nat)
    requires Layout(p, s) && HistoryRows(p, s, k) && p.epsDivisor != 0.0
    ensures var r := Orthonormalize(p, s, result);
      Layout(p, r) && HistoryRows(p, r, k) && r.totalSteps == s.totalSteps
      && (r.finished ==> s.finished || r.errorFlag)
  {
    var r := Orthonormalize(p, s, result);
    assert r.levels == s.levels && r.energies == s.energies && r.deviations == s.deviations;
  }

  /** The time-step check keeps the shape the rest of `step` relies on. */
  lemma CheckedShaped(p: Parameters, s: System)
    requires Layout(p, s) && HistoryRows(p, s, s.totalSteps) && Shaped(s) && |s.levels| == p.N && CountsConsistent(p)
    ensures var r := CheckTimestepConvergence(p, s);
      Layout(p, r) && HistoryRows(p, r, r.totalSteps) && Shaped(r) && |r.levels| == p.N
  {
  }

  /** After the measurement the invariant holds again, with the new row. */
  lemma Recorded(p: Parameters, s: System, measured: seq<(real, real)>)
    requires Layout(p, s) && s.totalSteps > 0 && HistoryRows(p, s, s.totalSteps - 1) && |measured| == p.N
    ensures var r := CalculateEnergies(s, measured);
      Layout(p, r) && HistoryRows(p, r, r.totalSteps) && Shaped(r) && |r.levels| == p.N
  {
    SortedLevels(measured);
    RecordedAscending(s, measured);
  }

  // ---------------------------------------------------------------------
  // Properties of a run

  /** The constructor establishes the invariant. */
  lemma InitEstablishes(p: Parameters)
    ensures Inv(p, Init(p)) && Inv(p, InitAsWritten(p))
  {
  }

  /** Every iteration keeps the invariant; in particular the total step
      counter never passes the step limit. */
  lemma StepKeepsInvariant(p: Parameters, s: System, o: Outcome)
    requires Inv(p, s) && Runnable(p) && |o.measured| == p.N
    ensures Inv(p, Step(p, s, o))
    ensures Step(p, s, o).totalSteps <= p.maxSteps || Step(p, s, o).totalSteps == 0
  {
    if !o.aborted && s.totalSteps < p.maxSteps {
      var m := Advance(p, s, o);
      CheckedShaped(p, m);
      var c := CheckTimestepConvergence(p, m);
      var r := Conclude(p, c);
      assert r.levels == c.levels && r.energies == c.energies && r.deviations == c.deviations;
      assert HistoryRows(p, r, r.totalSteps);
    }
  }

  /** A run that was going ends without an error only when every needed
      state, at sorted positions ignore .. ignore + needed - 1, has passed
      both the time-step and the final test. */
  lemma StepFinishesConverged(p: Parameters, s: System, o: Outcome)
    requires Inv(p, s) && Runnable(p) && |o.measured| == p.N && !s.finished
    ensures var r := Step(p, s, o);
      r.finished && !r.errorFlag ==>
        r.allFinallyConverged
        && (forall n | p.ignoreLowest <= n < p.ignoreLowest + p.neededToConverge ::
              r.states.final.flags[r.levels[n].index])
  {
    var r := Step(p, s, o);
    if r.finished && !r.errorFlag {
      var m := Advance(p, s, o);
      CheckedShaped(p, m);
      var c := CheckTimestepConvergence(p, m);
      ConcludeFinishesConverged(p, c);
      ConcludeConverged(p, c);
    }
  }

  // ---------------------------------------------------------------------
  // Exhausting the list of time steps

  /** A time-step change keeps a value in the list while exhausting, and
      consumes one when exhausting. */
  lemma ChangeKeepsExhausting(p: Parameters, s: System)
    requires p.epsDivisor != 0.0 && StateSets.Valid(s.states) && ExhaustingHasValues(s)
    ensures ExhaustingHasValues(ChangeTimeStep(p, s))
    ensures s.exhausting ==> |ChangeTimeStep(p, s).epsValues| < |s.epsValues|
  {
  }

  /** Orthonormalisation changes the list only through a recovering
      time-step change. */
  lemma OrthonormalizeExhausting(p: Parameters, s: System, result: OrthoResult)
    requires p.epsDivisor != 0.0 && StateSets.Valid(s.states) && ExhaustingHasValues(s)
    ensures var r := Orthonormalize(p, s, result);
      ExhaustingHasValues(r) && |r.epsValues| <= |s.epsValues|
      && (s.exhausting ==> r.exhausting || |r.epsValues| < |s.epsValues|)
      && (r.epsValues == s.epsValues ==> r.exhausting == s.exhausting)
  {
    ChangeKeepsExhausting(p, s);
  }

  /** The end of an iteration keeps a list value available while
      exhausting, and consumes one unless it finishes the run. */
  lemma ConcludeExhausting(p: Parameters, s: System)
    requires Shaped(s) && |s.levels| == p.N && Runnable(p) && ExhaustingHasValues(s)
    ensures ExhaustingHasValues(Conclude(p, s))
    ensures s.exhausting ==> Conclude(p, s).finished || |Conclude(p, s).epsValues| < |s.epsValues|
    ensures |Conclude(p, s).epsValues| <= |s.epsValues|
  {
    ChangeKeepsExhausting(p, s);
    if s.allTimestepConverged {
      var f := CheckFinalConvergence(p, s);
      ChangeKeepsExhausting(p, f);
    }
  }

  /** Corrected: every iteration keeps a list value available while
      exhausting, and an exhausting iteration that does not end the run
      consumes one, so exhausting stops after at most as many iterations
      as there are values. */
  lemma StepKeepsExhaustingHasValues(p: Parameters, s: System, o: Outcome)
    requires Inv(p, s) && Runnable(p) && |o.measured| == p.N && ExhaustingHasValues(s)
    ensures ExhaustingHasValues(Step(p, s, o))
    ensures s.exhausting ==> Step(p, s, o).finished || |Step(p, s, o).epsValues| < |s.epsValues|
  {
    if !o.aborted && s.totalSteps < p.maxSteps {
      var m := Advance(p, s, o);
      OrthonormalizeExhausting(p, Begin(s), o.ortho);
      CheckedShaped(p, m);
      var c := CheckTimestepConvergence(p, m);
      assert c.epsValues == m.epsValues && c.exhausting == m.exhausting;
      ConcludeExhausting(p, c);
    }
  }

  /** Corrected constructor: the invariant holds from the start. */
  lemma InitHasValues(p: Parameters)
    ensures ExhaustingHasValues(Init(p))
  {
  }

  /** As written, asking to exhaust a list of at most one value leaves the
      run exhausting with nothing left to pop. */
  lemma ShortListKeepsExhausting(p: Parameters)
    requires p.exhaustEps && |p.epsValues| <= 1
    ensures InitAsWritten(p).exhausting && InitAsWritten(p).epsValues == []
    ensures !ExhaustingHasValues(InitAsWritten(p))
  {
  }

  /** In that state each iteration that does not find all needed states
      time-step converged divides the time step again and stays
      exhausting, until the step falls below the minimum and the run ends
      with an error. */
  lemma ExhaustedListKeepsDividing(p: Parameters, s: System, o: Outcome)
    requires Inv(p, s) && Runnable(p) && |o.measured| == p.N
    requires s.exhausting && s.epsValues == [] && !o.aborted && s.totalSteps < p.maxSteps && o.ortho == Orthonormal
    requires !CheckTimestepConvergence(p, Advance(p, s, o)).allTimestepConverged
    ensures Step(p, s, o).eps == s.eps / p.epsDivisor && Step(p, s, o).exhausting
  {
    var m := Advance(p, s, o);
    CheckedShaped(p, m);
    var c := CheckTimestepConvergence(p, m);
    ConcludeUnconverged(p, c);
  }

  // ---------------------------------------------------------------------
  // From the command line to a run

  /** The command-line parse with the state-count check of
      `set_num_states` applied only yields parameters a run can use. */
  lemma CheckedParseRunnable(o: CommandLine.Options, base: Parameters, seed: nat)
    requires CommandLine.ParseChecked(o, base, seed).Ok?
    ensures Runnable(CommandLine.ParseChecked(o, base, seed).value)
  {
    CommandLine.TimeSteps(o, base, seed);
  }

  /** The parse as written accepts `-N 10 --ignore-lowest 2`, whose
      parameters no run can use; the checked parse refuses it. */
  lemma WrittenParseNotRunnable(it: string, id: string, ic: string, base: Parameters, seed: nat)
    ensures var o := CommandLine.NothingGiven(it, id, ic).(totalStates := CommandLine.Arg(true, 10), ignoreLowest := CommandLine.Arg(true, 2));
      && CommandLine.Parse(o, base, seed).Ok? && !Runnable(CommandLine.Parse(o, base, seed).value)
      && CommandLine.ParseChecked(o, base, seed) == Err(CommandLine.TooFewStates)
  {
    CommandLine.TotalOnlyExample(it, id, ic, base, seed);
  }
}
