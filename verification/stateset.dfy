/** The bookkeeping part of a set of states (`stateset.hpp`,
    `stateset.cpp`): the per-state convergence flags with their counters,
    and the two state buffers the high-memory orthonormalisation switches
    between. The wave functions themselves are not part of this model. */
module StateSets {
  import opened Configuration

  /** Which storage a buffer pointer refers to: the first or the second
      allocated array, or none (a null pointer). */
  datatype Buffer = First | Second | Missing

  /** A vector of flags with the counter kept next to it. */
  datatype Flags = Flags(flags: seq<bool>, count: nat)

  /** The number of raised flags. */
  function CountTrue(s: seq<bool>): (c: nat)
    ensures c <= |s|
  {
    if |s| == 0 then 0 else CountTrue(s[..|s| - 1]) + (if s[|s| - 1] then 1 else 0)
  }

  /** The class invariant: the counter is the number of raised flags. */
  predicate Counted(f: Flags)
  {
    f.count == CountTrue(f.flags)
  }

  /** Raising one flag adds one to the count, lowering one takes one away. */
  lemma {:induction false} CountUpdate(s: seq<bool>, n: nat, v: bool)
    requires n < |s|
    ensures CountTrue(s[n := v]) + (if s[n] then 1 else 0) == CountTrue(s) + (if v then 1 else 0)
  {
    var t := s[n := v];
    var k := |s| - 1;
    assert t[..k] == if n == k then s[..k] else s[..k][n := v];
    if n < k {
      CountUpdate(s[..k], n, v);
    }
  }

  /** No flag raised, no count; every flag raised, full count. */
  lemma {:induction false} CountExtremes(s: seq<bool>)
    ensures (forall k | 0 <= k < |s| :: !s[k]) <==> CountTrue(s) == 0
    ensures (forall k | 0 <= k < |s| :: s[k]) <==> CountTrue(s) == |s|
  {
    if |s| > 0 {
      var p := s[..|s| - 1];
      CountExtremes(p);
      assert forall k | 0 <= k < |p| :: p[k] == s[k];
    }
  }

  /** `set_timestep_converged` and `set_finally_converged`: nothing happens
      when the flag already has the value; otherwise the flag changes and
      the counter moves by one in the same direction. */
  function SetFlag(f: Flags, n: nat, v: bool): (r: Flags)
    requires Counted(f) && n < |f.flags|
    ensures r.flags == f.flags[n := v]
    ensures f.flags[n] == v ==> r == f
    ensures f.flags[n] != v ==> r.count == if v then f.count + 1 else f.count - 1
    ensures Counted(r)
  {
    CountUpdate(f.flags, n, v);
    if f.flags[n] == v then f
    else if v then Flags(f.flags[n := true], f.count + 1)
    else Flags(f.flags[n := false], f.count - 1)
  }

  /** Lowers flags k, k+1, ... in turn, as `change_time_step` does for all
      of them. */
  function ClearFrom(f: Flags, k: nat): (r: Flags)
    requires Counted(f)
    ensures Counted(r) && |r.flags| == |f.flags|
    ensures forall j | 0 <= j < |f.flags| :: r.flags[j] == (j < k && f.flags[j])
    decreases |f.flags| - k
  {
    if k >= |f.flags| then f else ClearFrom(SetFlag(f, k, false), k + 1)
  }

  /** Lowering every flag leaves the counter at zero. */
  lemma {:induction false} ClearedCountsNothing(f: Flags)
    requires Counted(f)
    ensures ClearFrom(f, 0).count == 0
  {
    var r := ClearFrom(f, 0);
    CountExtremes(r.flags);
  }

  /** The bookkeeping of a state set. */
  datatype StateSet = StateSet(
    timestep: Flags,
    final: Flags,
    algorithm: OrthoAlgorithm,
    current: Buffer,
    other: Buffer)
  {
    function N(): nat { |timestep.flags| }
  }

  /** Both counters agree with their flags, and both flag vectors have one
      entry per state. */
  predicate Valid(s: StateSet)
  {
    Counted(s.timestep) && Counted(s.final) && |s.final.flags| == |s.timestep.flags|
  }

  /** The second array exists only for the high-memory algorithm. */
  function SecondBuffer(algorithm: OrthoAlgorithm): Buffer
  {
    if algorithm == HighMem then Second else Missing
  }

  /** The constructor: no state converged, the first array current, the
      second (if any) the other one. */
  function New(n: nat, algorithm: OrthoAlgorithm): (s: StateSet)
    ensures Valid(s) && s.N() == n && s.algorithm == algorithm
    ensures forall k | 0 <= k < n :: !s.timestep.flags[k] && !s.final.flags[k]
    ensures s.timestep.count == 0 && s.final.count == 0
    ensures s.current == First
    ensures s.other == Second <==> algorithm == HighMem
    ensures s.other == Missing <==> algorithm == Default
  {
    var none := seq(n, _ => false);
    CountExtremes(none);
    StateSet(Flags(none, 0), Flags(none, 0), algorithm, First, SecondBuffer(algorithm))
  }

  function SetTimestepConverged(s: StateSet, n: nat, v: bool): (r: StateSet)
    requires Valid(s) && n < s.N()
    ensures Valid(r) && r.timestep == SetFlag(s.timestep, n, v)
    ensures r.(timestep := s.timestep) == s
  {
    s.(timestep := SetFlag(s.timestep, n, v))
  }

  function SetFinallyConverged(s: StateSet, n: nat, v: bool): (r: StateSet)
    requires Valid(s) && n < s.N()
    ensures Valid(r) && r.final == SetFlag(s.final, n, v)
    ensures r.(final := s.final) == s
  {
    s.(final := SetFlag(s.final, n, v))
  }

  /** `switch_state_arrays`: the current buffer becomes the other one, and
      the current one becomes the first array if it was the second, the
      second otherwise. */
  function SwitchStateArrays(s: StateSet): (r: StateSet)
    ensures r.other == s.current
    ensures r.(current := s.current, other := s.other) == s
  {
    var second := SecondBuffer(s.algorithm);
    s.(other := s.current, current := if s.current == second then First else second)
  }

  /** With two arrays in use, switching swaps them, so switching twice
      restores the original pair. */
  lemma SwitchTwiceRestores(s: StateSet)
    requires s.algorithm == HighMem
    requires (s.current == First && s.other == Second) || (s.current == Second && s.other == First)
    ensures SwitchStateArrays(s).current == s.other && SwitchStateArrays(s).other == s.current
    ensures SwitchStateArrays(SwitchStateArrays(s)) == s
  {
  }

  /** The high-memory pairing holds from construction on and is kept by
      every switch. */
  lemma SwitchKeepsPair(n: nat)
    ensures var s := New(n, HighMem);
      SwitchStateArrays(s).current == Second && SwitchStateArrays(s).other == First
  {
  }

  /** With the default algorithm there is no second array: switching would
      leave no current buffer, which is why only the high-memory
      orthonormalisation switches. */
  lemma DefaultSwitchLosesBuffer(n: nat)
    ensures var s := New(n, Default);
      SwitchStateArrays(s).current == Missing && SwitchStateArrays(s).other == First
  {
  }
}
