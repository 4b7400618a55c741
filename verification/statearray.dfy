/** The array of states on one layout (`statearray.hpp`, `statearray.cpp`):
    one block of complex numbers holding the states one after another, an
    array of state objects pointing into it, and slices that share both
    with the array they were cut from. Memory is modelled by pointers: a
    block identifier and an offset counted in complex numbers. */
module StateArrays {
  import opened Util
  import Layouts

  /** A pointer into the allocation `block`, `offset` complex numbers in. */
  datatype Ptr = Ptr(block: nat, offset: nat)

  function Advance(p: Ptr, k: nat): (q: Ptr)
    ensures q.block == p.block && q.offset == p.offset + k
  {
    Ptr(p.block, p.offset + k)
  }

  /** The fields of a `StateArray`. `states` lists the data pointers of the
      state objects it can index, in order; `memptr` is absent for the
      null pointer an empty slice gets. */
  datatype StateArray = StateArray(
    layout: Layouts.DataLayout, n: nat, isSlice: bool, ownsMemory: bool,
    memptr: Option<Ptr>, states: seq<Ptr>)

  /** State k starts k grid lengths after the array's own pointer, and only
      an empty slice can lack one. Slices never own their memory. */
  ghost predicate Valid(a: StateArray)
  {
    && |a.states| == a.n
    && (a.memptr.None? ==> a.n == 0)
    && (a.memptr.Some? ==> forall k | 0 <= k < a.n :: a.states[k] == Advance(a.memptr.value, k * a.layout.N()))
    && (a.isSlice ==> !a.ownsMemory)
    && (!a.isSlice ==> a.memptr.Some?)
  }

  // ---------------------------------------------------------------------
  // Construction

  /** `allocate_ptrarray`: one state object per index, state i starting
      i grid lengths after `memptr`. */
  method AllocatePtrArray(n: nat, l: Layouts.DataLayout, memptr: Ptr) returns (ptrs: seq<Ptr>)
    ensures |ptrs| == n
    ensures forall i | 0 <= i < n :: ptrs[i] == Advance(memptr, i * l.N())
  {
    ptrs := [];
    var i := 0;
    while i < n
      invariant 0 <= i <= n && |ptrs| == i
      invariant forall j | 0 <= j < i :: ptrs[j] == Advance(memptr, j * l.N())
    {
      ptrs := ptrs + [Advance(memptr, i * l.N())];
      i := i + 1;
    }
  }

  /** `StateArray(N, dl)`: a fresh block of N grid lengths (the allocation,
      an effect, is the parameter `block`), which the array owns. */
  method Allocate(n: nat, l: Layouts.DataLayout, block: nat) returns (a: StateArray)
    ensures Valid(a) && a.n == n && a.layout == l
    ensures !a.isSlice && a.ownsMemory && a.memptr == Some(Ptr(block, 0))
  {
    var ptrs := AllocatePtrArray(n, l, Ptr(block, 0));
    a := StateArray(l, n, false, true, Some(Ptr(block, 0)), ptrs);
  }

  /** `StateArray(N, dl, ptr)`: the states live in storage the caller
      provides and keeps. */
  method Borrow(n: nat, l: Layouts.DataLayout, ptr: Ptr) returns (a: StateArray)
    ensures Valid(a) && a.n == n && a.layout == l
    ensures !a.isSlice && !a.ownsMemory && a.memptr == Some(ptr)
  {
    var ptrs := AllocatePtrArray(n, l, ptr);
    a := StateArray(l, n, false, false, Some(ptr), ptrs);
  }

  /** `StateArray(arr, start, len)`: len states of `arr` from index start,
      sharing its storage and its state objects; an empty slice gets the
      null pointer. */
  function SliceOf(a: StateArray, start: nat, len: nat): (s: StateArray)
    requires Valid(a) && start + len <= a.n
    ensures Valid(s) && s.n == len && s.layout == a.layout
    ensures s.isSlice && !s.ownsMemory
    ensures forall k | 0 <= k < len :: s.states[k] == a.states[start + k]
    ensures len == 0 <==> s.memptr.None?
  {
    var memptr := if len == 0 then None else Some(Advance(a.memptr.value, start * a.layout.N()));
    var s := StateArray(a.layout, len, true, false, memptr, a.states[start..start + len]);
    SliceValid(a, start, len, s);
    s
  }

  lemma SliceValid(a: StateArray, start: nat, len: nat, s: StateArray)
    requires Valid(a) && start + len <= a.n
    requires s == StateArray(a.layout, len, true, false,
      if len == 0 then None else Some(Advance(a.memptr.value, start * a.layout.N())), a.states[start..start + len])
    ensures Valid(s)
  {
    if len > 0 {
      var m := a.layout.N();
      forall k | 0 <= k < len
        ensures s.states[k] == Advance(s.memptr.value, k * m)
      {
        assert (start + k) * m == start * m + k * m;
      }
    }
  }

  /** `StateArray(arr, start)`: every state of `arr` from index start. */
  function Slice(a: StateArray, start: nat): (s: StateArray)
    requires Valid(a) && start <= a.n
    ensures Valid(s) && s.n == a.n - start
    ensures forall k | 0 <= k < s.n :: s.states[k] == a.states[start + k]
  {
    SliceOf(a, start, a.n - start)
  }

  /** `operator[]`: the data pointer of state k, which must exist. */
  function At(a: StateArray, k: nat): (p: Ptr)
    requires Valid(a) && k < a.n
    ensures a.memptr.Some? && p == Advance(a.memptr.value, k * a.layout.N())
  {
    a.states[k]
  }

  /** What the destructor releases: the state objects and the pointer
      array unless the array is a slice, and the storage block only if
      the array allocated it. */
  datatype Released = Released(stateObjects: nat, ptrArray: bool, storage: Option<Ptr>)

  function Destroy(a: StateArray): (r: Released)
    requires Valid(a)
    ensures r.ptrArray <==> !a.isSlice
    ensures r.stateObjects == if a.isSlice then 0 else a.n
    ensures r.storage.Some? <==> !a.isSlice && a.ownsMemory
    ensures r.storage.Some? ==> r.storage == a.memptr
  {
    if a.isSlice then Released(0, false, None)
    else Released(a.n, true, if a.ownsMemory then a.memptr else None)
  }

  // ---------------------------------------------------------------------
  // Properties

  /** Within a non-empty grid the states of an array occupy disjoint
      stretches of storage: entry (x, y) of state k sits k grid lengths
      plus its row-major index after the array's pointer, and two
      different (state, point) pairs never share an entry. */
  lemma {:induction false} StatesDisjoint(a: StateArray, k1: nat, x1: nat, y1: nat, k2: nat, x2: nat, y2: nat)
    requires Valid(a) && k1 < a.n && k2 < a.n
    requires x1 < a.layout.sizex && y1 < a.layout.sizey && x2 < a.layout.sizex && y2 < a.layout.sizey
    requires (k1, x1, y1) != (k2, x2, y2)
    ensures Entry(a, k1, x1, y1) != Entry(a, k2, x2, y2)
  {
    var m := a.layout.N();
    var i1, i2 := Layouts.Cell(a.layout, x1, y1), Layouts.Cell(a.layout, x2, y2);
    if k1 == k2 {
      Layouts.IndexInjective(a.layout, x1, y1, x2, y2);
    }
    var p1, p2 := k1 * m, k2 * m;
    OffsetsDistinct(k1, i1, k2, i2, m, p1, p2);
    assert Entry(a, k1, x1, y1).offset == a.memptr.value.offset + p1 + i1;
    assert Entry(a, k2, x2, y2).offset == a.memptr.value.offset + p2 + i2;
  }

  /** Offsets k m + i with i < m determine k and i. The products are passed
      in as p1 and p2. */
  lemma OffsetsDistinct(k1: nat, i1: nat, k2: nat, i2: nat, m: nat, p1: nat, p2: nat)
    requires p1 == k1 * m && p2 == k2 * m && i1 < m && i2 < m
    requires k1 != k2 || i1 != i2
    ensures p1 + i1 != p2 + i2
  {
    if k1 < k2 {
      Layouts.MultiplyMonotone(k1 + 1, k2, m);
      assert (k1 + 1) * m == p1 + m;
    } else if k2 < k1 {
      Layouts.MultiplyMonotone(k2 + 1, k1, m);
      assert (k2 + 1) * m == p2 + m;
    }
  }

  /** Where entry (x, y) of state k lives. */
  function Entry(a: StateArray, k: nat, x: nat, y: nat): (p: Ptr)
    requires Valid(a) && k < a.n && x < a.layout.sizex && y < a.layout.sizey
    ensures a.memptr.Some? && p == Advance(a.memptr.value, k * a.layout.N() + Layouts.Index(a.layout, x, y))
  {
    Advance(At(a, k), Layouts.Cell(a.layout, x, y))
  }

  /** A slice of a slice is the slice from the summed start: same states,
      same storage. */
  lemma {:induction false} SliceOfSlice(a: StateArray, s1: nat, s2: nat)
    requires Valid(a) && s1 <= a.n && s2 <= a.n - s1
    ensures Slice(Slice(a, s1), s2).states == Slice(a, s1 + s2).states
    ensures Slice(Slice(a, s1), s2) == Slice(a, s1 + s2)
  {
    var b := Slice(a, s1);
    var l, r := Slice(b, s2), Slice(a, s1 + s2);
    assert l.states == r.states;
    if l.n > 0 {
      var m := a.layout.N();
      assert (s1 + s2) * m == s1 * m + s2 * m;
    }
  }

  /** Slicing keeps the number of states: the slice from start and the
      states before it add up to the array. */
  lemma SliceCountsAddUp(a: StateArray, start: nat)
    requires Valid(a) && start <= a.n
    ensures SliceOf(a, 0, start).n + Slice(a, start).n == a.n
    ensures SliceOf(a, 0, start).states + Slice(a, start).states == a.states
  {
    assert a.states[..start] + a.states[start..] == a.states;
  }

  /** Storage is released once: of an array and any slice cut from it, at
      most the array frees the block, and only the array deletes the
      state objects. */
  lemma ReleasedOnce(a: StateArray, start: nat, len: nat)
    requires Valid(a) && start + len <= a.n
    ensures Destroy(SliceOf(a, start, len)) == Released(0, false, None)
    ensures !a.isSlice ==> Destroy(a).stateObjects == a.n && Destroy(a).ptrArray
    ensures Destroy(a).storage.Some? <==> !a.isSlice && a.ownsMemory
  {
  }

  /** The tests on a 2 x 2 grid: three states borrowed from storage p hold
      entries 4k .. 4k + 3, row by row; the slices from 0 to 3 have 3 to 0
      states, aliasing the array's, and the one-state slice from 1 holds
      the array's second state. */
  method TestStateArrays(p: Ptr) returns (b: StateArray)
    ensures Valid(b) && b.layout == Layouts.DataLayout(2, 2, 1.0)
    ensures b.n == 3 && b.memptr == Some(p) && !b.ownsMemory && Destroy(b).storage.None?
    ensures Entry(b, 0, 1, 0) == Advance(p, 1) && Entry(b, 0, 0, 1) == Advance(p, 2)
    ensures Entry(b, 1, 0, 0) == Advance(p, 4) && Entry(b, 2, 1, 1) == Advance(p, 11)
    ensures forall s | 0 <= s <= 3 :: Slice(b, s).n == 3 - s
    ensures Slice(b, 1).states[0] == At(b, 1) && Slice(b, 2).states[0] == At(b, 2)
    ensures SliceOf(b, 1, 1).n == 1 && SliceOf(b, 1, 1).states[0] == At(b, 1)
    ensures At(b, 0) != At(b, 1)
  {
    var l := Layouts.DataLayout(2, 2, 1.0);
    b := Borrow(3, l, p);
  }
}
