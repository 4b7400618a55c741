/** The 2D grid layout (`datalayout.cpp`, `datalayout.hpp`): its sizes and
    lengths, the grid-centre positions of the boxes, row-major indexing of
    flattened arrays, and layout equality. */
module Layouts {

  datatype DataLayout = DataLayout(sizex: nat, sizey: nat, dx: real)
  {
    /** The number of grid points. */
    function N(): nat { sizex * sizey }
    function Lenx(): real { sizex as real * dx }
    function Leny(): real { sizey as real * dx }
  }

  // ---------------------------------------------------------------------
  // Positions

  /** The centre of box i among `size` boxes of width dx: (2i + 1 - size) dx / 2. */
  function Position(size: nat, dx: real, i: nat): real
  {
    (2 * i + 1 - size) as real * 0.5 * dx
  }

  /** The `posx` and `posy` arrays. */
  function Positions(size: nat, dx: real): (ps: seq<real>)
    ensures |ps| == size
    ensures forall i | 0 <= i < size :: ps[i] == Position(size, dx, i)
  {
    seq(size, i requires 0 <= i < size => Position(size, dx, i))
  }

  function Posx(l: DataLayout): (ps: seq<real>)
    ensures ps == Positions(l.sizex, l.dx)
  {
    Positions(l.sizex, l.dx)
  }

  function Posy(l: DataLayout): (ps: seq<real>)
    ensures ps == Positions(l.sizey, l.dx)
  {
    Positions(l.sizey, l.dx)
  }

  /** Box i of a grid of length size * dx centred on the origin spans
      [-len/2 + i dx, -len/2 + (i+1) dx]; the position is its midpoint. */
  lemma PositionIsBoxCentre(size: nat, dx: real, i: nat)
    requires i < size
    ensures var len := size as real * dx;
      Position(size, dx, i) == ((-len / 2.0 + i as real * dx) + (-len / 2.0 + (i + 1) as real * dx)) / 2.0
  {
  }

  /** The positions are symmetric about the origin. */
  lemma PositionsSymmetric(size: nat, dx: real, i: nat)
    requires i < size
    ensures Position(size, dx, i) == -Position(size, dx, size - 1 - i)
  {
  }

  /** Consecutive positions are one grid spacing apart. */
  lemma PositionSpacing(size: nat, dx: real, i: nat)
    requires i + 1 < size
    ensures Position(size, dx, i + 1) - Position(size, dx, i) == dx
  {
  }

  /** The layouts of the unit tests: a 16 x 8 grid of spacing 0.5 is 8 by 4
      long; five and three boxes of width 0.5 are centred at -1 .. 1 and
      -0.5 .. 0.5; two boxes at -0.25 and 0.25. */
  lemma TestLayouts()
    ensures DataLayout(16, 8, 0.5).N() == 128
    ensures DataLayout(16, 8, 0.5).Lenx() == 8.0 && DataLayout(16, 8, 0.5).Leny() == 4.0
    ensures Posx(DataLayout(5, 3, 0.5)) == [-1.0, -0.5, 0.0, 0.5, 1.0]
    ensures Posy(DataLayout(5, 3, 0.5)) == [-0.5, 0.0, 0.5]
    ensures Posx(DataLayout(2, 2, 0.5)) == [-0.25, 0.25] == Posy(DataLayout(2, 2, 0.5))
  {
    assert Posx(DataLayout(5, 3, 0.5)) == [-1.0, -0.5, 0.0, 0.5, 1.0];
    assert Posy(DataLayout(5, 3, 0.5)) == [-0.5, 0.0, 0.5];
    assert Posx(DataLayout(2, 2, 0.5)) == [-0.25, 0.25];
  }

  // ---------------------------------------------------------------------
  // Indexing

  /** `value(array, x, y)` reads entry y * sizex + x: rows of constant y
      are stored one after another, x running fastest. */
  function Index(l: DataLayout, x: nat, y: nat): nat
  {
    y * l.sizex + x
  }

  function Value<T>(l: DataLayout, a: seq<T>, x: nat, y: nat): (v: T)
    requires Index(l, x, y) < |a|
    ensures v == a[Index(l, x, y)]
  {
    a[y * l.sizex + x]
  }

  /** Inside the grid the index stays below N, and every index below N is
      reached from exactly one grid point: (k mod sizex, k div sizex). */
  lemma {:induction false} IndexInGrid(l: DataLayout, x: nat, y: nat)
    requires x < l.sizex && y < l.sizey
    ensures Index(l, x, y) < l.N()
    ensures Index(l, x, y) % l.sizex == x && Index(l, x, y) / l.sizex == y
  {
    assert y * l.sizex + x < (y + 1) * l.sizex;
    assert (y + 1) * l.sizex <= l.sizey * l.sizex by {
      MultiplyMonotone(y + 1, l.sizey, l.sizex);
    }
    DivModUnique(y * l.sizex + x, l.sizex, y, x);
  }

  /** The index of a grid point, known to lie below N. */
  function Cell(l: DataLayout, x: nat, y: nat): (k: nat)
    requires x < l.sizex && y < l.sizey
    ensures k == Index(l, x, y) && k < l.N()
  {
    IndexInGrid(l, x, y);
    Index(l, x, y)
  }

  lemma {:induction false} IndexReachesAll(l: DataLayout, k: nat)
    requires k < l.N()
    ensures l.sizex > 0 && k / l.sizex < l.sizey && Index(l, k % l.sizex, k / l.sizex) == k
  {
    var y := k / l.sizex;
    if y >= l.sizey {
      MultiplyMonotone(l.sizey, y, l.sizex);
      assert false;
    }
  }

  /** Entry k lies in column k % sizex and row k / sizex of the grid. */
  lemma CellOf(l: DataLayout, k: nat)
    requires k < l.N()
    ensures l.sizex > 0 && k % l.sizex < l.sizex && k / l.sizex < l.sizey
  {
    IndexReachesAll(l, k);
  }

  /** Distinct grid points have distinct indices. */
  lemma IndexInjective(l: DataLayout, x1: nat, y1: nat, x2: nat, y2: nat)
    requires x1 < l.sizex && y1 < l.sizey && x2 < l.sizex && y2 < l.sizey
    requires (x1, y1) != (x2, y2)
    ensures Index(l, x1, y1) != Index(l, x2, y2)
  {
    IndexInGrid(l, x1, y1);
    IndexInGrid(l, x2, y2);
  }

  /** The 2 x 2 test: entries 0, 1, 2, 3 are read at (0,0), (1,0), (0,1), (1,1). */
  lemma TestIndexing(a: seq<real>)
    requires a == [0.0, 1.0, 2.0, 3.0]
    ensures var l := DataLayout(2, 2, 1.0);
      Value(l, a, 0, 0) == 0.0 && Value(l, a, 1, 0) == 1.0 && Value(l, a, 0, 1) == 2.0 && Value(l, a, 1, 1) == 3.0
  {
  }

  /** The entry before one that does not start a row is its left
      neighbour, one column further left. */
  lemma {:induction false} PreviousColumn(i: nat, sx: nat)
    requires sx > 0 && i % sx != 0
    ensures i >= 1 && (i - 1) % sx == i % sx - 1 && (i - 1) / sx == i / sx
  {
    var q, r := i / sx, i % sx;
    var p := q * sx;
    assert i == p + r;
    DivModUnique(i - 1, sx, q, r - 1);
  }

  lemma MultiplyMonotone(a: nat, b: nat, c: nat)
    requires a <= b
    ensures a * c <= b * c
  {
  }

  lemma {:induction false} DivModUnique(k: nat, d: nat, q: nat, r: nat)
    requires r < d && k == q * d + r
    ensures k / d == q && k % d == r
  {
    var q', r' := k / d, k % d;
    assert k == q' * d + r';
    if q' < q {
      MultiplyMonotone(q' + 1, q, d);
      assert false;
    } else if q < q' {
      MultiplyMonotone(q + 1, q', d);
      assert false;
    }
  }

  // ---------------------------------------------------------------------
  // Equality

  /** `operator==`: the same object, or equal sizes and spacing. */
  predicate Equal(a: DataLayout, b: DataLayout, sameObject: bool)
  {
    sameObject || (a.sizex == b.sizex && a.sizey == b.sizey && a.dx == b.dx)
  }

  /** `operator!=`. */
  predicate NotEqual(a: DataLayout, b: DataLayout, sameObject: bool)
  {
    !Equal(a, b, sameObject)
  }

  /** Two layouts compare equal exactly when they describe the same grid,
      the same object always describing the same grid as itself. */
  lemma EqualIsSameGrid(a: DataLayout, b: DataLayout, sameObject: bool)
    requires sameObject ==> a == b
    ensures Equal(a, b, sameObject) <==> a == b
    ensures NotEqual(a, b, sameObject) <==> a != b
    ensures Equal(a, b, sameObject) == Equal(b, a, sameObject)
  {
  }
}
