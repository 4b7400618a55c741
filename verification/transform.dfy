/** The Fourier-transform front end (`transformer.hpp`, `transformer.cpp`):
    the eighteen transform kinds and their inverse pairing, the frequency
    tables and normalisation factors the `Transformer` constructor
    computes, equality, and which kind of plan a transform runs. The plans
    themselves (FFTW) are not part of this model. */
module Transforms {
  import opened Util
  import opened Configuration
  import Layouts

  /** The transform kinds, in the order of the enumeration. */
  datatype Transform =
    | FFT | iFFT | FFTx | iFFTx | FFTy | iFFTy
    | DST | iDST | DSTx | iDSTx | DSTy | iDSTy
    | DCT | iDCT | DCTx | iDCTx | DCTy | iDCTy

  /** `num_transform_types`. */
  const NumTransformTypes: nat := 18

  const AllTransforms: seq<Transform> :=
    [FFT, iFFT, FFTx, iFFTx, FFTy, iFFTy, DST, iDST, DSTx, iDSTx, DSTy, iDSTy,
     DCT, iDCT, DCTx, iDCTx, DCTy, iDCTy]

  /** The enumeration value of each kind, which indexes the plan table. */
  function Ordinal(t: Transform): (k: nat)
    ensures k < NumTransformTypes && AllTransforms[k] == t
  {
    match t
    case FFT => 0 case iFFT => 1 case FFTx => 2 case iFFTx => 3 case FFTy => 4 case iFFTy => 5
    case DST => 6 case iDST => 7 case DSTx => 8 case iDSTx => 9 case DSTy => 10 case iDSTy => 11
    case DCT => 12 case iDCT => 13 case DCTx => 14 case iDCTx => 15 case DCTy => 16 case iDCTy => 17
  }

  /** There are exactly `num_transform_types` kinds, each with its own slot
      in the plan table. */
  lemma EighteenKinds()
    ensures |AllTransforms| == NumTransformTypes
    ensures forall i, j | 0 <= i < j < |AllTransforms| :: AllTransforms[i] != AllTransforms[j]
    ensures forall t: Transform :: t in AllTransforms
    ensures forall t, u: Transform :: Ordinal(t) == Ordinal(u) ==> t == u
  {
    forall t: Transform ensures t in AllTransforms {
      assert AllTransforms[Ordinal(t)] == t;
    }
  }

  // ---------------------------------------------------------------------
  // Classification

  /** Complex Fourier transform, sine transform or cosine transform. */
  datatype Family = Fourier | Sine | Cosine

  /** Transformed along both axes, only x or only y. */
  datatype Axis = Both | AlongX | AlongY

  function FamilyOf(t: Transform): Family
  {
    match t
    case FFT | iFFT | FFTx | iFFTx | FFTy | iFFTy => Fourier
    case DST | iDST | DSTx | iDSTx | DSTy | iDSTy => Sine
    case DCT | iDCT | DCTx | iDCTx | DCTy | iDCTy => Cosine
  }

  function AxisOf(t: Transform): Axis
  {
    match t
    case FFT | iFFT | DST | iDST | DCT | iDCT => Both
    case FFTx | iFFTx | DSTx | iDSTx | DCTx | iDCTx => AlongX
    case FFTy | iFFTy | DSTy | iDSTy | DCTy | iDCTy => AlongY
  }

  /** The backward kinds, written with a leading `i`. */
  predicate IsBackward(t: Transform)
  {
    t in {iFFT, iFFTx, iFFTy, iDST, iDSTx, iDSTy, iDCT, iDCTx, iDCTy}
  }

  /** A kind is fixed by its family, its axis and its direction. */
  lemma ClassificationDetermines(t: Transform, u: Transform)
    requires FamilyOf(t) == FamilyOf(u) && AxisOf(t) == AxisOf(u) && IsBackward(t) == IsBackward(u)
    ensures t == u
  {
  }

  /** `inverse_transform_of`: every forward kind maps to its `i` version and
      back. The default branch, which throws, is unreachable because the
      match covers every kind. */
  function InverseTransformOf(t: Transform): (r: Transform)
    ensures FamilyOf(r) == FamilyOf(t) && AxisOf(r) == AxisOf(t)
    ensures IsBackward(r) <==> !IsBackward(t)
  {
    match t
    case FFT => iFFT case iFFT => FFT
    case FFTx => iFFTx case iFFTx => FFTx
    case FFTy => iFFTy case iFFTy => FFTy
    case DST => iDST case iDST => DST
    case DSTx => iDSTx case iDSTx => DSTx
    case DSTy => iDSTy case iDSTy => DSTy
    case DCT => iDCT case iDCT => DCT
    case DCTx => iDCTx case iDCTx => DCTx
    case DCTy => iDCTy case iDCTy => DCTy
  }

  /** Inverting twice gives the kind back, and no kind is its own inverse. */
  lemma {:induction false} InverseInvolution(t: Transform)
    ensures InverseTransformOf(InverseTransformOf(t)) == t
    ensures InverseTransformOf(t) != t
  {
    var r := InverseTransformOf(t);
    ClassificationDetermines(InverseTransformOf(r), t);
  }

  /** So the inverse pairing splits the eighteen kinds into nine pairs,
      one forward and one backward kind in each. */
  lemma InversePairsForwardWithBackward(t: Transform, u: Transform)
    ensures InverseTransformOf(t) == u <==> InverseTransformOf(u) == t
    ensures InverseTransformOf(t) == u ==> IsBackward(t) != IsBackward(u)
  {
    InverseInvolution(t);
    InverseInvolution(u);
  }

  // ---------------------------------------------------------------------
  // Frequency tables

  /** The signed frequency index of entry x of an FFT table, as written:
      entries before size / 2 count up from zero, the rest are shifted down
      by the size. */
  function FftIndexAsWritten(x: nat, size: nat): int
  {
    if x < size / 2 then x else x - size
  }

  /** The signed index of least magnitude among those congruent to x: the
      first half (including the middle entry of an odd size) counts up. */
  function FftIndex(x: nat, size: nat): (k: int)
    requires x < size
    ensures -(size as int) <= 2 * k <= size
  {
    if 2 * x < size then x else x - size
  }

  /** The signed index is congruent to the table position. */
  lemma FftIndexCongruent(x: nat, size: nat)
    requires x < size
    ensures FftIndex(x, size) % size == x
  {
  }

  /** No other index congruent to x has a smaller magnitude. */
  lemma {:induction false} FftIndexLeastMagnitude(x: nat, size: nat, j: int)
    requires x < size && j % size == x
    ensures var k := FftIndex(x, size); (if k < 0 then -k else k) <= (if j < 0 then -j else j)
  {
    var k := FftIndex(x, size);
    FftIndexCongruent(x, size);
    var q := j / size;
    assert j == q * size + x;
    if q >= 1 {
      assert q * size >= size by { Layouts.MultiplyMonotone(1, q, size); }
    } else if q <= -2 {
      assert (-q) * size >= 2 * size by { Layouts.MultiplyMonotone(2, -q, size); }
    }
  }

  /** For even sizes the table as written and the corrected one agree. */
  lemma FftIndexEvenAgrees(x: nat, size: nat)
    requires x < size && size % 2 == 0
    ensures FftIndexAsWritten(x, size) == FftIndex(x, size)
  {
  }

  /** For odd sizes the entry in the middle is shifted down by the size: a
      three-point grid gets frequency indices 0, -2, -1 instead of 0, 1, -1,
      and a one-point grid gets -1 for its constant mode. The index -2 is
      congruent to 1 but has twice its magnitude, so the kinetic energy of
      that mode is four times too large. */
  lemma FftIndexOddAsWritten()
    ensures FftIndexAsWritten(1, 3) == -2 && FftIndex(1, 3) == 1
    ensures FftIndexAsWritten(0, 1) == -1 && FftIndex(0, 1) == 0
    ensures forall size: nat | size % 2 == 1 ::
      FftIndexAsWritten(size / 2, size) != FftIndex(size / 2, size)
  {
  }

  /** The FFT table along one axis: (2 pi / len) times the signed index. */
  function FftTable(size: nat, len: real): (ks: seq<real>)
    requires len != 0.0
    ensures |ks| == size
    ensures forall x | 0 <= x < size :: ks[x] == (2 * FftIndex(x, size)) as real * (Pi / len)
  {
    seq(size, x requires 0 <= x < size => (2 * FftIndex(x, size)) as real * (Pi / len))
  }

  /** The table the constructor fills in as written. */
  function FftTableAsWritten(size: nat, len: real): (ks: seq<real>)
    requires len != 0.0
    ensures |ks| == size
    ensures forall x | 0 <= x < size :: ks[x] == (2 * FftIndexAsWritten(x, size)) as real * (Pi / len)
  {
    seq(size, x requires 0 <= x < size => (2 * FftIndexAsWritten(x, size)) as real * (Pi / len))
  }

  /** Both tables are the same on even grids. */
  lemma {:induction false} FftTablesEvenAgree(size: nat, len: real)
    requires len != 0.0 && size % 2 == 0
    ensures FftTableAsWritten(size, len) == FftTable(size, len)
  {
    forall x | 0 <= x < size ensures FftTableAsWritten(size, len)[x] == FftTable(size, len)[x] {
      FftIndexEvenAgrees(x, size);
    }
  }

  /** The even axes of a grid get the signed table. */
  lemma EvenTablesAgree(l: Layouts.DataLayout)
    requires l.dx != 0.0 && l.sizex > 0 && l.sizey > 0
    ensures l.Lenx() != 0.0 && l.Leny() != 0.0
    ensures l.sizex % 2 == 0 ==> FftTableAsWritten(l.sizex, l.Lenx()) == FftTable(l.sizex, l.Lenx())
    ensures l.sizey % 2 == 0 ==> FftTableAsWritten(l.sizey, l.Leny()) == FftTable(l.sizey, l.Leny())
  {
    if l.sizex % 2 == 0 {
      FftTablesEvenAgree(l.sizex, l.Lenx());
    }
    if l.sizey % 2 == 0 {
      FftTablesEvenAgree(l.sizey, l.Leny());
    }
  }

  /** On a three-point grid the middle entry as written is -2 times the
      base frequency 2 pi / len instead of once. */
  lemma FftTableThreePoints(len: real)
    requires len != 0.0
    ensures FftTableAsWritten(3, len)[1] == -4.0 * (Pi / len)
    ensures FftTable(3, len)[1] == 2.0 * (Pi / len)
    ensures FftTableAsWritten(3, len)[1] != FftTable(3, len)[1]
  {
    assert FftIndexAsWritten(1, 3) == -2 && FftIndex(1, 3) == 1;
  }

  /** The sine and cosine table: (pi / len) times x + 1. */
  function DsctTable(size: nat, len: real): (ks: seq<real>)
    requires len != 0.0
    ensures |ks| == size
    ensures forall x | 0 <= x < size :: ks[x] == (x + 1) as real * (Pi / len)
  {
    seq(size, x requires 0 <= x < size => (x + 1) as real * (Pi / len))
  }

  /** On a grid of positive length the sine and cosine frequencies start at
      pi / len and rise in steps of pi / len, all positive. */
  lemma DsctTableRises(size: nat, len: real, x: nat)
    requires len > 0.0 && x < size
    ensures DsctTable(size, len)[x] > 0.0
    ensures x == 0 ==> DsctTable(size, len)[x] == Pi / len
    ensures x + 1 < size ==> DsctTable(size, len)[x + 1] - DsctTable(size, len)[x] == Pi / len
  {
    ProductPositive((x + 1) as real, Pi / len);
  }

  // ---------------------------------------------------------------------
  // The transformer

  /** The six normalisation factors. */
  datatype Norms = Norms(fft: Extended, fftx: Extended, ffty: Extended,
                         dsct: Extended, dsctx: Extended, dscty: Extended)

  /** What the constructor computes: the normalisation factors and four
      frequency tables, for one layout. */
  datatype Transformer = Transformer(
    layout: Layouts.DataLayout, norms: Norms,
    fftKx: seq<real>, fftKy: seq<real>, dsctKx: seq<real>, dsctKy: seq<real>)

  /** The number of points of the transform's logical grid: the grid
      itself for the Fourier family, twice its extent along each
      transformed axis for the sine and cosine families, whose inputs are
      implicitly mirrored. */
  function LogicalSize(l: Layouts.DataLayout, t: Transform): nat
  {
    var ex := if FamilyOf(t) == Fourier then l.sizex else 2 * l.sizex;
    var ey := if FamilyOf(t) == Fourier then l.sizey else 2 * l.sizey;
    match AxisOf(t)
    case Both => ex * ey
    case AlongX => ex
    case AlongY => ey
  }

  /** The factors as the constructor computes them. A zero size makes a
      factor an infinite double. */
  function NormsOf(l: Layouts.DataLayout): Norms
  {
    Norms(
      Inverse(l.sizex * l.sizey), Inverse(l.sizex), Inverse(l.sizey),
      Inverse(4 * l.sizex * l.sizey), Inverse(2 * l.sizex), Inverse(2 * l.sizey))
  }

  /** `1.0 / n` in double arithmetic, for a size `n`. */
  function Inverse(n: nat): Extended
  {
    Quotient(1.0, n as real)
  }

  /** The `Transformer` constructor. */
  function New(l: Layouts.DataLayout): (tr: Transformer)
    requires l.dx != 0.0 && l.sizex > 0 && l.sizey > 0
    ensures tr.layout == l && tr.norms == NormsOf(l)
    ensures tr.fftKx == FftTableAsWritten(l.sizex, l.Lenx()) && tr.fftKy == FftTableAsWritten(l.sizey, l.Leny())
    ensures l.sizex % 2 == 0 ==> tr.fftKx == FftTable(l.sizex, l.Lenx())
    ensures l.sizey % 2 == 0 ==> tr.fftKy == FftTable(l.sizey, l.Leny())
    ensures tr.dsctKx == DsctTable(l.sizex, l.Lenx()) && tr.dsctKy == DsctTable(l.sizey, l.Leny())
  {
    assert l.Lenx() != 0.0 && l.Leny() != 0.0;
    EvenTablesAgree(l);
    Transformer(l, NormsOf(l),
      FftTableAsWritten(l.sizex, l.Lenx()), FftTableAsWritten(l.sizey, l.Leny()),
      DsctTable(l.sizex, l.Lenx()), DsctTable(l.sizey, l.Leny()))
  }

  /** `normalization_factor(trans)`: forward and backward kinds share a
      factor, and the sine and cosine kinds share theirs. */
  function NormalizationFactor(tr: Transformer, t: Transform): Extended
  {
    Factor(tr.norms, t)
  }

  function Factor(norms: Norms, t: Transform): Extended
  {
    match t
    case FFT | iFFT => norms.fft
    case FFTx | iFFTx => norms.fftx
    case FFTy | iFFTy => norms.ffty
    case DST | iDST => norms.dsct
    case DSTx | iDSTx => norms.dsctx
    case DSTy | iDSTy => norms.dscty
    case DCT | iDCT => norms.dsct
    case DCTx | iDCTx => norms.dsctx
    case DCTy | iDCTy => norms.dscty
  }

  /** Every factor is one over the transform's logical size, so a forward
      transform, its inverse and the factor together give back the input. */
  lemma {:induction false} NormalizationIsInverseSize(l: Layouts.DataLayout, t: Transform)
    requires l.sizex > 0 && l.sizey > 0
    ensures LogicalSize(l, t) > 0
    ensures Factor(NormsOf(l), t) == Fin(1.0 / LogicalSize(l, t) as real)
    ensures Factor(NormsOf(l), t).v * LogicalSize(l, t) as real == 1.0
  {
    FactorOverLogicalSize(l, t);
    LogicalSizePositive(l, t);
    Reciprocal(LogicalSize(l, t));
  }

  lemma LogicalSizePositive(l: Layouts.DataLayout, t: Transform)
    requires l.sizex > 0 && l.sizey > 0
    ensures LogicalSize(l, t) > 0
  {
    Util.ProductPositive(l.sizex as real, l.sizey as real);
    Util.ProductPositive((2 * l.sizex) as real, (2 * l.sizey) as real);
  }

  lemma {:induction false} FactorOverLogicalSize(l: Layouts.DataLayout, t: Transform)
    ensures Factor(NormsOf(l), t) == Inverse(LogicalSize(l, t))
  {
    assert 4 * l.sizex * l.sizey == (2 * l.sizex) * (2 * l.sizey);
  }

  lemma Reciprocal(n: nat)
    requires n > 0
    ensures Inverse(n) == Fin(1.0 / n as real)
    ensures Inverse(n).v * n as real == 1.0
  {
  }

  /** The factor is shared by a kind and its inverse, and by the sine and
      cosine kinds along the same axes. */
  lemma NormalizationShared(tr: Transformer, t: Transform, u: Transform)
    ensures NormalizationFactor(tr, InverseTransformOf(t)) == NormalizationFactor(tr, t)
    ensures FamilyOf(t) != Fourier && FamilyOf(u) != Fourier && AxisOf(t) == AxisOf(u) ==>
      NormalizationFactor(tr, t) == NormalizationFactor(tr, u)
  {
  }

  /** `normalization_factor(bt)` and its x and y variants: the Fourier
      factors under periodic boundaries, the sine and cosine factors
      otherwise, so each equals the factor of the transform that
      boundary type calls for. */
  function BoundaryFactor(tr: Transformer, bt: BoundaryType, axis: Axis): (f: Extended)
    ensures bt == Periodic ==> f == NormalizationFactor(tr, match axis case Both => FFT case AlongX => FFTx case AlongY => FFTy)
    ensures bt == Dirichlet ==> f == NormalizationFactor(tr, match axis case Both => DST case AlongX => DSTx case AlongY => DSTy)
    ensures bt == Dirichlet ==> f == NormalizationFactor(tr, match axis case Both => DCT case AlongX => DCTx case AlongY => DCTy)
  {
    match axis
    case Both => if bt == Periodic then tr.norms.fft else tr.norms.dsct
    case AlongX => if bt == Periodic then tr.norms.fftx else tr.norms.dsctx
    case AlongY => if bt == Periodic then tr.norms.ffty else tr.norms.dscty
  }

  /** `kx(x, bt)`: the Fourier frequencies under periodic boundaries, the
      sine and cosine ones otherwise. */
  function Kx(tr: Transformer, x: nat, bt: BoundaryType): real
    requires x < |tr.fftKx| && x < |tr.dsctKx|
  {
    if bt == Periodic then tr.fftKx[x] else tr.dsctKx[x]
  }

  function Ky(tr: Transformer, y: nat, bt: BoundaryType): real
    requires y < |tr.fftKy| && y < |tr.dsctKy|
  {
    if bt == Periodic then tr.fftKy[y] else tr.dsctKy[y]
  }

  /** Under Dirichlet boundaries the frequencies along either axis are
      the positive multiples of pi / len, in order. */
  lemma {:induction false} DirichletFrequencies(l: Layouts.DataLayout, x: nat, y: nat)
    requires l.dx > 0.0 && x < l.sizex && y < l.sizey
    ensures var tr := New(l);
      && Kx(tr, x, Dirichlet) == (x + 1) as real * (Pi / l.Lenx()) > 0.0
      && Ky(tr, y, Dirichlet) == (y + 1) as real * (Pi / l.Leny()) > 0.0
  {
    var tr := New(l);
    assert l.Lenx() > 0.0 by { ProductPositive(l.sizex as real, l.dx); }
    assert l.Leny() > 0.0 by { ProductPositive(l.sizey as real, l.dx); }
    DsctTableRises(l.sizex, l.Lenx(), x);
    DsctTableRises(l.sizey, l.Leny(), y);
  }

  /** Every entry of the FFT table of a grid of spacing dx, and so every
      frequency `kx` and `ky` give under periodic boundaries, lies within
      the Nyquist frequency pi / dx. */
  lemma {:induction false} FftTableNyquist(size: nat, dx: real, len: real, x: nat)
    requires dx > 0.0 && x < size && len == size as real * dx
    ensures len != 0.0
    ensures -(Pi / dx) <= FftTable(size, len)[x] <= Pi / dx
  {
    var n := size as real;
    assert n * dx > 0.0 by { ProductPositive(n, dx); }
    NyquistBound(FftIndex(x, size), size, dx);
  }

  /** On even grids the constructor's periodic frequencies lie within the
      Nyquist frequency pi / dx. */
  lemma {:induction false} PeriodicFrequencies(l: Layouts.DataLayout, x: nat, y: nat)
    requires l.dx > 0.0 && x < l.sizex && y < l.sizey && l.sizex % 2 == 0 && l.sizey % 2 == 0
    ensures -(Pi / l.dx) <= Kx(New(l), x, Periodic) <= Pi / l.dx
    ensures -(Pi / l.dx) <= Ky(New(l), y, Periodic) <= Pi / l.dx
  {
    FftTableNyquist(l.sizex, l.dx, l.Lenx(), x);
    FftTableNyquist(l.sizey, l.dx, l.Leny(), y);
    var tr := New(l);
    assert Kx(tr, x, Periodic) == FftTable(l.sizex, l.Lenx())[x];
    assert Ky(tr, y, Periodic) == FftTable(l.sizey, l.Leny())[y];
  }

  /** On an odd grid the constructor as written gives the middle column
      the frequency -(size + 1) / size times pi / dx, beyond the Nyquist
      frequency, where the signed table has (size - 1) / size times pi / dx. */
  lemma {:induction false} OddGridBeyondNyquist(l: Layouts.DataLayout)
    requires l.dx > 0.0 && l.sizex % 2 == 1 && l.sizey > 0
    ensures Kx(New(l), l.sizex / 2, Periodic) < -(Pi / l.dx)
    ensures -(Pi / l.dx) <= FftTable(l.sizex, l.Lenx())[l.sizex / 2] <= Pi / l.dx
  {
    var n := l.sizex;
    FftTableNyquist(n, l.dx, l.Lenx(), n / 2);
    OddMiddleIndex(n);
    var k := Kx(New(l), n / 2, Periodic);
    assert k == FftTableAsWritten(n, l.Lenx())[n / 2];
    BeyondNyquist(n, l.dx, l.Lenx(), k);
  }

  /** As written, the middle entry of an odd table gets the index
      -(size + 1) / 2. */
  lemma OddMiddleIndex(n: nat)
    requires n % 2 == 1
    ensures 2 * FftIndexAsWritten(n / 2, n) == -(n + 1)
  {
  }

  /** -(n + 1) times pi / (n dx) lies below -pi / dx. */
  lemma BeyondNyquist(n: nat, dx: real, len: real, v: real)
    requires n > 0 && dx > 0.0 && len == n as real * dx && v == (-(n + 1)) as real * (Pi / len)
    ensures v < -(Pi / dx)
  {
    var q := Pi / dx;
    assert q > 0.0;
    assert Pi / len == q / n as real;
    assert v == -q - q / n as real;
  }

  lemma NyquistBound(i: int, size: nat, dx: real)
    requires size > 0 && dx > 0.0 && -(size as int) <= 2 * i <= size
    ensures -(Pi / dx) <= (2 * i) as real * (Pi / (size as real * dx)) <= Pi / dx
  {
    var n := size as real;
    var q := Pi / dx;
    assert q > 0.0;
    assert Pi / (n * dx) == q / n;
    ScaledBound((2 * i) as real, n, q);
  }

  /** A multiple of `q / n` by at most `n` in size is at most `q` in size. */
  lemma ScaledBound(x: real, n: real, q: real)
    requires n > 0.0 && q > 0.0 && -n <= x <= n
    ensures -q <= x * (q / n) <= q
  {
    var r := x / n;
    assert x * (q / n) == r * q;
    assert -1.0 <= r <= 1.0;
    ProductNonNegative(1.0 - r, q);
    ProductNonNegative(1.0 + r, q);
    assert (1.0 - r) * q == q - r * q;
    assert (1.0 + r) * q == q + r * q;
  }

  /** `operator==`: the same object, or equal layouts (which compare equal
      when they are one object or describe the same grid). */
  predicate Equal(a: Transformer, b: Transformer, sameObject: bool, sameLayoutObject: bool)
  {
    sameObject || Layouts.Equal(a.layout, b.layout, sameLayoutObject)
  }

  /** Two transformers built by the constructor compare equal exactly when
      they were built for the same grid. */
  lemma EqualIsSameGrid(a: Layouts.DataLayout, b: Layouts.DataLayout, sameObject: bool, sameLayoutObject: bool)
    requires a.dx != 0.0 && a.sizex > 0 && a.sizey > 0
    requires b.dx != 0.0 && b.sizex > 0 && b.sizey > 0
    requires sameObject ==> a == b
    requires sameLayoutObject ==> a == b
    ensures Equal(New(a), New(b), sameObject, sameLayoutObject) <==> New(a) == New(b)
    ensures Equal(New(a), New(b), sameObject, sameLayoutObject) <==> a == b
  {
    Layouts.EqualIsSameGrid(a, b, sameLayoutObject);
    if New(a) == New(b) {
      assert a == New(a).layout;
    }
  }

  /** The plan a transform executes: a complex DFT, or a real-to-real
      transform on the reinterpreted data. */
  datatype PlanKind = ComplexDft | RealToReal

  /** `transform(data, trans)`. */
  function PlanOf(t: Transform): (k: PlanKind)
    ensures k == ComplexDft <==> FamilyOf(t) == Fourier
  {
    match t
    case FFT | iFFT | FFTx | iFFTx | FFTy | iFFTy => ComplexDft
    case _ => RealToReal
  }
}
