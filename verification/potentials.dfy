/** Potential types (`potentialtypes.cpp`): the description parser, the
    name dispatch with its aliases, each potential's parameter-list
    constructor and the validation in its `init`. The potential functions
    themselves are left out; a potential is the record of its parameters. */
module Potentials {
  import opened Util
  import Parser

  datatype Kind =
    | ZeroKind | HarmonicKind | EllipticKind | PrettyHardSquareKind | SoftPentagonKind
    | HenonHeilesKind | GaussianKind | QuarticKind | SquareOscillatorKind | PowerKind
    | RingKind | CoshKind | SoftStadiumKind

  /** A potential with its parameters. A soft stadium keeps half of its
      centre length, as `SoftStadium::halfL` does. */
  datatype Potential =
    | Zero
    | Harmonic(w: real, x0: real, y0: real)
    | Elliptic(wx: real, wy: real)
    | PrettyHardSquare(exponent: real)
    | SoftPentagon
    | HenonHeiles(a: real, b: real)
    | Gaussian(amplitude: real, width: real, x0: real, y0: real)
    | Quartic(b: real)
    | SquareOscillator(alpha: real)
    | Power(a: real, w: real)
    | RingPotential(r: real, w: real, e: real, asymmA: real, asymmW: real)
    | Cosh(A: real, L: real)
    | SoftStadium(R: real, halfL: real, V: real, a: real, b: real)

  /** Why `init` or a parameter-list constructor refused its input. */
  datatype Reason =
    | UnreadableDescription(text: string)
    | ParameterCount(kind: Kind)
    | NegativeFrequency
    | NegativeAmplitude
    | ZeroWidth
    | NegativeParameter
    | NegativeRadius
    | NonPositiveWidth
    | NonPositiveAmplitude
    | NonPositiveLengthScale
    | NonPositiveRadius
    | NonPositiveCenterLength
    | NonPositiveHeight
    | NonPositiveA
    | NonPositiveB

  datatype PotentialError =
    | UnknownPotentialType(text: string)
    | InvalidPotentialType(reason: Reason)

  // ---------------------------------------------------------------------
  // Defaults

  const DefaultFrequency: real := 1.0
  const DefaultFrequencyY: real := 1.6180339887498948482
  const DefaultSquareExponent: real := 8.0
  const DefaultHenonA: real := 205.0 / 42.0
  const DefaultHenonB: real := -13.0 / 3.0
  const DefaultQuarticB: real := 0.01
  const DefaultAlpha: real := 8.0
  const DefaultPowerExponent: real := 4.0
  const DefaultRingRadius: real := 3.0
  const DefaultRingWidth: real := 1.0
  const DefaultRingExponent: real := 2.0
  const DefaultAsymmAmplitude: real := 0.0
  const DefaultAsymmWidth: real := 1.0
  const DefaultStadiumRadius: real := 1.0
  const DefaultCenterLength: real := 2.0
  const DefaultHeight: real := 100.0
  const DefaultStadiumA: real := 1.0
  const DefaultStadiumB: real := 10.0

  // ---------------------------------------------------------------------
  // init

  /** What `init` accepts. */
  predicate Valid(p: Potential)
  {
    match p
    case Harmonic(w, _, _) => w >= 0.0
    case Elliptic(wx, wy) => wx >= 0.0 && wy >= 0.0
    case Gaussian(amplitude, width, _, _) => amplitude >= 0.0 && width != 0.0
    case Quartic(b) => b >= 0.0
    case Power(_, w) => w >= 0.0
    case RingPotential(r, w, _, _, _) => r >= 0.0 && w > 0.0
    case Cosh(A, L) => A > 0.0 && L > 0.0
    case SoftStadium(R, halfL, V, a, b) => R > 0.0 && halfL > 0.0 && V > 0.0 && a > 0.0 && b > 0.0
    case _ => true
  }

  /** `init`: the checks in their order in each `init`; the first failure names the
      error. */
  function Init(p: Potential): (r: Result<Potential, PotentialError>)
    ensures r.Ok? <==> Valid(p)
    ensures r.Ok? ==> r.value == p
  {
    match p
    case Harmonic(w, _, _) =>
      if w < 0.0 then Err(InvalidPotentialType(NegativeFrequency)) else Ok(p)
    case Elliptic(wx, wy) =>
      if wx < 0.0 || wy < 0.0 then Err(InvalidPotentialType(NegativeFrequency)) else Ok(p)
    case Gaussian(amplitude, width, _, _) =>
      if amplitude < 0.0 then Err(InvalidPotentialType(NegativeAmplitude))
      else if width == 0.0 then Err(InvalidPotentialType(ZeroWidth))
      else Ok(p)
    case Quartic(b) =>
      if b < 0.0 then Err(InvalidPotentialType(NegativeParameter)) else Ok(p)
    case Power(_, w) =>
      if w < 0.0 then Err(InvalidPotentialType(NegativeFrequency)) else Ok(p)
    case RingPotential(r, w, _, _, _) =>
      if r < 0.0 then Err(InvalidPotentialType(NegativeRadius))
      else if w <= 0.0 then Err(InvalidPotentialType(NonPositiveWidth))
      else Ok(p)
    case Cosh(A, L) =>
      if A <= 0.0 then Err(InvalidPotentialType(NonPositiveAmplitude))
      else if L <= 0.0 then Err(InvalidPotentialType(NonPositiveLengthScale))
      else Ok(p)
    case SoftStadium(R, halfL, V, a, b) =>
      if R <= 0.0 then Err(InvalidPotentialType(NonPositiveRadius))
      else if halfL <= 0.0 then Err(InvalidPotentialType(NonPositiveCenterLength))
      else if V <= 0.0 then Err(InvalidPotentialType(NonPositiveHeight))
      else if a <= 0.0 then Err(InvalidPotentialType(NonPositiveA))
      else if b <= 0.0 then Err(InvalidPotentialType(NonPositiveB))
      else Ok(p)
    case _ => Ok(p)
  }

  // ---------------------------------------------------------------------
  // Parameter-list constructors

  function CountError(k: Kind): Result<Potential, PotentialError>
  {
    Err(InvalidPotentialType(ParameterCount(k)))
  }

  function ZeroFrom(ps: seq<real>): Result<Potential, PotentialError>
  {
    if |ps| != 0 then CountError(ZeroKind) else Init(Zero)
  }

  function HarmonicFrom(ps: seq<real>): Result<Potential, PotentialError>
  {
    if |ps| == 0 then Init(Harmonic(DefaultFrequency, 0.0, 0.0))
    else if |ps| == 1 then Init(Harmonic(ps[0], 0.0, 0.0))
    else if |ps| == 3 then Init(Harmonic(ps[0], ps[1], ps[2]))
    else CountError(HarmonicKind)
  }

  function EllipticFrom(ps: seq<real>): Result<Potential, PotentialError>
  {
    if |ps| == 0 then Init(Elliptic(DefaultFrequency, DefaultFrequencyY))
    else if |ps| == 2 then Init(Elliptic(ps[0], ps[1]))
    else CountError(EllipticKind)
  }

  function PrettyHardSquareFrom(ps: seq<real>): Result<Potential, PotentialError>
  {
    if |ps| == 0 then Init(PrettyHardSquare(DefaultSquareExponent))
    else if |ps| == 1 then Init(PrettyHardSquare(ps[0]))
    else CountError(PrettyHardSquareKind)
  }

  function SoftPentagonFrom(ps: seq<real>): Result<Potential, PotentialError>
  {
    if |ps| != 0 then CountError(SoftPentagonKind) else Init(SoftPentagon)
  }

  function HenonHeilesFrom(ps: seq<real>): Result<Potential, PotentialError>
  {
    if |ps| == 0 then Init(HenonHeiles(DefaultHenonA, DefaultHenonB))
    else if |ps| == 2 then Init(HenonHeiles(ps[0], ps[1]))
    else CountError(HenonHeilesKind)
  }

  function GaussianFrom(ps: seq<real>): Result<Potential, PotentialError>
  {
    if |ps| == 0 then Init(Gaussian(1.0, 1.0, 0.0, 0.0))
    else if |ps| == 2 then Init(Gaussian(ps[0], ps[1], 0.0, 0.0))
    else if |ps| == 4 then Init(Gaussian(ps[0], ps[1], ps[2], ps[3]))
    else CountError(GaussianKind)
  }

  function QuarticFrom(ps: seq<real>): Result<Potential, PotentialError>
  {
    if |ps| == 0 then Init(Quartic(DefaultQuarticB))
    else if |ps| == 1 then Init(Quartic(ps[0]))
    else CountError(QuarticKind)
  }

  function SquareOscillatorFrom(ps: seq<real>): Result<Potential, PotentialError>
  {
    if |ps| == 0 then Init(SquareOscillator(DefaultAlpha))
    else if |ps| == 1 then Init(SquareOscillator(ps[0]))
    else CountError(SquareOscillatorKind)
  }

  function PowerFrom(ps: seq<real>): Result<Potential, PotentialError>
  {
    if |ps| == 0 then Init(Power(DefaultPowerExponent, DefaultFrequency))
    else if |ps| == 1 then Init(Power(ps[0], DefaultFrequency))
    else if |ps| == 2 then Init(Power(ps[0], ps[1]))
    else CountError(PowerKind)
  }

  function RingFrom(ps: seq<real>): Result<Potential, PotentialError>
  {
    if |ps| == 0 then
      Init(RingPotential(DefaultRingRadius, DefaultRingWidth, DefaultRingExponent, DefaultAsymmAmplitude, DefaultAsymmWidth))
    else if |ps| == 3 then Init(RingPotential(ps[0], ps[1], ps[2], DefaultAsymmAmplitude, DefaultAsymmWidth))
    else if |ps| == 5 then Init(RingPotential(ps[0], ps[1], ps[2], ps[3], ps[4]))
    else CountError(RingKind)
  }

  function CoshFrom(ps: seq<real>): Result<Potential, PotentialError>
  {
    if |ps| == 0 then Init(Cosh(1.0, 1.0))
    else if |ps| == 2 then Init(Cosh(ps[0], ps[1]))
    else CountError(CoshKind)
  }

  /** The soft stadium's list constructor as written in
      `SoftStadium::SoftStadium(params)`: the
      second value, a centre length, is stored as the half length. */
  function AsWrittenSoftStadiumFrom(ps: seq<real>): Result<Potential, PotentialError>
  {
    if |ps| == 0 then
      Init(SoftStadium(DefaultStadiumRadius, DefaultCenterLength / 2.0, DefaultHeight, DefaultStadiumA, DefaultStadiumB))
    else if |ps| == 3 then Init(SoftStadium(ps[0], ps[1], ps[2], DefaultStadiumA, DefaultStadiumB))
    else if |ps| == 5 then Init(SoftStadium(ps[0], ps[1], ps[2], ps[3], ps[4]))
    else CountError(SoftStadiumKind)
  }

  /** The soft stadium's list constructor halving the centre length, as its
      numeric constructor and its default branch do. */
  function SoftStadiumFrom(ps: seq<real>): Result<Potential, PotentialError>
  {
    if |ps| == 0 then
      Init(SoftStadium(DefaultStadiumRadius, DefaultCenterLength / 2.0, DefaultHeight, DefaultStadiumA, DefaultStadiumB))
    else if |ps| == 3 then Init(SoftStadium(ps[0], ps[1] / 2.0, ps[2], DefaultStadiumA, DefaultStadiumB))
    else if |ps| == 5 then Init(SoftStadium(ps[0], ps[1] / 2.0, ps[2], ps[3], ps[4]))
    else CountError(SoftStadiumKind)
  }

  /** The constructor the dispatch calls for each kind. */
  function Build(k: Kind, ps: seq<real>): (r: Result<Potential, PotentialError>)
    ensures r.Ok? ==> Valid(r.value) && KindOf(r.value) == k
  {
    match k
    case ZeroKind => ZeroFrom(ps)
    case HarmonicKind => HarmonicFrom(ps)
    case EllipticKind => EllipticFrom(ps)
    case PrettyHardSquareKind => PrettyHardSquareFrom(ps)
    case SoftPentagonKind => SoftPentagonFrom(ps)
    case HenonHeilesKind => HenonHeilesFrom(ps)
    case GaussianKind => GaussianFrom(ps)
    case QuarticKind => QuarticFrom(ps)
    case SquareOscillatorKind => SquareOscillatorFrom(ps)
    case PowerKind => PowerFrom(ps)
    case RingKind => RingFrom(ps)
    case CoshKind => CoshFrom(ps)
    case SoftStadiumKind => AsWrittenSoftStadiumFrom(ps)
  }

  // ---------------------------------------------------------------------
  // Dispatch

  /** The names the dispatch recognises, aliases included. */
  function KindNamed(name: string): Option<Kind>
  {
    if name == "zero" then Some(ZeroKind)
    else if name == "harmonic" then Some(HarmonicKind)
    else if name == "elliptic" then Some(EllipticKind)
    else if name == "prettyhardsquare" then Some(PrettyHardSquareKind)
    else if name == "softpentagon" then Some(SoftPentagonKind)
    else if name == "henonheiles" || name == "henon" then Some(HenonHeilesKind)
    else if name == "gaussian" || name == "gaussianblob" then Some(GaussianKind)
    else if name == "quartic" || name == "quarticoscillator" then Some(QuarticKind)
    else if name == "squareoscillator" then Some(SquareOscillatorKind)
    else if name == "power" || name == "poweroscillator" then Some(PowerKind)
    else if name == "ring" || name == "ringpotential" then Some(RingKind)
    else if name == "cosh" || name == "coshpotential" then Some(CoshKind)
    else if name == "softstadium" then Some(SoftStadiumKind)
    else None
  }

  /** `parse_potential_description`: an unreadable description is an
      invalid potential type, an unknown name an unknown one; both errors
      carry the whole text. */
  function ParsePotentialDescription(s: string): (r: Result<Potential, PotentialError>)
    ensures r.Ok? ==> Valid(r.value)
    ensures Parser.ParseParameterString(s).Err? ==> r == Err(InvalidPotentialType(UnreadableDescription(s)))
  {
    match Parser.ParseParameterString(s)
    case Err(_) => Err(InvalidPotentialType(UnreadableDescription(s)))
    case Ok(d) =>
      match KindNamed(d.name)
      case None => Err(UnknownPotentialType(s))
      case Some(k) => Build(k, d.values)
  }

  // ---------------------------------------------------------------------
  // The parameter view: defaults, counts and positional overriding

  function KindOf(p: Potential): Kind
  {
    match p
    case Zero => ZeroKind
    case Harmonic(_, _, _) => HarmonicKind
    case Elliptic(_, _) => EllipticKind
    case PrettyHardSquare(_) => PrettyHardSquareKind
    case SoftPentagon => SoftPentagonKind
    case HenonHeiles(_, _) => HenonHeilesKind
    case Gaussian(_, _, _, _) => GaussianKind
    case Quartic(_) => QuarticKind
    case SquareOscillator(_) => SquareOscillatorKind
    case Power(_, _) => PowerKind
    case RingPotential(_, _, _, _, _) => RingKind
    case Cosh(_, _) => CoshKind
    case SoftStadium(_, _, _, _, _) => SoftStadiumKind
  }

  /** The parameter counts each constructor accepts. */
  function Counts(k: Kind): set<nat>
  {
    match k
    case ZeroKind => {0}
    case HarmonicKind => {0, 1, 3}
    case EllipticKind => {0, 2}
    case PrettyHardSquareKind => {0, 1}
    case SoftPentagonKind => {0}
    case HenonHeilesKind => {0, 2}
    case GaussianKind => {0, 2, 4}
    case QuarticKind => {0, 1}
    case SquareOscillatorKind => {0, 1}
    case PowerKind => {0, 1, 2}
    case RingKind => {0, 3, 5}
    case CoshKind => {0, 2}
    case SoftStadiumKind => {0, 3, 5}
  }

  /** Number of constructor parameters of a kind. */
  function Arity(k: Kind): nat
  {
    match k
    case ZeroKind => 0
    case HarmonicKind => 3
    case EllipticKind => 2
    case PrettyHardSquareKind => 1
    case SoftPentagonKind => 0
    case HenonHeilesKind => 2
    case GaussianKind => 4
    case QuarticKind => 1
    case SquareOscillatorKind => 1
    case PowerKind => 2
    case RingKind => 5
    case CoshKind => 2
    case SoftStadiumKind => 5
  }

  /** A potential's constructor parameters in order; the soft stadium's
      second one is its full centre length. */
  function Parameters(p: Potential): (vs: seq<real>)
    ensures |vs| == Arity(KindOf(p))
  {
    match p
    case Zero => []
    case Harmonic(w, x0, y0) => [w, x0, y0]
    case Elliptic(wx, wy) => [wx, wy]
    case PrettyHardSquare(exponent) => [exponent]
    case SoftPentagon => []
    case HenonHeiles(a, b) => [a, b]
    case Gaussian(amplitude, width, x0, y0) => [amplitude, width, x0, y0]
    case Quartic(b) => [b]
    case SquareOscillator(alpha) => [alpha]
    case Power(a, w) => [a, w]
    case RingPotential(r, w, e, asymmA, asymmW) => [r, w, e, asymmA, asymmW]
    case Cosh(A, L) => [A, L]
    case SoftStadium(R, halfL, V, a, b) => [R, 2.0 * halfL, V, a, b]
  }

  /** The potential with the given full parameter list, as the numeric
      constructors store it. */
  function WithParameters(k: Kind, vs: seq<real>): (p: Potential)
    requires |vs| == Arity(k)
    ensures KindOf(p) == k
  {
    match k
    case ZeroKind => Zero
    case HarmonicKind => Harmonic(vs[0], vs[1], vs[2])
    case EllipticKind => Elliptic(vs[0], vs[1])
    case PrettyHardSquareKind => PrettyHardSquare(vs[0])
    case SoftPentagonKind => SoftPentagon
    case HenonHeilesKind => HenonHeiles(vs[0], vs[1])
    case GaussianKind => Gaussian(vs[0], vs[1], vs[2], vs[3])
    case QuarticKind => Quartic(vs[0])
    case SquareOscillatorKind => SquareOscillator(vs[0])
    case PowerKind => Power(vs[0], vs[1])
    case RingKind => RingPotential(vs[0], vs[1], vs[2], vs[3], vs[4])
    case CoshKind => Cosh(vs[0], vs[1])
    case SoftStadiumKind => SoftStadium(vs[0], vs[1] / 2.0, vs[2], vs[3], vs[4])
  }

  /** The potential each kind gets from an empty list. */
  function Defaults(k: Kind): Potential
  {
    match k
    case ZeroKind => Zero
    case HarmonicKind => Harmonic(DefaultFrequency, 0.0, 0.0)
    case EllipticKind => Elliptic(DefaultFrequency, DefaultFrequencyY)
    case PrettyHardSquareKind => PrettyHardSquare(DefaultSquareExponent)
    case SoftPentagonKind => SoftPentagon
    case HenonHeilesKind => HenonHeiles(DefaultHenonA, DefaultHenonB)
    case GaussianKind => Gaussian(1.0, 1.0, 0.0, 0.0)
    case QuarticKind => Quartic(DefaultQuarticB)
    case SquareOscillatorKind => SquareOscillator(DefaultAlpha)
    case PowerKind => Power(DefaultPowerExponent, DefaultFrequency)
    case RingKind => RingPotential(DefaultRingRadius, DefaultRingWidth, DefaultRingExponent, DefaultAsymmAmplitude, DefaultAsymmWidth)
    case CoshKind => Cosh(1.0, 1.0)
    case SoftStadiumKind =>
      SoftStadium(DefaultStadiumRadius, DefaultCenterLength / 2.0, DefaultHeight, DefaultStadiumA, DefaultStadiumB)
  }

  /** The parameters of a kind's default potential, given ones first. */
  function Overridden(k: Kind, ps: seq<real>): (vs: seq<real>)
    requires |ps| <= Arity(k)
    ensures |vs| == Arity(k)
  {
    ps + Parameters(Defaults(k))[|ps|..]
  }

  // ---------------------------------------------------------------------
  // Properties

  /** Parameters and the numeric constructors are inverse to each other. */
  lemma ParametersRoundTrip(p: Potential, k: Kind, vs: seq<real>)
    requires |vs| == Arity(k)
    ensures WithParameters(KindOf(p), Parameters(p)) == p
    ensures Parameters(WithParameters(k, vs)) == vs
  {
  }

  /** Every default potential passes its own `init`. */
  lemma DefaultsValid(k: Kind)
    ensures Valid(Defaults(k)) && KindOf(Defaults(k)) == k
    ensures Build(k, []) == Ok(Defaults(k))
  {
  }

  /** A list constructor accepts exactly the counts in `Counts`, and an
      accepted list replaces the leading default parameters in order before
      `init` checks the result; only the soft stadium, whose list
      constructor stores its second value unhalved, acts as if given
      twice that value. */
  lemma BuildOverridesDefaults(k: Kind, ps: seq<real>)
    ensures |ps| !in Counts(k) ==> Build(k, ps) == Err(InvalidPotentialType(ParameterCount(k)))
    ensures |ps| in Counts(k) ==> |ps| <= Arity(k) && Build(k, ps) == Init(WithParameters(k, ListParameters(k, ps)))
    ensures |ps| in Counts(k) && (k != SoftStadiumKind || |ps| == 0) ==> ListParameters(k, ps) == Overridden(k, ps)
  {
    if |ps| in Counts(k) {
      OverriddenParts(k, ps);
      BuildAccepted(k, ps, ListParameters(k, ps));
    } else {
      BuildRefused(k, ps);
    }
  }

  /** The full parameter list an accepted list amounts to. */
  function ListParameters(k: Kind, ps: seq<real>): (vs: seq<real>)
    requires |ps| in Counts(k)
    ensures |vs| == Arity(k)
  {
    OverriddenParts(k, ps);
    var vs := Overridden(k, ps);
    if k == SoftStadiumKind && |ps| > 0 then vs[1 := 2.0 * ps[1]] else vs
  }

  lemma OverriddenParts(k: Kind, ps: seq<real>)
    requires |ps| in Counts(k)
    ensures |ps| <= Arity(k)
    ensures forall i :: 0 <= i < |ps| ==> Overridden(k, ps)[i] == ps[i]
    ensures forall i :: |ps| <= i < Arity(k) ==> Overridden(k, ps)[i] == Parameters(Defaults(k))[i]
  {
  }

  lemma BuildAccepted(k: Kind, ps: seq<real>, vs: seq<real>)
    requires |ps| in Counts(k) && |ps| <= Arity(k) == |vs|
    requires vs == ListParameters(k, ps)
    ensures Build(k, ps) == Init(WithParameters(k, vs))
  {
    OverriddenParts(k, ps);
  }

  lemma BuildRefused(k: Kind, ps: seq<real>)
    requires |ps| !in Counts(k)
    ensures Build(k, ps) == Err(InvalidPotentialType(ParameterCount(k)))
  {
  }

  /** The aliases reach the same constructor. */
  lemma Aliases()
    ensures KindNamed("henon") == KindNamed("henonheiles") == Some(HenonHeilesKind)
    ensures KindNamed("gaussianblob") == KindNamed("gaussian") == Some(GaussianKind)
    ensures KindNamed("quarticoscillator") == KindNamed("quartic") == Some(QuarticKind)
    ensures KindNamed("poweroscillator") == KindNamed("power") == Some(PowerKind)
    ensures KindNamed("ringpotential") == KindNamed("ring") == Some(RingKind)
    ensures KindNamed("coshpotential") == KindNamed("cosh") == Some(CoshKind)
  {
    HenonAlias();
    GaussianAlias();
    QuarticAlias();
    PowerAlias();
    RingAlias();
    CoshAlias();
  }

  lemma HenonAlias()
    ensures KindNamed("henon") == KindNamed("henonheiles") == Some(HenonHeilesKind)
  {
  }

  lemma GaussianAlias()
    ensures KindNamed("gaussianblob") == KindNamed("gaussian") == Some(GaussianKind)
  {
  }

  lemma QuarticAlias()
    ensures KindNamed("quarticoscillator") == KindNamed("quartic") == Some(QuarticKind)
  {
  }

  lemma PowerAlias()
    ensures KindNamed("poweroscillator") == KindNamed("power") == Some(PowerKind)
  {
  }

  lemma RingAlias()
    ensures KindNamed("ringpotential") == KindNamed("ring") == Some(RingKind)
  {
  }

  lemma CoshAlias()
    ensures KindNamed("coshpotential") == KindNamed("cosh") == Some(CoshKind)
  {
  }

  /** A description the generic parser accepts is dispatched on its name. */
  lemma ParsedDispatch(s: string, d: Parser.Described)
    requires Parser.ParseParameterString(s) == Ok(d)
    ensures KindNamed(d.name).None? ==> ParsePotentialDescription(s) == Err(UnknownPotentialType(s))
    ensures KindNamed(d.name).Some? ==> ParsePotentialDescription(s) == Build(KindNamed(d.name).value, d.values)
  {
  }

  /** "default", the program's default potential setting, is not a name
      the dispatch knows, so it is refused as an unknown type. */
  lemma DefaultNameUnknown(s: string, vs: seq<real>)
    requires Parser.ParseParameterString(s) == Ok(Parser.Described("default", vs))
    ensures ParsePotentialDescription(s) == Err(UnknownPotentialType(s))
  {
    assert KindNamed("default").None?;
    ParsedDispatch(s, Parser.Described("default", vs));
  }

  /** The list constructor as written does not halve the centre length, so
      a stadium given centre length 2 gets half length 2 and describes
      itself with centre length 4, while the numeric constructor with the
      same numbers gets half length 1. */
  lemma AsWrittenStadiumDoubles()
    ensures AsWrittenSoftStadiumFrom([1.0, 2.0, 100.0]) == Ok(SoftStadium(1.0, 2.0, 100.0, 1.0, 10.0))
    ensures Init(WithParameters(SoftStadiumKind, [1.0, 2.0, 100.0, 1.0, 10.0])) == Ok(SoftStadium(1.0, 1.0, 100.0, 1.0, 10.0))
    ensures Parameters(AsWrittenSoftStadiumFrom([1.0, 2.0, 100.0]).value) == [1.0, 4.0, 100.0, 1.0, 10.0]
  {
  }

  /** The halving constructor reproduces any valid stadium from the
      parameters it describes itself with. */
  lemma StadiumRoundTrip(p: Potential)
    requires p.SoftStadium? && Valid(p)
    ensures SoftStadiumFrom(Parameters(p)) == Ok(p)
  {
  }
}
