/** Geometric constraints on the grid (`constraint.cpp`, `constraint.hpp`):
    the description parser with its name dispatch and '!' negation, the
    parameter validation of each constraint, and the `check` predicates.
    Distances are compared through their squares, so no square root is
    needed; `CheckIsDistanceCheck` ties that back to the `hypot` of the
    `check` functions. */
module Constraints {
  import opened Util
  import Parser

  /** Why a constraint's parameters were refused (`InvalidConstraintType`). */
  datatype Reason =
    | TakesNoParameters
    | TakesParameters(count: nat)
    | NegativeRadius
    | NegativeInnerRadius
    | NegativeWidth

  datatype ConstraintError =
    | UnknownConstraintType(text: string)
    | InvalidConstraintType(reason: Reason)

  /** A constraint object. An inverse built from a pointer owns its base and
      deletes it with itself; one built from a reference does not. */
  datatype Constraint =
    | NoConstraint
    | Inverse(base: Constraint, ownsBase: bool)
    | MaxRadius(r: real)
    | Ring(minr: real, width: real)

  /** What the constructors' `init` functions guarantee. */
  predicate Valid(c: Constraint)
  {
    match c
    case NoConstraint => true
    case Inverse(b, _) => Valid(b)
    case MaxRadius(r) => r >= 0.0
    case Ring(minr, width) => minr >= 0.0 && width >= 0.0
  }

  // ---------------------------------------------------------------------
  // check

  /** `hypot(x, y) <= r`, through squares. */
  predicate WithinRadius(x: real, y: real, r: real)
  {
    r >= 0.0 && x * x + y * y <= r * r
  }

  /** `hypot(x, y) >= r`, through squares. */
  predicate BeyondRadius(x: real, y: real, r: real)
  {
    r <= 0.0 || x * x + y * y >= r * r
  }

  /** Whether the point (x, y) is allowed. */
  predicate Check(c: Constraint, x: real, y: real)
  {
    match c
    case NoConstraint => true
    case Inverse(b, _) => !Check(b, x, y)
    case MaxRadius(r) => WithinRadius(x, y, r)
    case Ring(minr, width) => BeyondRadius(x, y, minr) && WithinRadius(x, y, minr + width)
  }

  /** The `check` functions as written, with the distance `h = hypot(x, y)`. */
  predicate CheckAtDistance(c: Constraint, h: real)
  {
    match c
    case NoConstraint => true
    case Inverse(b, _) => !CheckAtDistance(b, h)
    case MaxRadius(r) => h <= r
    case Ring(minr, width) => h >= minr && h <= minr + width
  }

  lemma DistanceAtMost(h: real, d: real, r: real)
    requires h >= 0.0 && h * h == d
    ensures h <= r <==> r >= 0.0 && d <= r * r
  {
    if r >= 0.0 {
      SquareMonotone(h, r);
    }
  }

  lemma DistanceAtLeast(h: real, d: real, r: real)
    requires h >= 0.0 && h * h == d
    ensures h >= r <==> r <= 0.0 || d >= r * r
  {
    if r > 0.0 {
      SquareMonotone(r, h);
    }
  }

  /** The squared-distance checks agree with the `check` functions on the
      Euclidean distance of the point from the origin. */
  lemma {:induction false} CheckIsDistanceCheck(c: Constraint, x: real, y: real, h: real)
    requires h >= 0.0 && h * h == x * x + y * y
    ensures Check(c, x, y) == CheckAtDistance(c, h)
  {
    match c
    case NoConstraint =>
    case Inverse(b, _) =>
      CheckIsDistanceCheck(b, x, y, h);
    case MaxRadius(r) =>
      DistanceAtMost(h, x * x + y * y, r);
    case Ring(minr, width) =>
      DistanceAtLeast(h, x * x + y * y, minr);
      DistanceAtMost(h, x * x + y * y, minr + width);
  }

  // ---------------------------------------------------------------------
  // Constructors

  /** `MaximumRadialDistanceConstraint(r)`: `init` refuses a negative radius. */
  function MakeMaxRadius(r: real): (c: Result<Constraint, ConstraintError>)
    ensures c.Ok? <==> r >= 0.0
    ensures c.Ok? ==> c.value == MaxRadius(r) && Valid(c.value)
    ensures c.Err? ==> c.error == InvalidConstraintType(NegativeRadius)
  {
    if r < 0.0 then Err(InvalidConstraintType(NegativeRadius)) else Ok(MaxRadius(r))
  }

  /** `RingConstraint(minr, width)`: the inner radius is checked first. */
  function MakeRing(minr: real, width: real): (c: Result<Constraint, ConstraintError>)
    ensures c.Ok? <==> minr >= 0.0 && width >= 0.0
    ensures c.Ok? ==> c.value == Ring(minr, width) && Valid(c.value)
    ensures minr < 0.0 ==> c == Err(InvalidConstraintType(NegativeInnerRadius))
    ensures minr >= 0.0 && width < 0.0 ==> c == Err(InvalidConstraintType(NegativeWidth))
  {
    if minr < 0.0 then Err(InvalidConstraintType(NegativeInnerRadius))
    else if width < 0.0 then Err(InvalidConstraintType(NegativeWidth))
    else Ok(Ring(minr, width))
  }

  /** `NoConstraint(params)`: any parameter is refused. */
  function NoConstraintFrom(params: seq<real>): (c: Result<Constraint, ConstraintError>)
    ensures c.Ok? <==> |params| == 0
    ensures c.Ok? ==> c.value == NoConstraint
    ensures c.Err? ==> c.error == InvalidConstraintType(TakesNoParameters)
  {
    if |params| != 0 then Err(InvalidConstraintType(TakesNoParameters)) else Ok(NoConstraint)
  }

  /** `MaximumRadialDistanceConstraint(params)`: exactly one parameter. */
  function MaxRadiusFrom(params: seq<real>): (c: Result<Constraint, ConstraintError>)
    ensures c.Ok? <==> |params| == 1 && params[0] >= 0.0
    ensures c.Ok? ==> c.value == MaxRadius(params[0])
    ensures |params| != 1 ==> c == Err(InvalidConstraintType(TakesParameters(1)))
  {
    if |params| != 1 then Err(InvalidConstraintType(TakesParameters(1))) else MakeMaxRadius(params[0])
  }

  /** `RingConstraint(params)`: exactly two parameters. */
  function RingFrom(params: seq<real>): (c: Result<Constraint, ConstraintError>)
    ensures c.Ok? <==> |params| == 2 && params[0] >= 0.0 && params[1] >= 0.0
    ensures c.Ok? ==> c.value == Ring(params[0], params[1])
    ensures |params| != 2 ==> c == Err(InvalidConstraintType(TakesParameters(2)))
  {
    if |params| != 2 then Err(InvalidConstraintType(TakesParameters(2))) else MakeRing(params[0], params[1])
  }

  // ---------------------------------------------------------------------
  // Parsing

  const NoNames: set<string> := {"no", "none", "zero"}
  const MaxRadiusNames: set<string> := {"maxr", "maxradius"}
  const RingNames: set<string> := {"ring", "annulus"}

  predicate Negated(name: string) { |name| > 0 && name[0] == '!' }

  /** `parse_constraint_description(pair)`: a leading '!' wraps the
      constraint described by the rest of the name in an owning inverse;
      otherwise the name picks the constructor. The empty name reads as
      not negated, since `name[0]` is then the terminating null. */
  function FromPair(name: string, params: seq<real>): (c: Result<Constraint, ConstraintError>)
    ensures c.Ok? ==> Valid(c.value)
    ensures !Negated(name) && name !in NoNames + MaxRadiusNames + RingNames ==>
      c == Err(UnknownConstraintType(name))
    decreases |name|
  {
    if Negated(name) then
      match FromPair(name[1..], params)
      case Err(e) => Err(e)
      case Ok(b) => Ok(Inverse(b, true))
    else if name in NoNames then NoConstraintFrom(params)
    else if name in MaxRadiusNames then MaxRadiusFrom(params)
    else if name in RingNames then RingFrom(params)
    else Err(UnknownConstraintType(name))
  }

  /** `parse_constraint_description(str)`: a description the generic parser
      refuses becomes an unknown constraint type naming the whole text. */
  function ParseConstraintDescription(s: string): (c: Result<Constraint, ConstraintError>)
    ensures c.Ok? ==> Valid(c.value)
    ensures Parser.ParseParameterString(s).Err? ==> c == Err(UnknownConstraintType(s))
  {
    match Parser.ParseParameterString(s)
    case Err(_) => Err(UnknownConstraintType(s))
    case Ok(d) => FromPair(d.name, d.values)
  }

  /** A description the generic parser accepts is dispatched on its name
      and values. */
  lemma ParsedDispatch(s: string, d: Parser.Described)
    requires Parser.ParseParameterString(s) == Ok(d)
    ensures ParseConstraintDescription(s) == FromPair(d.name, d.values)
  {
  }

  /** A written-out description "name(v1, ..., vn)" is dispatched on that
      name and those numbers. */
  lemma DescribedConstraint(lead: string, name: string, items: seq<Parser.Item>, trail: string)
    requires Parser.AllWhitespace(lead) && Parser.AllWhitespace(trail) && Parser.IsName(name)
    requires forall it <- items :: Parser.Readable(it)
    ensures ParseConstraintDescription(lead + Parser.Describe(name, items) + trail)
      == FromPair(name, Parser.Values(items))
  {
    Parser.DescribeRoundTrip(lead, name, items, trail);
    ParsedDispatch(lead + Parser.Describe(name, items) + trail, Parser.Described(name, Parser.Values(items)));
  }

  // ---------------------------------------------------------------------
  // Properties

  /** `k` exclamation marks. */
  function Bangs(k: nat): (b: string)
    ensures |b| == k && forall i :: 0 <= i < k ==> b[i] == '!'
  {
    if k == 0 then [] else ['!'] + Bangs(k - 1)
  }

  /** `k` owning inverses around `c`. */
  function Inverted(k: nat, c: Constraint): Constraint
  {
    if k == 0 then c else Inverse(Inverted(k - 1, c), true)
  }

  /** Repeated '!' nest inverses around the constraint the plain name
      describes, with the same parameters, and fail exactly as it fails. */
  lemma {:induction false} BangsNest(k: nat, name: string, params: seq<real>)
    requires !Negated(name)
    ensures var c := FromPair(Bangs(k) + name, params);
      match FromPair(name, params)
      case Err(e) => c == Err(e)
      case Ok(b) => c == Ok(Inverted(k, b))
  {
    if k == 0 {
      assert Bangs(k) + name == name;
    } else {
      var s := Bangs(k) + name;
      assert Negated(s) && s[1..] == Bangs(k - 1) + name;
      BangsNest(k - 1, name, params);
    }
  }

  /** An even number of inverses accepts what the base accepts, an odd
      number exactly what it refuses. */
  lemma {:induction false} InvertedCheck(k: nat, c: Constraint, x: real, y: real)
    ensures Check(Inverted(k, c), x, y) == (Check(c, x, y) == (k % 2 == 0))
  {
    if k > 0 {
      InvertedCheck(k - 1, c, x, y);
    }
  }

  /** A double inverse agrees with its base everywhere. */
  lemma DoubleInverse(c: Constraint, o1: bool, o2: bool, x: real, y: real)
    ensures Check(Inverse(Inverse(c, o1), o2), x, y) == Check(c, x, y)
  {
  }

  /** The aliases reach the same constructor. */
  lemma Aliases(params: seq<real>)
    ensures FromPair("no", params) == FromPair("none", params) == FromPair("zero", params) == NoConstraintFrom(params)
    ensures FromPair("maxr", params) == FromPair("maxradius", params) == MaxRadiusFrom(params)
    ensures FromPair("ring", params) == FromPair("annulus", params) == RingFrom(params)
  {
    assert !Negated("no") && !Negated("none") && !Negated("zero");
    assert !Negated("maxr") && !Negated("maxradius");
    assert !Negated("ring") && !Negated("annulus");
  }

  /** "angle", which the program's help text lists, is not a known type. */
  lemma AngleUnknown(params: seq<real>)
    ensures FromPair("angle", params) == Err(UnknownConstraintType("angle"))
  {
    assert !Negated("angle");
    assert "angle" !in NoNames + MaxRadiusNames + RingNames;
  }

  // ---------------------------------------------------------------------
  // Ownership

  /** Number of constraint objects in the chain. */
  function Nodes(c: Constraint): nat
  {
    match c
    case Inverse(b, _) => 1 + Nodes(b)
    case _ => 1
  }

  /** Objects deleted when `c` is destroyed: itself, and its base too when it
      owns it. */
  function Deletions(c: Constraint): nat
  {
    match c
    case Inverse(b, owns) => 1 + (if owns then Deletions(b) else 0)
    case _ => 1
  }

  predicate OwnsAll(c: Constraint)
  {
    match c
    case Inverse(b, owns) => owns && OwnsAll(b)
    case _ => true
  }

  /** Every inverse the parser builds owns its base. */
  lemma {:induction false} ParsedOwnsAll(name: string, params: seq<real>)
    ensures FromPair(name, params).Ok? ==> OwnsAll(FromPair(name, params).value)
    decreases |name|
  {
    if Negated(name) {
      ParsedOwnsAll(name[1..], params);
    }
  }

  /** Destroying a fully owning chain deletes every object in it exactly
      once; an inverse built from a reference deletes only itself. */
  lemma {:induction false} OwnedChainFreed(c: Constraint)
    ensures OwnsAll(c) ==> Deletions(c) == Nodes(c)
    ensures c.Inverse? && !c.ownsBase ==> Deletions(c) == 1
  {
    if c.Inverse? {
      OwnedChainFreed(c.base);
    }
  }
}
