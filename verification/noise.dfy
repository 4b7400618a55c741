/** Random noise added to the potential (`noise.cpp`): the description
    parser with its name dispatch, and the parameter constructors of the
    two noise types. The spikes themselves are random and are not part
    of this model. */
module Noises {
  import opened Util
  import Parser

  /** Why a noise description was refused (`InvalidNoiseType`). */
  datatype Reason =
    | Unreadable(text: string)
    | TakesNoParameters
    | TakesThreeOrFiveParameters

  datatype NoiseError =
    | UnknownNoiseType(text: string)
    | InvalidNoiseType(reason: Reason)

  /** A noise object. Gaussian noise places spikes with the given density,
      each with a normally distributed amplitude and width. */
  datatype Noise =
    | NoNoise
    | GaussianNoise(density: real, ampMean: real, ampStdev: real, widthMean: real, widthStdev: real)

  /** Standard deviation of amplitude and width relative to their means,
      used when only the means are given. */
  const RelativeAmplitudeStdev: real := 0.20
  const RelativeWidthStdev: real := 0.20

  // ---------------------------------------------------------------------
  // Constructors

  /** `NoNoise(params)`: any parameter is refused. */
  function NoNoiseFrom(params: seq<real>): (n: Result<Noise, NoiseError>)
    ensures n.Ok? <==> |params| == 0
    ensures n.Ok? ==> n.value == NoNoise
    ensures n.Err? ==> n.error == InvalidNoiseType(TakesNoParameters)
  {
    if |params| != 0 then Err(InvalidNoiseType(TakesNoParameters)) else Ok(NoNoise)
  }

  /** `GaussianNoise(params)`: three values give density and the two
      means, with default relative spreads; five values give every field. */
  function GaussianNoiseFrom(params: seq<real>): (n: Result<Noise, NoiseError>)
    ensures n.Ok? <==> |params| == 3 || |params| == 5
    ensures n.Ok? ==> n.value.GaussianNoise? && n.value.density == params[0] && n.value.ampMean == params[1]
    ensures |params| == 3 ==>
      n.Ok? && n.value.widthMean == params[2]
      && n.value.ampStdev == RelativeAmplitudeStdev * params[1]
      && n.value.widthStdev == RelativeWidthStdev * params[2]
    ensures |params| == 5 ==>
      n.Ok? && n.value.ampStdev == params[2]
      && n.value.widthMean == params[3] && n.value.widthStdev == params[4]
    ensures n.Err? ==> n.error == InvalidNoiseType(TakesThreeOrFiveParameters)
  {
    if |params| == 3 then
      Ok(GaussianNoise(params[0], params[1], RelativeAmplitudeStdev * params[1],
                       params[2], RelativeWidthStdev * params[2]))
    else if |params| == 5 then
      Ok(GaussianNoise(params[0], params[1], params[2], params[3], params[4]))
    else
      Err(InvalidNoiseType(TakesThreeOrFiveParameters))
  }

  // ---------------------------------------------------------------------
  // Parsing

  const NoNames: set<string> := {"no", "none", "zero"}
  const GaussianNames: set<string> := {"gaussian", "gaussians", "gaussiannoise"}

  /** Construction from a parsed name and value list; the error for an
      unknown name carries the whole description text `s`. */
  function FromPair(s: string, name: string, params: seq<real>): (n: Result<Noise, NoiseError>)
    ensures name in NoNames ==> n == NoNoiseFrom(params)
    ensures name in GaussianNames ==> n == GaussianNoiseFrom(params)
    ensures name !in NoNames + GaussianNames ==> n == Err(UnknownNoiseType(s))
  {
    if name in NoNames then NoNoiseFrom(params)
    else if name in GaussianNames then GaussianNoiseFrom(params)
    else Err(UnknownNoiseType(s))
  }

  /** `parse_noise_description(str)`: a description the generic parser
      refuses is an invalid noise type naming the whole text. */
  function ParseNoiseDescription(s: string): (n: Result<Noise, NoiseError>)
    ensures Parser.ParseParameterString(s).Err? ==> n == Err(InvalidNoiseType(Unreadable(s)))
    ensures n.Err? && n.error.UnknownNoiseType? ==> n.error.text == s
  {
    match Parser.ParseParameterString(s)
    case Err(_) => Err(InvalidNoiseType(Unreadable(s)))
    case Ok(d) => FromPair(s, d.name, d.values)
  }

  /** A description the generic parser accepts is dispatched on its name
      and values. */
  lemma ParsedDispatch(s: string, d: Parser.Described)
    requires Parser.ParseParameterString(s) == Ok(d)
    ensures ParseNoiseDescription(s) == FromPair(s, d.name, d.values)
  {
  }

  /** A written-out description "name(v1, ..., vn)" is dispatched on that
      name and those numbers. */
  lemma DescribedNoise(lead: string, name: string, items: seq<Parser.Item>, trail: string)
    requires Parser.AllWhitespace(lead) && Parser.AllWhitespace(trail) && Parser.IsName(name)
    requires forall it <- items :: Parser.Readable(it)
    ensures var s := lead + Parser.Describe(name, items) + trail;
      ParseNoiseDescription(s) == FromPair(s, name, Parser.Values(items))
  {
    Parser.DescribeRoundTrip(lead, name, items, trail);
    ParsedDispatch(lead + Parser.Describe(name, items) + trail, Parser.Described(name, Parser.Values(items)));
  }

  // ---------------------------------------------------------------------
  // Properties

  /** The five values that reconstruct a noise object. */
  function Parameters(n: Noise): seq<real>
  {
    match n
    case NoNoise => []
    case GaussianNoise(d, am, asd, wm, wsd) => [d, am, asd, wm, wsd]
  }

  /** Every noise object is rebuilt by its own constructor from its
      parameter list. */
  lemma ParametersRoundTrip(n: Noise)
    ensures n.NoNoise? ==> NoNoiseFrom(Parameters(n)) == Ok(n)
    ensures n.GaussianNoise? ==> GaussianNoiseFrom(Parameters(n)) == Ok(n)
  {
  }

  /** Giving only the means is the same as giving spreads of 20% of them. */
  lemma ShortFormDefaults(density: real, ampMean: real, widthMean: real)
    ensures GaussianNoiseFrom([density, ampMean, widthMean])
      == GaussianNoiseFrom([density, ampMean, 0.2 * ampMean, widthMean, 0.2 * widthMean])
  {
  }

  /** The aliases reach the same constructor, whatever the text. */
  lemma Aliases(s: string, params: seq<real>)
    ensures FromPair(s, "no", params) == FromPair(s, "none", params) == FromPair(s, "zero", params)
      == NoNoiseFrom(params)
    ensures FromPair(s, "gaussian", params) == FromPair(s, "gaussians", params)
      == FromPair(s, "gaussiannoise", params) == GaussianNoiseFrom(params)
  {
  }

  /** Names outside the alias lists, such as a shortened one or the empty
      name, are unknown noise types. */
  lemma OtherNamesUnknown(s: string, params: seq<real>)
    ensures FromPair(s, "gauss", params) == Err(UnknownNoiseType(s))
    ensures FromPair(s, "", params) == Err(UnknownNoiseType(s))
  {
    assert "gauss" !in NoNames + GaussianNames;
    assert "" !in NoNames + GaussianNames;
  }
}
