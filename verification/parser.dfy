/** The generic description parser `parse_parameter_string`, which turns
    "name(v1, v2, ...)" into a name and a list of doubles, together with the
    two pieces of the C++ standard library it leans on: extracting a double
    from a string stream (libstdc++'s `num_get`) and `istream::ignore`. */
module Parser {
  import opened Util

  /** `whitespace_characters` of parser.hpp; it coincides with the C locale's
      `isspace`, which the stream uses when it skips white space. */
  const Whitespace: string := " \U{000C}\n\r\t\U{000B}"
  /** White space or an opening parenthesis ends a name. */
  const NameDelimiters: string := Whitespace + "("
  /** How many characters `ignore` may discard between two values. */
  const IgnoreLimit: nat := 32

  datatype ParseError = ParseError(input: string)

  /** A successfully parsed description. */
  datatype Described = Described(name: string, values: seq<real>)

  predicate IsWhitespace(c: char)
  {
    c == ' ' || c == '\U{000C}' || c == '\n' || c == '\r' || c == '\t' || c == '\U{000B}'
  }

  predicate IsNameDelimiter(c: char) { IsWhitespace(c) || c == '(' }

  /** The two character classes are exactly `whitespace_characters` and
      `name_delim_characters`. */
  lemma CharacterClasses(c: char)
    ensures IsWhitespace(c) <==> c in Whitespace
    ensures IsNameDelimiter(c) <==> c in NameDelimiters
  {
    assert NameDelimiters == [' ', '\U{000C}', '\n', '\r', '\t', '\U{000B}', '('];
  }
  predicate IsDigit(c: char) { '0' <= c <= '9' }

  predicate AllDigits(s: string) { forall i :: 0 <= i < |s| ==> IsDigit(s[i]) }

  // ---------------------------------------------------------------------
  // String searches (std::string::find_*); None stands for npos

  /** `s.find_first_not_of(Whitespace, from)`. */
  function FirstNotWhitespace(s: string, from: nat): (r: Option<nat>)
    ensures r.Some? ==> from <= r.value < |s| && !IsWhitespace(s[r.value])
    ensures forall i :: from <= i < |s| && (r.None? || i < r.value) ==> IsWhitespace(s[i])
    decreases |s| - from
  {
    if from >= |s| then None
    else if !IsWhitespace(s[from]) then Some(from)
    else FirstNotWhitespace(s, from + 1)
  }

  /** `s.find_last_not_of(Whitespace)`, searching the first `upto` characters. */
  function LastNotWhitespace(s: string, upto: nat): (r: Option<nat>)
    requires upto <= |s|
    ensures r.Some? ==> r.value < upto && !IsWhitespace(s[r.value])
    ensures forall i :: 0 <= i < upto && (r.None? || r.value < i) ==> IsWhitespace(s[i])
  {
    if upto == 0 then None
    else if !IsWhitespace(s[upto - 1]) then Some(upto - 1)
    else LastNotWhitespace(s, upto - 1)
  }

  /** `s.find_first_of(NameDelimiters, from)`, with `|s|` standing for npos:
      every later use of the position treats npos and the end alike. */
  function FirstDelimiter(s: string, from: nat): (r: nat)
    requires from <= |s|
    ensures from <= r <= |s|
    ensures r < |s| ==> IsNameDelimiter(s[r])
    ensures forall i :: from <= i < r ==> !IsNameDelimiter(s[i])
    decreases |s| - from
  {
    if from == |s| || IsNameDelimiter(s[from]) then from
    else FirstDelimiter(s, from + 1)
  }

  /** Number of leading white-space characters. */
  function LeadingWhitespace(s: string): (k: nat)
    ensures k <= |s|
    ensures forall i :: 0 <= i < k ==> IsWhitespace(s[i])
    ensures k < |s| ==> !IsWhitespace(s[k])
  {
    match FirstNotWhitespace(s, 0)
    case None => |s|
    case Some(k) => k
  }

  // ---------------------------------------------------------------------
  // Extracting a double: libstdc++ collects the longest prefix of the form
  //   [+-] digits-and-at-most-one-point [(e|E) [+-] digits]
  // and then converts it with strtod, failing unless all of it converts.

  /** The characters collected so far, split into their parts. */
  datatype Token = Token(negative: bool, whole: string, dot: bool, frac: string,
                         sci: bool, expNegative: bool, exp: string)

  const Unsigned: Token := Token(false, [], false, [], false, false, [])

  predicate HasMantissa(t: Token) { |t.whole| + |t.frac| > 0 }

  function Size(t: Token): nat { |t.whole| + |t.frac| + |t.exp| }

  /** Whether the collecting loop takes `c` into a token in state `t`. */
  predicate Accepts(t: Token, c: char)
  {
    || IsDigit(c)
    || (c == '.' && !t.dot && !t.sci)
    || ((c == 'e' || c == 'E') && !t.sci && HasMantissa(t))
  }

  /** A digit goes to the exponent, the fraction or the integer part. */
  function AddDigit(t: Token, c: char): (u: Token)
    ensures Size(u) == Size(t) + 1
  {
    if t.sci then t.(exp := t.exp + [c])
    else if t.dot then t.(frac := t.frac + [c])
    else t.(whole := t.whole + [c])
  }

  /** One turn of the collecting loop at position `i` in state `t`: the next
      position and state, or None where the loop stops. A digit, a first
      point before any exponent, and an 'e' or 'E' after some mantissa digit
      are taken; the exponent marker takes a sign right behind it along. */
  function Step(s: string, i: nat, t: Token): (r: Option<(nat, Token)>)
    requires i <= |s|
    ensures r.Some? ==> i < r.value.0 <= |s|
  {
    if i == |s| then None
    else if IsDigit(s[i]) then Some((i + 1, AddDigit(t, s[i])))
    else if s[i] == '.' && !t.dot && !t.sci then Some((i + 1, t.(dot := true)))
    else if (s[i] == 'e' || s[i] == 'E') && !t.sci && HasMantissa(t) then
      if i + 1 < |s| && (s[i + 1] == '+' || s[i + 1] == '-') then
        Some((i + 2, t.(sci := true, expNegative := s[i + 1] == '-')))
      else
        Some((i + 1, t.(sci := true)))
    else None
  }

  /** The loop stops exactly at the end or at a character the state does not
      take; each turn adds at most one digit per character taken and never
      loses a mantissa digit. */
  lemma StepFacts(s: string, i: nat, t: Token)
    requires i <= |s|
    ensures Step(s, i, t).None? <==> i == |s| || !Accepts(t, s[i])
    ensures Step(s, i, t).Some? ==> Size(Step(s, i, t).value.1) <= Size(t) + (Step(s, i, t).value.0 - i)
    ensures Step(s, i, t).Some? && HasMantissa(t) ==> HasMantissa(Step(s, i, t).value.1)
  {
  }

  /** The collecting loop after the optional sign: the token collected
      from `s` starting at position `i` in state `t`, and the position where
      it stopped. */
  function ScanFrom(s: string, i: nat, t: Token): (r: (Token, nat))
    requires i <= |s|
    ensures i <= r.1 <= |s|
    decreases |s| - i
  {
    match Step(s, i, t)
    case None => (t, i)
    case Some((j, u)) => ScanFrom(s, j, u)
  }

  /** The loop stops at the first character the state does not take, and the
      state holds no more digits than the characters taken. */
  lemma {:induction false} ScanFromStops(s: string, i: nat, t: Token)
    requires i <= |s|
    ensures var r := ScanFrom(s, i, t);
      && (r.1 < |s| ==> !Accepts(r.0, s[r.1]))
      && Size(r.0) <= Size(t) + (r.1 - i)
      && (HasMantissa(t) ==> HasMantissa(r.0))
    decreases |s| - i
  {
    StepFacts(s, i, t);
    match Step(s, i, t)
    case None =>
    case Some((j, u)) =>
      ScanFromStops(s, j, u);
  }

  /** The whole collecting step, sign included: the token and the number of
      characters it took. */
  function Scan(s: string): (r: (Token, nat))
    ensures r.1 <= |s|
    ensures HasMantissa(r.0) ==> r.1 > 0
  {
    if |s| > 0 && (s[0] == '+' || s[0] == '-') then
      ScanFrom(s, 1, Unsigned.(negative := s[0] == '-'))
    else
      ScanFromStops(s, 0, Unsigned);
      ScanFrom(s, 0, Unsigned)
  }

  /** strtod converts the collected text completely. */
  predicate Valid(t: Token) { HasMantissa(t) && (t.sci ==> |t.exp| > 0) }

  function DigitValue(c: char): nat
    requires IsDigit(c)
  {
    c as nat - '0' as nat
  }

  /** Value of a string of decimal digits, most significant first. */
  function DigitsValue(ds: string): nat
    requires AllDigits(ds)
  {
    if |ds| == 0 then 0 else DigitsValue(ds[..|ds| - 1]) * 10 + DigitValue(ds[|ds| - 1])
  }

  predicate WellFormed(t: Token)
  {
    AllDigits(t.whole) && AllDigits(t.frac) && AllDigits(t.exp)
  }

  /** The real number a token denotes. */
  function Value(t: Token): real
    requires WellFormed(t)
  {
    var m := DigitsValue(t.whole) as real + DigitsValue(t.frac) as real / Pow10(|t.frac|);
    var e: int := DigitsValue(t.exp);
    (if t.negative then -m else m) * Pow10(if t.expNegative then -e else e)
  }

  /** 2^1024 - 2^970, half a unit above the largest finite double: strtod
      rounds every magnitude at least this large to infinity, and the
      stream then sets failbit. Smaller magnitudes, underflowing ones
      included, convert. */
  const DoubleOverflow: real := 179769313486231580793728971405303415079934132710037826936173778980444968292764750946649017977587207096330286416692887910946555547851940402630657488671505820681908902000708383676273854845817711531764475730270069855571366959622842914819860834936475292719074168444365510704342711559699508093042880177904174497792.0

  /** Whether a value converts to a finite double. */
  predicate InRange(v: real) { -DoubleOverflow < v < DoubleOverflow }

  /** Result of `in >> val`: the value, the unread input, and eofbit. */
  datatype Extracted = Extracted(value: real, rest: string, eof: bool)

  /** `in >> val` on a stream holding `s` (failbit clear): leading white
      space is skipped, running into the end sets failbit, and so does a
      collected text that does not convert or converts to an infinity.
      eofbit is set exactly when the extraction reached the end of the
      input. */
  function Extract(s: string): (r: Option<Extracted>)
    ensures r.Some? ==> |r.value.rest| < |s| && r.value.rest == s[|s| - |r.value.rest|..]
    ensures r.Some? ==> (r.value.eof <==> |r.value.rest| == 0)
    ensures r.Some? ==> InRange(r.value.value)
    ensures (forall i :: 0 <= i < |s| ==> IsWhitespace(s[i])) ==> r.None?
  {
    var k := LeadingWhitespace(s);
    var u := s[k..];
    if |u| == 0 then None
    else
      var (t, n) := Scan(u);
      ScanWellFormed(u);
      if !Valid(t) || !InRange(Value(t)) then None
      else
        assert u[n..] == s[k + n..];
        Some(Extracted(Value(t), u[n..], n == |u|))
  }

  lemma ScanWellFormed(s: string)
    ensures WellFormed(Scan(s).0)
  {
    if |s| > 0 && (s[0] == '+' || s[0] == '-') {
      ScanFromWellFormed(s, 1, Unsigned.(negative := s[0] == '-'));
    } else {
      ScanFromWellFormed(s, 0, Unsigned);
    }
  }

  lemma {:induction false} ScanFromWellFormed(s: string, i: nat, t: Token)
    requires i <= |s|
    requires WellFormed(t)
    ensures WellFormed(ScanFrom(s, i, t).0)
    decreases |s| - i
  {
    match Step(s, i, t)
    case None =>
    case Some((j, u)) =>
      assert WellFormed(u);
      ScanFromWellFormed(s, j, u);
  }

  /** Where `ignore(limit, delim)` stops skipping when it has reached
      position `i`: at the limit, at the end, or at a delimiter. */
  function IgnoreStop(s: string, limit: nat, delim: char, i: nat): (k: nat)
    requires i <= |s| && i <= limit
    ensures i <= k <= |s| && k <= limit
    ensures forall j :: i <= j < k ==> s[j] != delim
    ensures k < limit && k < |s| ==> s[k] == delim
    decreases |s| - i
  {
    if i == limit || i == |s| || s[i] == delim then i
    else IgnoreStop(s, limit, delim, i + 1)
  }

  /** `istream::ignore(limit, delim)`: discards up to `limit` characters and
      then one delimiter if it is next; reaching the end sets eofbit. Returns
      the unread input and eofbit. */
  function Ignore(s: string, limit: nat, delim: char): (r: (string, bool))
    ensures |r.0| <= |s| && r.0 == s[|s| - |r.0|..]
    ensures r.1 <==> |s| <= limit && delim !in s
    ensures r.1 ==> |r.0| == 0
    ensures !r.1 ==> |s| - |r.0| <= limit + 1
  {
    var k := IgnoreStop(s, limit, delim, 0);
    if k == |s| then ([], true)
    else if s[k] == delim then (s[k + 1..], false)
    else (s[k..], false)
  }

  /** The extraction loop of `parse_parameter_string` over the text between
      the parentheses: read a value (a failed read is an error), keep it,
      discard up to the next comma, and stop once eofbit is set. */
  function ReadValues(s: string): (r: Option<seq<real>>)
    ensures r.Some? ==> |r.value| > 0
    ensures (forall i :: 0 <= i < |s| ==> IsWhitespace(s[i])) ==> r.None?
    decreases |s|
  {
    match Extract(s)
    case None => None
    case Some(x) =>
      if x.eof then Some([x.value])
      else
        var (rest, eof) := Ignore(x.rest, IgnoreLimit, ',');
        if eof then Some([x.value])
        else
          match ReadValues(rest)
          case None => None
          case Some(vs) => Some([x.value] + vs)
  }

  // ---------------------------------------------------------------------
  // parse_parameter_string

  /** The text with its leading white space removed. */
  function Trimmed(s: string): string
  {
    s[LeadingWhitespace(s)..]
  }

  /** A name: no white space and no opening parenthesis. */
  predicate IsName(name: string)
  {
    forall i :: 0 <= i < |name| ==> !IsNameDelimiter(name[i])
  }

  /** `parse_parameter_string`: the name runs from the first non-blank
      character to the first white space or '('; what follows it is read by
      `ValuesAfterName`. Every failure reports the whole input. */
  function ParseParameterString(s: string): (r: Result<Described, ParseError>)
    ensures r.Err? ==> r.error == ParseError(s)
  {
    var start := LeadingWhitespace(s);
    if start == |s| then Err(ParseError(s))
    else
      var nameEnd := FirstDelimiter(s, start);
      match ValuesAfterName(s, nameEnd)
      case Err(e) => Err(e)
      case Ok(vs) => Ok(Described(s[start..nameEnd], vs))
  }

  /** An empty or all-blank description is an error. */
  lemma ParseBlankRejected(s: string)
    requires forall i :: 0 <= i < |s| ==> IsWhitespace(s[i])
    ensures ParseParameterString(s) == Err(ParseError(s))
  {
  }

  /** A parsed name is a name, and it starts the trimmed text. */
  lemma ParseName(s: string)
    ensures var r := ParseParameterString(s);
      r.Ok? ==> IsName(r.value.name) && r.value.name <= Trimmed(s)
  {
    var start := LeadingWhitespace(s);
    if start < |s| {
      NameShape(s, start, FirstDelimiter(s, start));
    }
  }

  /** Values come only from a list opened by '(' right after the name. */
  lemma ParseOpens(s: string)
    ensures var r := ParseParameterString(s);
      r.Ok? && |r.value.values| > 0 ==>
        |r.value.name| < |Trimmed(s)| && Trimmed(s)[|r.value.name|] == '('
  {
    var r := ParseParameterString(s);
    if r.Ok? && |r.value.values| > 0 {
      var start := LeadingWhitespace(s);
      var nameEnd := FirstDelimiter(s, start);
      AfterNameOpens(s, nameEnd);
      assert s[nameEnd] == '(' && r.value.name == s[start..nameEnd];
      OpensAt(s, start, nameEnd, r.value.name);
    }
  }

  lemma OpensAt(s: string, start: nat, nameEnd: nat, name: string)
    requires start <= nameEnd < |s| && name == s[start..nameEnd]
    ensures |name| < |s[start..]| && s[start..][|name|] == s[nameEnd]
  {
  }

  /** The name runs from the first non-blank character to the first
      delimiter: a name that starts the trimmed text. */
  lemma NameShape(s: string, start: nat, nameEnd: nat)
    requires start <= nameEnd <= |s|
    requires forall i :: start <= i < nameEnd ==> !IsNameDelimiter(s[i])
    ensures IsName(s[start..nameEnd]) && s[start..nameEnd] <= s[start..]
    ensures nameEnd < |s| ==> s[start..][nameEnd - start] == s[nameEnd]
  {
    var name := s[start..nameEnd];
    forall i | 0 <= i < |name|
      ensures !IsNameDelimiter(name[i])
    {
      assert name[i] == s[start + i];
    }
  }

  /** The part of `parse_parameter_string` after the name: only white space
      may follow the name, or else a parenthesised, comma-separated list of
      numbers that closes at the last non-blank character. */
  function ValuesAfterName(s: string, nameEnd: nat): (r: Result<seq<real>, ParseError>)
    requires nameEnd <= |s|
    ensures r.Err? ==> r.error == ParseError(s)
  {
    match FirstNotWhitespace(s, nameEnd)
    case None => Ok([])
    case Some(k) =>
      var end := LastNotWhitespace(s, |s|).value;
      if !(s[nameEnd] == '(' && s[end] == ')') then Err(ParseError(s))
      else
        ReadList(s, s[nameEnd + 1..end])
  }

  /** Only white space after the name: a name without values. */
  lemma AfterNameBlank(s: string, nameEnd: nat)
    requires nameEnd <= |s|
    requires forall i :: nameEnd <= i < |s| ==> IsWhitespace(s[i])
    ensures ValuesAfterName(s, nameEnd) == Ok([])
  {
  }

  /** Values come only from a list opened right after the name. */
  lemma AfterNameOpens(s: string, nameEnd: nat)
    requires nameEnd <= |s|
    ensures var r := ValuesAfterName(s, nameEnd);
      r.Ok? && |r.value| > 0 ==> nameEnd < |s| && s[nameEnd] == '('
  {
  }

  /** The values between the parentheses of `s`: none for an empty text, an
      error for an unreadable one. */
  function ReadList(s: string, inner: string): (r: Result<seq<real>, ParseError>)
    ensures r.Err? ==> r.error == ParseError(s)
  {
    if |inner| == 0 then Ok([])
    else
      match ReadValues(inner)
      case None => Err(ParseError(s))
      case Some(vs) => Ok(vs)
  }

  // ---------------------------------------------------------------------
  // Writing descriptions: the parser reads back what these write

  function SignText(t: Token): string { if t.negative then "-" else "" }

  function PointText(t: Token): string { if t.dot then "." + t.frac else "" }

  function ExponentText(t: Token): string
  {
    if t.sci then "e" + (if t.expNegative then "-" else "") + t.exp else ""
  }

  /** The plainest spelling of a token. */
  function Spell(t: Token): string
  {
    SignText(t) + t.whole + PointText(t) + ExponentText(t)
  }

  /** Tokens that `Spell` writes faithfully: digits in every part, no
      fraction without a point, no exponent sign without an exponent, and a
      complete number. */
  predicate Canonical(t: Token)
  {
    && WellFormed(t) && Valid(t)
    && (!t.dot ==> |t.frac| == 0)
    && (!t.sci ==> !t.expNegative && |t.exp| == 0)
  }

  predicate AllWhitespace(s: string) { forall i :: 0 <= i < |s| ==> IsWhitespace(s[i]) }

  /** One entry of a written value list: white space, a spelled number, and
      trailing characters that `ignore` discards before the next comma. */
  datatype Item = Item(pad: string, token: Token, junk: string)

  /** An entry the extraction loop reads back: the number ends where its
      spelling ends, and the junk after it has no comma and fits within the
      characters `ignore` may discard. */
  predicate Readable(it: Item)
  {
    && AllWhitespace(it.pad) && Canonical(it.token) && Follows(it.token, it.junk)
    && InRange(Value(it.token)) && |it.junk| <= IgnoreLimit && ',' !in it.junk
  }

  function ItemText(it: Item): string { it.pad + Spell(it.token) + it.junk }

  /** Entries separated by commas. */
  function Join(items: seq<Item>): string
  {
    if |items| == 0 then ""
    else if |items| == 1 then ItemText(items[0])
    else ItemText(items[0]) + "," + Join(items[1..])
  }

  /** The numbers the entries spell, in order. */
  function Values(items: seq<Item>): (vs: seq<real>)
    requires forall it <- items :: Readable(it)
    ensures |vs| == |items|
    ensures forall i :: 0 <= i < |items| ==> Canonical(items[i].token) && vs[i] == Value(items[i].token)
  {
    if |items| == 0 then []
    else
      assert Readable(items[0]);
      [Value(items[0].token)] + Values(items[1..])
  }

  /** "name(entry,entry,...)". */
  function Describe(name: string, items: seq<Item>): string
  {
    name + "(" + Join(items) + ")"
  }

  /** Text the scan of `t` stops in front of: the end, or a character the
      finished token does not take. */
  predicate Follows(t: Token, rest: string) { |rest| == 0 || !Accepts(t, rest[0]) }

  /** Digits appended to the part the state is collecting. */
  function AddDigits(t: Token, ds: string): Token
  {
    if t.sci then t.(exp := t.exp + ds)
    else if t.dot then t.(frac := t.frac + ds)
    else t.(whole := t.whole + ds)
  }

  /** A run of digits is taken whole into the current part. */
  lemma {:induction false} ScanDigits(s: string, i: nat, j: nat, t: Token)
    requires i <= j <= |s|
    requires AllDigits(s[i..j])
    ensures ScanFrom(s, i, t) == ScanFrom(s, j, AddDigits(t, s[i..j]))
    decreases j - i
  {
    if i == j {
      assert AddDigits(t, s[i..j]) == t;
    } else {
      assert s[i..j][0] == s[i];
      assert s[i..j][1..] == s[i + 1..j];
      ScanDigits(s, i + 1, j, AddDigit(t, s[i]));
      AddDigitsStep(t, s[i..j]);
    }
  }

  lemma AddDigitsStep(t: Token, ds: string)
    requires |ds| > 0
    ensures AddDigits(AddDigit(t, ds[0]), ds[1..]) == AddDigits(t, ds)
  {
    assert [ds[0]] + ds[1..] == ds;
    if t.sci {
      assert t.exp + [ds[0]] + ds[1..] == t.exp + ds;
    } else if t.dot {
      assert t.frac + [ds[0]] + ds[1..] == t.frac + ds;
    } else {
      assert t.whole + [ds[0]] + ds[1..] == t.whole + ds;
    }
  }

  /** The state after the sign and the integer part. */
  function AfterWhole(t: Token): Token { Token(t.negative, t.whole, false, [], false, false, []) }

  /** The state after the point and the fraction part. */
  function AfterPoint(t: Token): Token { Token(t.negative, t.whole, t.dot, t.frac, false, false, []) }

  /** `s` holds `part` at position `i`. */
  predicate HoldsAt(s: string, i: nat, part: string)
  {
    i + |part| <= |s| && s[i..i + |part|] == part
  }

  /** Position `i` ends the token `t`: the end of the text or a character
      the token does not take. */
  predicate StopsAt(s: string, i: nat, t: Token) { i == |s| || (i < |s| && !Accepts(t, s[i])) }

  /** The scan stops in front of a comma or at the end. */
  lemma ScanStops(s: string, i: nat, t: Token)
    requires StopsAt(s, i, t)
    ensures ScanFrom(s, i, t) == (t, i)
  {
  }

  lemma ScanExponentText(s: string, e: nat, t: Token)
    requires Canonical(t) && HoldsAt(s, e, ExponentText(t))
    requires StopsAt(s, e + |ExponentText(t)|, t)
    ensures ScanFrom(s, e, AfterPoint(t)) == (t, e + |ExponentText(t)|)
  {
    var n := e + |ExponentText(t)|;
    if !t.sci {
      assert AfterPoint(t) == t && n == e;
    } else {
      ScanExponent(s, e, t);
    }
    ScanStops(s, n, t);
  }

  /** The marker, the sign and the digits of an exponent are read. */
  lemma ScanExponent(s: string, e: nat, t: Token)
    requires Canonical(t) && t.sci && HoldsAt(s, e, ExponentText(t))
    ensures ScanFrom(s, e, AfterPoint(t)) == ScanFrom(s, e + |ExponentText(t)|, t)
  {
    var j := e + MarkerLength(t);
    assert ScanFrom(s, e, AfterPoint(t)) == ScanFrom(s, j, AfterMarker(t)) by {
      ScanMarker(s, e, t);
    }
    assert ScanFrom(s, j, AfterMarker(t)) == ScanFrom(s, j + |t.exp|, t) by {
      ExponentHeld(s, e, t);
      ScanHeldDigits(s, j, t.exp, AfterMarker(t));
      FillExponent(t);
    }
    assert j + |t.exp| == e + |ExponentText(t)| by {
      ExponentTextParts(t);
    }
  }

  function MarkerLength(t: Token): nat { if t.expNegative then 2 else 1 }

  /** The state after the exponent marker and its sign. */
  function AfterMarker(t: Token): Token { Token(t.negative, t.whole, t.dot, t.frac, true, t.expNegative, []) }

  lemma FillExponent(t: Token)
    requires t.sci
    ensures AddDigits(AfterMarker(t), t.exp) == t
  {
    assert [] + t.exp == t.exp;
  }

  /** A run of digits held at `j` is taken whole into the current part. */
  lemma ScanHeldDigits(s: string, j: nat, ds: string, u: Token)
    requires HoldsAt(s, j, ds) && AllDigits(ds)
    ensures ScanFrom(s, j, u) == ScanFrom(s, j + |ds|, AddDigits(u, ds))
  {
    ScanDigits(s, j, j + |ds|, u);
  }

  /** Where the digits of an exponent are held. */
  lemma ExponentHeld(s: string, e: nat, t: Token)
    requires t.sci && HoldsAt(s, e, ExponentText(t))
    ensures HoldsAt(s, e + MarkerLength(t), t.exp)
  {
    var n := e + |ExponentText(t)|;
    ExponentTextParts(t);
    SubSlice(s, e, n, MarkerLength(t));
  }

  /** The exponent marker, with its sign, switches the state to the exponent. */
  lemma ScanMarker(s: string, e: nat, t: Token)
    requires Valid(t) && t.sci && HoldsAt(s, e, ExponentText(t)) && AllDigits(t.exp)
    ensures e + MarkerLength(t) <= |s|
    ensures ScanFrom(s, e, AfterPoint(t)) == ScanFrom(s, e + MarkerLength(t), AfterMarker(t))
  {
    var n := e + |ExponentText(t)|;
    var p := AfterPoint(t);
    ExponentTextParts(t);
    SubSlice(s, e, n, 0);
    SubSlice(s, e, n, 1);
    assert s[e] == 'e';
    assert HasMantissa(p);
    if t.expNegative {
      assert s[e + 1] == '-';
    } else {
      assert s[e + 1] == t.exp[0] && IsDigit(s[e + 1]);
    }
  }

  lemma ExponentTextParts(t: Token)
    requires t.sci
    ensures var k := if t.expNegative then 2 else 1;
      && |ExponentText(t)| == k + |t.exp|
      && ExponentText(t)[0] == 'e'
      && (t.expNegative ==> ExponentText(t)[1] == '-')
      && ExponentText(t)[k..] == t.exp
  {
  }

  lemma PointTextParts(t: Token)
    requires t.dot
    ensures |PointText(t)| == 1 + |t.frac| && PointText(t)[0] == '.' && PointText(t)[1..] == t.frac
  {
  }

  /** Taking the tail of a slice is slicing further in. */
  lemma SubSlice(s: string, a: nat, b: nat, k: nat)
    requires a + k <= b <= |s|
    ensures s[a + k..b] == s[a..b][k..]
    ensures k < b - a ==> s[a + k] == s[a..b][k]
  {
  }

  /** A slice holding a concatenation holds both parts. */
  lemma SplitSlice(s: string, a: nat, x: string, y: string)
    requires HoldsAt(s, a, x + y)
    ensures HoldsAt(s, a, x) && HoldsAt(s, a + |x|, y)
  {
    var b := a + |x| + |y|;
    assert s[a..a + |x|] == s[a..b][..|x|] == (x + y)[..|x|] == x;
    assert s[a + |x|..b] == s[a..b][|x|..] == (x + y)[|x|..] == y;
  }

  lemma ScanPointText(s: string, p: nat, t: Token)
    requires Canonical(t) && HoldsAt(s, p, PointText(t) + ExponentText(t))
    requires StopsAt(s, p + |PointText(t)| + |ExponentText(t)|, t)
    ensures ScanFrom(s, p, AfterWhole(t)) == (t, p + |PointText(t)| + |ExponentText(t)|)
  {
    var e := p + |PointText(t)|;
    var n := e + |ExponentText(t)|;
    SplitSlice(s, p, PointText(t), ExponentText(t));
    assert ScanFrom(s, e, AfterPoint(t)) == (t, n) by {
      ScanExponentText(s, e, t);
    }
    assert ScanFrom(s, p, AfterWhole(t)) == ScanFrom(s, e, AfterPoint(t)) by {
      ScanPoint(s, p, t);
    }
  }

  /** The point and the fraction are read into the state. */
  lemma ScanPoint(s: string, p: nat, t: Token)
    requires WellFormed(t) && (!t.dot ==> |t.frac| == 0) && HoldsAt(s, p, PointText(t))
    ensures ScanFrom(s, p, AfterWhole(t)) == ScanFrom(s, p + |PointText(t)|, AfterPoint(t))
  {
    if !t.dot {
      assert AfterWhole(t) == AfterPoint(t) && |PointText(t)| == 0;
    } else {
      assert ScanFrom(s, p, AfterWhole(t)) == ScanFrom(s, p + 1, AfterDot(t)) by {
        PointHeld(s, p, t);
      }
      assert ScanFrom(s, p + 1, AfterDot(t)) == ScanFrom(s, p + 1 + |t.frac|, AfterPoint(t)) by {
        PointHeld(s, p, t);
        ScanHeldDigits(s, p + 1, t.frac, AfterDot(t));
        FillFraction(t);
      }
      assert |PointText(t)| == 1 + |t.frac|;
    }
  }

  /** The state after the sign, the integer part and the point. */
  function AfterDot(t: Token): Token { Token(t.negative, t.whole, true, [], false, false, []) }

  lemma FillFraction(t: Token)
    requires t.dot
    ensures AddDigits(AfterDot(t), t.frac) == AfterPoint(t)
  {
    assert [] + t.frac == t.frac;
  }

  /** Where a point and its fraction are held. */
  lemma PointHeld(s: string, p: nat, t: Token)
    requires t.dot && HoldsAt(s, p, PointText(t))
    ensures s[p] == '.' && HoldsAt(s, p + 1, t.frac)
  {
    var e := p + |PointText(t)|;
    PointTextParts(t);
    SubSlice(s, p, e, 0);
    SubSlice(s, p, e, 1);
  }

  /** A spelled token followed by a comma or the end scans back to itself. */
  lemma ScanSpelled(t: Token, rest: string)
    requires Canonical(t) && Follows(t, rest)
    ensures Scan(Spell(t) + rest) == (t, |Spell(t)|)
  {
    ScanSign(t, rest);
    ScanUnsigned(t, rest);
  }

  /** After the sign, the integer part is read, then the rest. */
  lemma ScanUnsigned(t: Token, rest: string)
    requires Canonical(t) && Follows(t, rest)
    ensures ScanFrom(Spell(t) + rest, |SignText(t)|, Signed(t)) == (t, |Spell(t)|)
  {
    SpelledLayout(t, rest);
    ScanLaidOut(Spell(t) + rest, |SignText(t)|, t);
  }

  /** The state after the sign. */
  function Signed(t: Token): Token { Token(t.negative, [], false, [], false, false, []) }

  /** A token laid out from position `w` on, up to a character it does not take. */
  lemma ScanLaidOut(s: string, w: nat, t: Token)
    requires Canonical(t) && HoldsAt(s, w, t.whole)
    requires HoldsAt(s, w + |t.whole|, PointText(t) + ExponentText(t))
    requires StopsAt(s, w + |t.whole| + |PointText(t)| + |ExponentText(t)|, t)
    ensures ScanFrom(s, w, Signed(t)) == (t, w + |t.whole| + |PointText(t)| + |ExponentText(t)|)
  {
    var p := w + |t.whole|;
    assert ScanFrom(s, w, Signed(t)) == ScanFrom(s, p, AfterWhole(t)) by {
      ScanHeldDigits(s, w, t.whole, Signed(t));
      FillWhole(t);
    }
    ScanPointText(s, p, t);
  }

  lemma FillWhole(t: Token)
    ensures AddDigits(Signed(t), t.whole) == AfterWhole(t)
  {
    assert [] + t.whole == t.whole;
  }

  /** Where the parts of a spelled token sit. */
  lemma SpelledLayout(t: Token, rest: string)
    requires Follows(t, rest)
    ensures |Spell(t)| == |SignText(t)| + |t.whole| + |PointText(t)| + |ExponentText(t)|
    ensures HoldsAt(Spell(t) + rest, |SignText(t)|, t.whole)
    ensures HoldsAt(Spell(t) + rest, |SignText(t)| + |t.whole|, PointText(t) + ExponentText(t))
    ensures StopsAt(Spell(t) + rest, |Spell(t)|, t)
  {
    var sign, whole, point, exponent := SignText(t), t.whole, PointText(t), ExponentText(t);
    var s := Spell(t) + rest;
    AppendAssoc(sign + whole, point, exponent);
    AppendAssoc(sign, whole, point + exponent);
    assert Spell(t) == sign + (whole + (point + exponent));
    PrefixHeld(Spell(t), rest);
    SplitSlice(s, 0, sign, whole + (point + exponent));
    SplitSlice(s, |sign|, whole, point + exponent);
  }

  lemma AppendAssoc(a: string, b: string, c: string)
    ensures (a + b) + c == a + (b + c)
  {
  }

  lemma PrefixHeld(x: string, y: string)
    ensures HoldsAt(x + y, 0, x)
    ensures |y| > 0 ==> (x + y)[|x|] == y[0]
  {
    assert (x + y)[..|x|] == x;
  }

  /** The sign of a spelled token is read first, and only when there is one. */
  lemma ScanSign(t: Token, rest: string)
    requires Canonical(t) && Follows(t, rest)
    ensures Scan(Spell(t) + rest) == ScanFrom(Spell(t) + rest, |SignText(t)|, Signed(t))
  {
    var s := Spell(t) + rest;
    SpellStart(t);
    assert s[0] == Spell(t)[0];
  }

  lemma SpellStart(t: Token)
    requires Canonical(t)
    ensures |Spell(t)| > 0
    ensures !IsWhitespace(Spell(t)[0]) && Spell(t)[0] != '(' && Spell(t)[0] != '+'
    ensures Spell(t)[0] == '-' <==> t.negative
  {
    var s := Spell(t);
    if t.negative {
      assert s[0] == '-';
    } else if |t.whole| > 0 {
      assert s[0] == t.whole[0];
    } else {
      assert s[0] == '.';
    }
  }

  /** Reading a spelled token after white space and before `rest`. */
  lemma {:induction false} ExtractSpelled(pad: string, t: Token, rest: string)
    requires AllWhitespace(pad) && Canonical(t) && Follows(t, rest)
    ensures InRange(Value(t)) ==> Extract(pad + Spell(t) + rest) == Some(Extracted(Value(t), rest, |rest| == 0))
    ensures !InRange(Value(t)) ==> Extract(pad + Spell(t) + rest) == None
  {
    var u := Spell(t) + rest;
    var s := pad + Spell(t) + rest;
    assert s == pad + u by {
      AppendAssoc(pad, Spell(t), rest);
    }
    assert LeadingWhitespace(s) == |pad| by {
      SpellStart(t);
      assert s[|pad|] == Spell(t)[0];
      LeadingIs(s, |pad|);
    }
    assert s[|pad|..] == u;
    ScanSpelled(t, rest);
    assert u[|Spell(t)|..] == rest;
  }

  /** "1e400" is well-formed but beyond the doubles, so its extraction
      fails. */
  lemma HugeValueRefused()
    ensures Extract("1e400") == None
  {
    var t := Token(false, "1", false, "", true, false, "400");
    HugeToken(t);
    Pow10Exceeds(400);
    ExtractSpelled("", t, "");
    assert "" + Spell(t) + "" == "1e400";
  }

  lemma HugeToken(t: Token)
    requires t == Token(false, "1", false, "", true, false, "400")
    ensures Canonical(t) && Spell(t) == "1e400" && Value(t) == Pow10(400)
  {
    assert DigitsValue("4") == 4;
    assert DigitsValue("40") == 40 by { assert "40"[..1] == "4"; }
    assert DigitsValue("400") == 400 by { assert "400"[..2] == "40"; }
  }

  /** Powers of ten from 10^309 on exceed every double. */
  lemma {:induction false} Pow10Exceeds(e: nat)
    requires e >= 309
    ensures Pow10(e) >= DoubleOverflow
  {
    if e > 309 {
      Pow10Exceeds(e - 1);
    } else {
      Pow10Literal();
    }
  }

  /** 10^309 by repeated squaring. */
  lemma Pow10Literal()
    ensures Pow10(309) == 1000000000000000000000000000000000000000000000000000000000000000000000000000000000000000000000000000000000000000000000000000000000000000000000000000000000000000000000000000000000000000000000000000000000000000000000000000000000000000000000000000000000000000000000000000000000000000000000000000000000000000000000.0
  {
    assert Pow10(1) == 10.0;
    Pow10Product(1, 1, 10.0, 10.0, 100.0);
    Pow10Product(2, 2, 100.0, 100.0, 10000.0);
    Pow10Product(4, 4, 10000.0, 10000.0, 100000000.0);
    Pow10Product(8, 8, 100000000.0, 100000000.0, 10000000000000000.0);
    Pow10Product(16, 16, 10000000000000000.0, 10000000000000000.0, 100000000000000000000000000000000.0);
    Pow10Product(32, 32, 100000000000000000000000000000000.0, 100000000000000000000000000000000.0, 10000000000000000000000000000000000000000000000000000000000000000.0);
    Pow10Product(64, 64, 10000000000000000000000000000000000000000000000000000000000000000.0, 10000000000000000000000000000000000000000000000000000000000000000.0, 100000000000000000000000000000000000000000000000000000000000000000000000000000000000000000000000000000000000000000000000000000000.0);
    Pow10Product(128, 128, 100000000000000000000000000000000000000000000000000000000000000000000000000000000000000000000000000000000000000000000000000000000.0, 100000000000000000000000000000000000000000000000000000000000000000000000000000000000000000000000000000000000000000000000000000000.0, 10000000000000000000000000000000000000000000000000000000000000000000000000000000000000000000000000000000000000000000000000000000000000000000000000000000000000000000000000000000000000000000000000000000000000000000000000000000000000000000000000000000000000000.0);
    Pow10Product(256, 32, 10000000000000000000000000000000000000000000000000000000000000000000000000000000000000000000000000000000000000000000000000000000000000000000000000000000000000000000000000000000000000000000000000000000000000000000000000000000000000000000000000000000000000000.0, 100000000000000000000000000000000.0, 1000000000000000000000000000000000000000000000000000000000000000000000000000000000000000000000000000000000000000000000000000000000000000000000000000000000000000000000000000000000000000000000000000000000000000000000000000000000000000000000000000000000000000000000000000000000000000000000000.0);
    Pow10Product(288, 16, 1000000000000000000000000000000000000000000000000000000000000000000000000000000000000000000000000000000000000000000000000000000000000000000000000000000000000000000000000000000000000000000000000000000000000000000000000000000000000000000000000000000000000000000000000000000000000000000000000.0, 10000000000000000.0, 10000000000000000000000000000000000000000000000000000000000000000000000000000000000000000000000000000000000000000000000000000000000000000000000000000000000000000000000000000000000000000000000000000000000000000000000000000000000000000000000000000000000000000000000000000000000000000000000000000000000000000.0);
    Pow10Product(304, 4, 10000000000000000000000000000000000000000000000000000000000000000000000000000000000000000000000000000000000000000000000000000000000000000000000000000000000000000000000000000000000000000000000000000000000000000000000000000000000000000000000000000000000000000000000000000000000000000000000000000000000000000.0, 10000.0, 100000000000000000000000000000000000000000000000000000000000000000000000000000000000000000000000000000000000000000000000000000000000000000000000000000000000000000000000000000000000000000000000000000000000000000000000000000000000000000000000000000000000000000000000000000000000000000000000000000000000000000000.0);
    Pow10Product(308, 1, 100000000000000000000000000000000000000000000000000000000000000000000000000000000000000000000000000000000000000000000000000000000000000000000000000000000000000000000000000000000000000000000000000000000000000000000000000000000000000000000000000000000000000000000000000000000000000000000000000000000000000000000.0, 10.0, 1000000000000000000000000000000000000000000000000000000000000000000000000000000000000000000000000000000000000000000000000000000000000000000000000000000000000000000000000000000000000000000000000000000000000000000000000000000000000000000000000000000000000000000000000000000000000000000000000000000000000000000000.0);
  }

  lemma Pow10Product(a: nat, b: nat, x: real, y: real, z: real)
    requires Pow10(a) == x && Pow10(b) == y && z == x * y
    ensures Pow10(a + b) == z
  {
    Pow10Add(a, b);
  }

  lemma {:induction false} Pow10Add(a: nat, b: nat)
    ensures Pow10(a + b) == Pow10(a) * Pow10(b)
  {
    if a > 0 {
      Pow10Add(a - 1, b);
    }
  }

  /** The white space in front of the first other character is what
      `LeadingWhitespace` counts. */
  lemma LeadingIs(s: string, k: nat)
    requires k < |s| && !IsWhitespace(s[k])
    requires forall i :: 0 <= i < k ==> IsWhitespace(s[i])
    ensures LeadingWhitespace(s) == k
  {
  }

  /** `ignore` discards junk without a comma and then the comma. */
  lemma IgnoreJunk(junk: string, more: string)
    requires |junk| <= IgnoreLimit && ',' !in junk
    ensures Ignore(junk + "," + more, IgnoreLimit, ',') == (more, false)
  {
    var s := junk + "," + more;
    assert s[|junk|] == ',';
    assert forall j :: 0 <= j < |junk| ==> s[j] == junk[j];
    assert IgnoreStop(s, IgnoreLimit, ',', 0) == |junk|;
    assert s[|junk| + 1..] == more;
  }

  /** Loop turns of `ReadValues`: the last one, which reaches the end, and
      one that continues after a comma. */
  lemma ReadValuesLast(s: string, x: Extracted)
    requires Extract(s) == Some(x)
    requires x.eof || Ignore(x.rest, IgnoreLimit, ',').1
    ensures ReadValues(s) == Some([x.value])
  {
  }

  lemma ReadValuesStep(s: string, x: Extracted, rest: string)
    requires Extract(s) == Some(x) && !x.eof
    requires Ignore(x.rest, IgnoreLimit, ',') == (rest, false)
    ensures ReadValues(s) == if ReadValues(rest).Some? then Some([x.value] + ReadValues(rest).value) else None
  {
  }

  /** The last entry, with or without a comma behind it. */
  lemma ReadItem(it: Item, more: string)
    requires Readable(it) && (|more| == 0 || more[0] == ',')
    ensures Extract(ItemText(it) + more)
      == Some(Extracted(Value(it.token), it.junk + more, |it.junk + more| == 0))
  {
    assert Follows(it.token, it.junk + more) by {
      if |it.junk| > 0 {
        assert (it.junk + more)[0] == it.junk[0];
      }
    }
    assert ItemText(it) + more == it.pad + Spell(it.token) + (it.junk + more) by {
      AppendAssoc(it.pad + Spell(it.token), it.junk, more);
    }
    ExtractSpelled(it.pad, it.token, it.junk + more);
  }

  /** The value list written by `Join` is read back in order. */
  lemma {:induction false} ReadJoined(items: seq<Item>)
    requires |items| > 0
    requires forall it <- items :: Readable(it)
    ensures ReadValues(Join(items)) == Some(Values(items))
    decreases |items|
  {
    var it := items[0];
    assert Readable(it);
    var v := Value(it.token);
    if |items| == 1 {
      var x := Extracted(v, it.junk, |it.junk| == 0);
      assert Extract(Join(items)) == Some(x) by {
        ReadItem(it, "");
        assert ItemText(it) + "" == ItemText(it);
        assert it.junk + "" == it.junk;
      }
      ReadValuesLast(Join(items), x);
      assert Values(items) == [v] by {
        assert |items[1..]| == 0;
      }
    } else {
      var more := Join(items[1..]);
      var x := Extracted(v, it.junk + ("," + more), false);
      assert Extract(Join(items)) == Some(x) by {
        ReadItem(it, "," + more);
        AppendAssoc(ItemText(it), ",", more);
      }
      assert Ignore(x.rest, IgnoreLimit, ',') == (more, false) by {
        IgnoreJunk(it.junk, more);
        AppendAssoc(it.junk, ",", more);
      }
      assert ReadValues(more) == Some(Values(items[1..])) by {
        ReadJoined(items[1..]);
      }
      ReadValuesStep(Join(items), x, more);
      assert Values(items) == [v] + Values(items[1..]);
    }
  }

  /** A comma after the last entry makes the next read hit the end. */
  lemma {:induction false} ReadJoinedComma(items: seq<Item>)
    requires |items| > 0
    requires forall it <- items :: Readable(it)
    ensures ReadValues(Join(items) + ",") == None
    decreases |items|
  {
    var it := items[0];
    assert Readable(it);
    var more := if |items| == 1 then "" else Join(items[1..]) + ",";
    var x := Extracted(Value(it.token), it.junk + ("," + more), false);
    assert Extract(Join(items) + ",") == Some(x) by {
      ReadItem(it, "," + more);
      if |items| == 1 {
        assert Join(items) + "," == ItemText(it) + ("," + more);
      } else {
        AppendAssoc(ItemText(it), ",", Join(items[1..]));
        AppendAssoc(ItemText(it), "," + Join(items[1..]), ",");
        AppendAssoc(",", Join(items[1..]), ",");
      }
    }
    assert Ignore(x.rest, IgnoreLimit, ',') == (more, false) by {
      IgnoreJunk(it.junk, more);
      AppendAssoc(it.junk, ",", more);
    }
    assert ReadValues(more) == None by {
      if |items| == 1 {
        assert Extract(more) == None;
      } else {
        ReadJoinedComma(items[1..]);
      }
    }
    ReadValuesStep(Join(items) + ",", x, more);
  }

  // ---------------------------------------------------------------------
  // What parse_parameter_string makes of whole descriptions

  lemma FirstDelimiterIs(s: string, a: nat, e: nat)
    requires a <= e <= |s| && (e < |s| ==> IsNameDelimiter(s[e]))
    requires forall i :: a <= i < e ==> !IsNameDelimiter(s[i])
    ensures FirstDelimiter(s, a) == e
  {
  }

  lemma LastIs(s: string, k: nat)
    requires k < |s| && !IsWhitespace(s[k])
    requires forall i :: k < i < |s| ==> IsWhitespace(s[i])
    ensures LastNotWhitespace(s, |s|) == Some(k)
  {
  }

  /** With the first non-blank character at `a` and the name ending at `e`,
      the result is that name and whatever follows it yields. */
  lemma ParseAt(s: string, a: nat, e: nat)
    requires a < |s| && !IsWhitespace(s[a])
    requires forall i :: 0 <= i < a ==> IsWhitespace(s[i])
    requires a <= e <= |s| && (e < |s| ==> IsNameDelimiter(s[e]))
    requires forall i :: a <= i < e ==> !IsNameDelimiter(s[i])
    ensures ValuesAfterName(s, e).Ok? ==>
      ParseParameterString(s) == Ok(Described(s[a..e], ValuesAfterName(s, e).value))
    ensures ValuesAfterName(s, e).Err? ==> ParseParameterString(s) == Err(ParseError(s))
  {
    LeadingIs(s, a);
    FirstDelimiterIs(s, a, e);
  }

  /** A parenthesis right after the name that closes at the last non-blank
      character: the values are those read from between the two. */
  lemma ListAt(s: string, e: nat, end: nat)
    requires e < end < |s| && s[e] == '(' && s[end] == ')'
    requires forall i :: end < i < |s| ==> IsWhitespace(s[i])
    ensures ValuesAfterName(s, e) == ReadList(s, s[e + 1..end])
  {
    LastIs(s, end);
    assert FirstNotWhitespace(s, e) == Some(e);
    ListBetween(s, e, end);
  }

  lemma ListBetween(s: string, e: nat, end: nat)
    requires e < end < |s| && s[e] == '(' && s[end] == ')'
    requires FirstNotWhitespace(s, e) == Some(e) && LastNotWhitespace(s, |s|) == Some(end)
    ensures ValuesAfterName(s, e) == ReadList(s, s[e + 1..end])
  {
  }

  /** Where the parts of `lead + name + "(" + inner + ")" + trail` sit. */
  lemma ListLayout(lead: string, name: string, inner: string, trail: string)
    ensures var s := lead + (name + "(" + inner + ")") + trail;
      var a, e := |lead|, |lead| + |name|;
      var end := e + 1 + |inner|;
      && |s| == end + 1 + |trail|
      && (forall i :: 0 <= i < a ==> s[i] == lead[i])
      && (forall i :: a <= i < e ==> s[i] == name[i - a])
      && s[e] == '(' && s[e + 1..end] == inner && s[end] == ')'
      && (forall i :: end < i < |s| ==> s[i] == trail[i - end - 1])
  {
    var s := lead + (name + "(" + inner + ")") + trail;
    var e := |lead| + |name|;
    assert s == lead + name + "(" + inner + ")" + trail;
    assert s[e + 1..e + 1 + |inner|] == inner;
  }

  /** Describing a name and a list of entries, with white space around, is
      read back as the name and the entries' numbers in order; no entries
      give "name()", read back as the empty list. */
  lemma DescribeRoundTrip(lead: string, name: string, items: seq<Item>, trail: string)
    requires AllWhitespace(lead) && AllWhitespace(trail) && IsName(name)
    requires forall it <- items :: Readable(it)
    ensures ParseParameterString(lead + Describe(name, items) + trail) == Ok(Described(name, Values(items)))
  {
    var inner := Join(items);
    var s := lead + Describe(name, items) + trail;
    var e := |lead| + |name|;
    assert ReadList(s, inner) == Ok(Values(items)) by {
      if |items| > 0 {
        assert Readable(items[0]);
        SpellStart(items[0].token);
        ItemTextLength(items);
        ReadJoined(items);
      }
    }
    ParseDescription(lead, name, inner, trail);
  }

  /** `lead + name + "(" + inner + ")" + trail` is read as the name and
      the values read from `inner`. */
  lemma ParseDescription(lead: string, name: string, inner: string, trail: string)
    requires AllWhitespace(lead) && AllWhitespace(trail) && IsName(name)
    ensures var s := lead + (name + "(" + inner + ")") + trail;
      && (ReadList(s, inner).Ok? ==> ParseParameterString(s) == Ok(Described(name, ReadList(s, inner).value)))
      && (ReadList(s, inner).Err? ==> ParseParameterString(s) == Err(ParseError(s)))
  {
    var s := lead + (name + "(" + inner + ")") + trail;
    var e := |lead| + |name|;
    ListLayout(lead, name, inner, trail);
    NameAt(lead, name, "(" + inner + ")" + trail);
    assert s == lead + name + ("(" + inner + ")" + trail);
    ParseListAt(s, |lead|, e, e + 1 + |inner|, name, inner);
  }

  /** A name followed by a parenthesised list that closes at the last
      non-blank character. */
  lemma ParseListAt(s: string, a: nat, e: nat, end: nat, name: string, inner: string)
    requires a < |s| && !IsWhitespace(s[a])
    requires forall i :: 0 <= i < a ==> IsWhitespace(s[i])
    requires a <= e < end < |s| && s[e] == '(' && s[end] == ')'
    requires forall i :: a <= i < e ==> !IsNameDelimiter(s[i])
    requires forall i :: end < i < |s| ==> IsWhitespace(s[i])
    requires s[a..e] == name && s[e + 1..end] == inner
    ensures ReadList(s, inner).Ok? ==> ParseParameterString(s) == Ok(Described(name, ReadList(s, inner).value))
    ensures ReadList(s, inner).Err? ==> ParseParameterString(s) == Err(ParseError(s))
  {
    ListAt(s, e, end);
    ParseAt(s, a, e);
  }

  /** Where a name behind white space and in front of a delimiter sits. */
  lemma NameAt(lead: string, name: string, tail: string)
    requires AllWhitespace(lead) && IsName(name) && |name| + |tail| > 0
    requires |tail| > 0 ==> IsNameDelimiter(tail[0])
    requires |name| == 0 ==> !IsWhitespace(tail[0])
    ensures var s := lead + name + tail;
      var a, e := |lead|, |lead| + |name|;
      && a < |s| && !IsWhitespace(s[a])
      && (forall i :: 0 <= i < a ==> IsWhitespace(s[i]))
      && e <= |s| && (e < |s| ==> IsNameDelimiter(s[e]))
      && (forall i :: a <= i < e ==> !IsNameDelimiter(s[i]))
      && s[a..e] == name
  {
    var s := lead + name + tail;
    var a, e := |lead|, |lead| + |name|;
    assert forall i :: 0 <= i < a ==> s[i] == lead[i];
    assert forall i :: a <= i < e ==> s[i] == name[i - a];
    assert e < |s| ==> s[e] == tail[0];
    assert s[a..e] == name;
  }

  lemma ItemTextLength(items: seq<Item>)
    requires |items| > 0
    ensures |Join(items)| >= |Spell(items[0].token)|
  {
  }

  /** A name with only white space around it has no values. */
  lemma BareName(lead: string, name: string, trail: string)
    requires AllWhitespace(lead) && AllWhitespace(trail) && IsName(name) && |name| > 0
    ensures ParseParameterString(lead + name + trail) == Ok(Described(name, []))
  {
    var s := lead + name + trail;
    var e := |lead| + |name|;
    assert ValuesAfterName(s, e) == Ok([]) by {
      assert forall i :: e <= i < |s| ==> s[i] == trail[i - e];
    }
    NameAt(lead, name, trail);
    ParseAt(s, |lead|, e);
  }

  /** A comma after the last entry is an error. */
  lemma TrailingCommaRejected(lead: string, name: string, items: seq<Item>, trail: string)
    requires AllWhitespace(lead) && AllWhitespace(trail) && IsName(name) && |items| > 0
    requires forall it <- items :: Readable(it)
    ensures var s := lead + (name + "(" + (Join(items) + ",") + ")") + trail;
      ParseParameterString(s) == Err(ParseError(s))
  {
    var inner := Join(items) + ",";
    var s := lead + (name + "(" + inner + ")") + trail;
    var e := |lead| + |name|;
    assert ReadList(s, inner) == Err(ParseError(s)) by {
      ReadJoinedComma(items);
    }
    ParseDescription(lead, name, inner, trail);
  }

  /** Something other than '(' right after the name, with more than white
      space somewhere behind it, is an error. */
  lemma NotOpened(s: string, e: nat, k: nat)
    requires e <= k < |s| && !IsWhitespace(s[k]) && s[e] != '('
    ensures ValuesAfterName(s, e) == Err(ParseError(s))
  {
    assert FirstNotWhitespace(s, e).Some?;
  }

  /** A last non-blank character other than ')' behind the name is an error. */
  lemma NotClosed(s: string, e: nat, k: nat)
    requires e <= k < |s| && !IsWhitespace(s[k]) && s[k] != ')'
    requires forall i :: k < i < |s| ==> IsWhitespace(s[i])
    ensures ValuesAfterName(s, e) == Err(ParseError(s))
  {
    assert FirstNotWhitespace(s, e).Some?;
    LastIs(s, k);
  }

  /** White space between the name and what follows is an error, as in
      "foo bar" or "foo  (1.0)": the name is `s[a..e]` behind blank
      `s[..a]`, and `s[e..k]` is blank up to a non-blank `s[k]`. */
  lemma SpaceBeforeListRejected(s: string, a: nat, e: nat, k: nat)
    requires a < e < k < |s|
    requires forall i :: 0 <= i < a ==> IsWhitespace(s[i])
    requires forall i :: a <= i < e ==> !IsNameDelimiter(s[i])
    requires forall i :: e <= i < k ==> IsWhitespace(s[i])
    requires !IsWhitespace(s[k])
    ensures ParseParameterString(s) == Err(ParseError(s))
  {
    assert IsNameDelimiter(s[e]) && !IsNameDelimiter(s[a]);
    NotOpened(s, e, k);
    ParseAt(s, a, e);
  }

  /** A list that is not closed by ')' at the last non-blank character is an
      error, as in "foo(", "foo)(", "foo(bar" or "foo(1.0, 2.0) --baz": the
      name is `s[a..e]` up to a delimiter `s[e]`, and `s[k]` is the last
      non-blank character but not ')'. */
  lemma UnclosedRejected(s: string, a: nat, e: nat, k: nat)
    requires a <= e <= k < |s| && !IsWhitespace(s[a]) && IsNameDelimiter(s[e])
    requires forall i :: 0 <= i < a ==> IsWhitespace(s[i])
    requires forall i :: a <= i < e ==> !IsNameDelimiter(s[i])
    requires !IsWhitespace(s[k]) && s[k] != ')'
    requires forall i :: k < i < |s| ==> IsWhitespace(s[i])
    ensures ParseParameterString(s) == Err(ParseError(s))
  {
    NotClosed(s, e, k);
    ParseAt(s, a, e);
  }
}
