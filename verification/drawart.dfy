/** The arithmetic of the state-drawing script (`scripts/itp_draw_art.py`):
    reading the state indices from the command line, checking the slot,
    choosing which states to draw, cutting them to a square number, laying
    them out as a mosaic of tiles, and naming the output images. Reading
    the data file and painting pixels are not modelled; the attributes the
    script reads from the file are a parameter. */
module DrawArt {
  import opened Util
  import PathNames
  import Parser
  import Layouts

  /** Why the script stops. The first three are `parser.error` calls; the
      fourth is the division by zero columns when there is nothing to draw;
      the last two are exceptions in the drawing loop: reading a state the
      file does not hold, and formatting a per-state image name whose
      template has a stray '%'. */
  datatype DrawError =
    | NotANumber(arg: string)
    | Negative(arg: string)
    | InvalidSlot(slot: int, slots: nat)
    | EmptyMosaic
    | NoSuchState(index: nat, states: nat)
    | BadNameTemplate(combined: string)

  // ---------------------------------------------------------------------
  // Decimal numbers

  function Digit(d: nat): (c: char)
    requires d < 10
    ensures Parser.IsDigit(c) && Parser.DigitValue(c) == d
  {
    ('0' as int + d) as char
  }

  /** The decimal spelling of n (`"%d"`), without leading zeros. */
  function Decimal(n: nat): (s: string)
    ensures |s| > 0 && Parser.AllDigits(s)
    ensures Parser.DigitsValue(s) == n
    ensures s[0] == '0' ==> n == 0
  {
    if n < 10 then [Digit(n)]
    else
      var s := Decimal(n / 10) + [Digit(n % 10)];
      assert s[..|s| - 1] == Decimal(n / 10);
      s
  }

  /** Different numbers are spelled differently. */
  lemma DecimalInjective(i: nat, j: nat)
    ensures Decimal(i) == Decimal(j) ==> i == j
  {
    if Decimal(i) == Decimal(j) {
      assert Parser.DigitsValue(Decimal(i)) == Parser.DigitsValue(Decimal(j));
    }
  }

  /** The number of decimal digits at the start of s. */
  function DigitRun(s: string): (k: nat)
    ensures k <= |s| && Parser.AllDigits(s[..k])
    ensures k < |s| ==> !Parser.IsDigit(s[k])
  {
    if |s| == 0 || !Parser.IsDigit(s[0]) then 0
    else
      var k := DigitRun(s[1..]);
      assert s[..k + 1] == [s[0]] + s[1..][..k];
      k + 1
  }

  predicate Blank(s: string)
  {
    forall i | 0 <= i < |s| :: Parser.IsWhitespace(s[i])
  }

  /** The string after its leading white space. */
  function SkipSpace(s: string): string
  {
    if |s| > 0 && Parser.IsWhitespace(s[0]) then SkipSpace(s[1..]) else s
  }

  /** Python 2's `int()` on a string: optional white space, an optional
      sign, optional white space again, at least one decimal digit, and
      optional trailing white space; anything else is a ValueError. */
  function ParseInt(s: string): Option<int>
  {
    var t := SkipSpace(s);
    if |t| > 0 && (t[0] == '+' || t[0] == '-') then Negate(t[0] == '-', ParseDigits(SkipSpace(t[1..])))
    else Negate(false, ParseDigits(t))
  }

  function Negate(negative: bool, o: Option<nat>): Option<int>
  {
    match o
    case None => None
    case Some(v) => Some(if negative then -(v as int) else v)
  }

  /** Decimal digits, then nothing but white space. */
  function ParseDigits(d: string): (r: Option<nat>)
    ensures r.Some? ==> |d| > 0 && Parser.IsDigit(d[0])
  {
    var k := DigitRun(d);
    if k == 0 || !Blank(d[k..]) then None else Some(Parser.DigitsValue(d[..k]))
  }

  /** Skipping a blank prefix lands on what follows it. */
  lemma {:induction false} SkipBlank(pre: string, rest: string)
    requires Blank(pre)
    requires |rest| == 0 || !Parser.IsWhitespace(rest[0])
    ensures SkipSpace(pre + rest) == rest
  {
    if |pre| > 0 {
      assert (pre + rest)[0] == pre[0];
      assert (pre + rest)[1..] == pre[1..] + rest;
      SkipBlank(pre[1..], rest);
    } else {
      assert pre + rest == rest;
    }
  }

  /** The digit run of a decimal spelling followed by a non-digit ends with
      the spelling. */
  lemma {:induction false} DigitRunOf(ds: string, rest: string)
    requires Parser.AllDigits(ds)
    requires |rest| == 0 || !Parser.IsDigit(rest[0])
    ensures DigitRun(ds + rest) == |ds|
  {
    if |ds| > 0 {
      assert (ds + rest)[1..] == ds[1..] + rest;
      DigitRunOf(ds[1..], rest);
    } else {
      assert ds + rest == rest;
    }
  }

  /** The digits of a number followed by white space read back. */
  lemma ReadDigits(n: nat, post: string)
    requires Blank(post)
    ensures ParseDigits(Decimal(n) + post) == Some(n)
  {
    var ds := Decimal(n);
    var d := ds + post;
    assert |post| > 0 ==> Parser.IsWhitespace(post[0]);
    DigitRunOf(ds, post);
    assert d[|ds|..] == post;
    assert d[..|ds|] == ds;
  }

  /** Text starting with a digit after the white space is read unsigned. */
  lemma UnsignedText(s: string, t: string)
    requires SkipSpace(s) == t && |t| > 0 && Parser.IsDigit(t[0])
    ensures ParseInt(s) == Negate(false, ParseDigits(t))
  {
  }

  /** Text starting with a sign after the white space is read signed. */
  lemma SignedText(s: string, t: string)
    requires SkipSpace(s) == t && |t| > 0 && (t[0] == '+' || t[0] == '-')
    ensures ParseInt(s) == Negate(t[0] == '-', ParseDigits(SkipSpace(t[1..])))
  {
  }

  /** A number written in decimal with white space around it reads back. */
  lemma ParseUnsigned(pre: string, n: nat, post: string)
    requires Blank(pre) && Blank(post)
    ensures ParseInt(pre + Decimal(n) + post) == Some(n)
  {
    var t := Decimal(n) + post;
    assert pre + Decimal(n) + post == pre + t;
    assert t[0] == Decimal(n)[0];
    SkipBlank(pre, t);
    UnsignedText(pre + t, t);
    ReadDigits(n, post);
  }

  /** So does one after a sign, with white space around the sign. */
  lemma ParseSigned(pre: string, sign: char, mid: string, n: nat, post: string)
    requires Blank(pre) && Blank(mid) && Blank(post)
    requires sign == '+' || sign == '-'
    ensures ParseInt(pre + [sign] + mid + Decimal(n) + post) == Some(if sign == '-' then -(n as int) else n)
  {
    var d := Decimal(n) + post;
    var u := mid + d;
    var t := [sign] + u;
    assert pre + [sign] + mid + Decimal(n) + post == pre + t;
    SkipBlank(pre, t);
    assert t[1..] == u;
    SignedText(pre + t, t);
    assert d[0] == Decimal(n)[0];
    SkipBlank(mid, d);
    ReadDigits(n, post);
  }

  /** A character that is neither a digit nor white space after the digits
      makes the argument unreadable, as in "1.5" or "3x". */
  lemma ParseTrailingJunk(n: nat, c: char, rest: string)
    requires !Parser.IsDigit(c) && !Parser.IsWhitespace(c)
    ensures ParseInt(Decimal(n) + [c] + rest) == None
  {
    var t := Decimal(n) + ([c] + rest);
    assert Decimal(n) + [c] + rest == [] + t;
    assert t[0] == Decimal(n)[0];
    SkipBlank([], t);
    UnsignedText(t, t);
    JunkAfterDigits(Decimal(n), c, rest);
  }

  lemma JunkAfterDigits(ds: string, c: char, rest: string)
    requires |ds| > 0 && Parser.AllDigits(ds)
    requires !Parser.IsDigit(c) && !Parser.IsWhitespace(c)
    ensures ParseDigits(ds + ([c] + rest)) == None
  {
    var t := ds + ([c] + rest);
    DigitRunOf(ds, [c] + rest);
    assert t[|ds|..][0] == c;
  }

  // ---------------------------------------------------------------------
  // Index arguments

  /** One positional index: a number, and not a negative one. */
  function ParseIndex(arg: string): (r: Result<nat, DrawError>)
    ensures r.Ok? ==> ParseInt(arg) == Some(r.value as int)
    ensures r.Err? ==> r.error == NotANumber(arg) || r.error == Negative(arg)
    ensures r.Err? && r.error.Negative? <==> ParseInt(arg).Some? && ParseInt(arg).value < 0
  {
    match ParseInt(arg)
    case None => Err(NotANumber(arg))
    case Some(v) => if v < 0 then Err(Negative(arg)) else Ok(v)
  }

  /** Every number's spelling is accepted as that index, "-0" included,
      and a minus sign before anything else is refused. */
  lemma IndexRoundTrip(n: nat)
    ensures ParseIndex(Decimal(n)) == Ok(n)
    ensures ParseIndex("-" + Decimal(n)) == if n == 0 then Ok(0) else Err(Negative("-" + Decimal(n)))
  {
    UnsignedRoundTrip(n);
    IndexOfParsed(Decimal(n), n);
    MinusRoundTrip(n);
    IndexOfParsed("-" + Decimal(n), -(n as int));
  }

  lemma IndexOfParsed(arg: string, v: int)
    requires ParseInt(arg) == Some(v)
    ensures ParseIndex(arg) == if v < 0 then Err(Negative(arg)) else Ok(v)
  {
  }

  lemma UnsignedRoundTrip(n: nat)
    ensures ParseInt(Decimal(n)) == Some(n)
  {
    ParseUnsigned([], n, []);
    assert [] + Decimal(n) + [] == Decimal(n);
  }

  lemma MinusRoundTrip(n: nat)
    ensures ParseInt("-" + Decimal(n)) == Some(-(n as int))
  {
    ParseSigned([], '-', [], n, []);
    assert [] + ['-'] + [] + Decimal(n) + [] == "-" + Decimal(n);
  }

  /** The loop over the positional arguments after the data file: the
      indices in order, or the error of the first argument that fails. */
  function ParseIndices(args: seq<string>): (r: Result<seq<nat>, DrawError>)
    ensures r.Ok? <==> forall i | 0 <= i < |args| :: ParseIndex(args[i]).Ok?
    ensures r.Ok? ==> |r.value| == |args|
    ensures r.Ok? ==> forall i | 0 <= i < |args| :: ParseIndex(args[i]) == Ok(r.value[i])
    ensures r.Err? ==> exists i | 0 <= i < |args| ::
      && ParseIndex(args[i]) == Err(r.error)
      && forall j | 0 <= j < i :: ParseIndex(args[j]).Ok?
  {
    ParseEach(args, ParseIndex)
  }

  /** Each argument read in turn, stopping at the first failure. */
  function ParseEach(args: seq<string>, parse: string -> Result<nat, DrawError>): (r: Result<seq<nat>, DrawError>)
    ensures r.Ok? <==> forall i | 0 <= i < |args| :: parse(args[i]).Ok?
    ensures r.Ok? ==> |r.value| == |args|
    ensures r.Ok? ==> forall i | 0 <= i < |args| :: parse(args[i]) == Ok(r.value[i])
    ensures r.Err? ==> exists i | 0 <= i < |args| ::
      && parse(args[i]) == Err(r.error)
      && forall j | 0 <= j < i :: parse(args[j]).Ok?
  {
    if |args| == 0 then Ok([])
    else
      match parse(args[0])
      case Err(e) => Err(e)
      case Ok(k) =>
        match ParseEach(args[1..], parse)
        case Err(e) =>
          ghost var i :| 0 <= i < |args[1..]| && parse(args[1..][i]) == Err(e)
            && forall j | 0 <= j < i :: parse(args[1..][j]).Ok?;
          assert parse(args[i + 1]) == Err(e);
          Err(e)
        case Ok(ks) => Ok([k] + ks)
  }

  // ---------------------------------------------------------------------
  // The slot

  /** The slot check: a slot from 0 counts from the first stored set of
      states and must be below their number; a negative one counts back
      from the last and its magnitude must not exceed it. The result is
      the set Python's indexing selects. */
  function ResolveSlot(slot: int, slots: nat): (r: Result<nat, DrawError>)
    ensures r.Ok? <==> -(slots as int) <= slot < slots
    ensures r.Err? ==> r.error == InvalidSlot(slot, slots)
    ensures r.Ok? ==> r.value < slots && (r.value - slot) % slots == 0
  {
    if (slot >= 0 && slot >= slots) || (slot < 0 && -slot > slots) then Err(InvalidSlot(slot, slots))
    else Ok(if slot >= 0 then slot else slots + slot)
  }

  /** The default slot -1 is the last stored set, and there is none in an
      empty file. */
  lemma DefaultSlotIsLast(slots: nat)
    ensures ResolveSlot(-1, slots) == if slots == 0 then Err(InvalidSlot(-1, 0)) else Ok(slots - 1)
  {
  }

  // ---------------------------------------------------------------------
  // Which states are drawn

  /** `range(k)`. */
  function Range(k: nat): (r: seq<nat>)
    ensures |r| == k && forall i | 0 <= i < k :: r[i] == i
  {
    if k == 0 then [] else Range(k - 1) + [k - 1]
  }

  /** The attributes the script reads from the data file. */
  datatype Attributes = Attributes(
    numStates: nat, slots: nat, gridX: nat, gridY: nat,
    wantedToConverge: nat, ignoreLowest: nat)

  /** The indices given on the command line, else every state with --all,
      else the states that were meant to converge and the ignored lowest
      ones. */
  function Select(indices: seq<nat>, all: bool, a: Attributes): (r: seq<nat>)
    ensures |indices| > 0 ==> r == indices
    ensures |indices| == 0 ==> forall i | 0 <= i < |r| :: r[i] == i
    ensures |indices| == 0 ==> |r| == if all then a.numStates else a.wantedToConverge + a.ignoreLowest
  {
    if |indices| > 0 then indices
    else if all then Range(a.numStates)
    else Range(a.wantedToConverge + a.ignoreLowest)
  }

  /** Without explicit indices every selected state exists in the file
      exactly when --all is given or the file holds at least the states
      meant to converge and the ignored ones. */
  lemma SelectionExists(all: bool, a: Attributes)
    ensures (forall i | 0 <= i < |Select([], all, a)| :: Select([], all, a)[i] < a.numStates)
      <==> all || a.wantedToConverge + a.ignoreLowest <= a.numStates
  {
    var r := Select([], all, a);
    if !all && a.wantedToConverge + a.ignoreLowest > a.numStates {
      assert r[a.numStates] == a.numStates;
    }
  }

  // ---------------------------------------------------------------------
  // The square cut and the grid

  /** The integer square root: the largest r with r * r <= n. */
  function ISqrt(n: nat): (r: nat)
    ensures r * r <= n < (r + 1) * (r + 1)
  {
    if n == 0 then 0
    else
      var s := ISqrt(n - 1);
      if (s + 1) * (s + 1) <= n then s + 1 else s
  }

  /** No other number satisfies the bounds. */
  lemma ISqrtUnique(n: nat, r: nat)
    requires r * r <= n < (r + 1) * (r + 1)
    ensures r == ISqrt(n)
  {
    var s := ISqrt(n);
    if r < s {
      Layouts.MultiplyMonotone(r + 1, s, r + 1);
      Layouts.MultiplyMonotone(r + 1, s, s);
    } else if s < r {
      Layouts.MultiplyMonotone(s + 1, r, s + 1);
      Layouts.MultiplyMonotone(s + 1, r, r);
    }
  }

  /** --square: the selection cut to the largest perfect square. */
  function Square(sel: seq<nat>): (r: seq<nat>)
    ensures |r| <= |sel| && r == sel[..|r|]
    ensures |r| == ISqrt(|sel|) * ISqrt(|sel|)
  {
    var k := ISqrt(|sel|);
    sel[..k * k]
  }

  /** No larger square fits into the selection. */
  lemma SquareIsLargest(sel: seq<nat>, m: nat)
    requires m * m <= |sel|
    ensures m * m <= |Square(sel)|
  {
    var r := ISqrt(|sel|);
    if m > r {
      Layouts.MultiplyMonotone(r + 1, m, r + 1);
      Layouts.MultiplyMonotone(r + 1, m, m);
    } else {
      Layouts.MultiplyMonotone(m, r, m);
      Layouts.MultiplyMonotone(m, r, r);
    }
  }

  /** The mosaic: floor(sqrt(n)) columns and ceil(n / columns) rows, so
      that every state has a tile and only the last row has gaps. With
      nothing to draw the columns are zero and the division fails. */
  function Grid(n: nat): (r: Result<(nat, nat), DrawError>)
    ensures r.Ok? <==> n > 0
    ensures r.Err? ==> r.error == EmptyMosaic
    ensures r.Ok? ==> var (columns, rows) := r.value;
      && columns > 0 && columns * columns <= n < (columns + 1) * (columns + 1)
      && n <= rows * columns < n + columns
  {
    if n == 0 then Err(EmptyMosaic)
    else
      var c := ISqrt(n);
      var q, m := (n + c - 1) / c, (n + c - 1) % c;
      assert n + c - 1 == q * c + m;
      Ok((c, q))
  }

  /** The mosaic is nearly square: at least as many rows as columns and at
      most two more. */
  lemma GridNearlySquare(n: nat)
    requires n > 0
    ensures var (columns, rows) := Grid(n).value;
      columns <= rows <= columns + 2
  {
    var (c, rows) := Grid(n).value;
    if rows < c {
      Layouts.MultiplyMonotone(rows + 1, c, c);
    }
    if rows > c + 2 {
      Layouts.MultiplyMonotone(c + 3, rows, c);
    }
  }

  /** The top-left corner of tile k, filled row by row. */
  function Tile(k: nat, columns: nat, mx: nat, my: nat): (t: (nat, nat))
    requires columns > 0
    ensures t.0 + mx <= columns * mx
  {
    ColumnInside(k, columns, mx);
    ((k % columns) * mx, (k / columns) * my)
  }

  lemma ColumnInside(k: nat, c: nat, mx: nat)
    requires c > 0
    ensures (k % c) * mx + mx <= c * mx
  {
    var r := k % c;
    Layouts.MultiplyMonotone(r + 1, c, mx);
    assert (r + 1) * mx == r * mx + mx;
  }

  /** Every tile of a drawn state lies inside the canvas of columns * Mx
      by rows * My pixels. */
  lemma TileInside(k: nat, n: nat, mx: nat, my: nat)
    requires k < n
    ensures var (columns, rows) := Grid(n).value;
      && Tile(k, columns, mx, my).0 + mx <= columns * mx
      && Tile(k, columns, mx, my).1 + my <= rows * my
  {
    var (c, rows) := Grid(n).value;
    RowInside(k, c, rows);
    Layouts.MultiplyMonotone(k / c + 1, rows, my);
  }

  /** An entry before rows * c sits in one of the first rows rows. */
  lemma RowInside(k: nat, c: nat, rows: nat)
    requires c > 0 && k < rows * c
    ensures k / c < rows
  {
    var q, r := k / c, k % c;
    var p := q * c;
    assert k == p + r;
    if q >= rows {
      Layouts.MultiplyMonotone(rows, q, c);
    }
  }

  /** Two rectangles of Mx by My pixels with these corners do not overlap. */
  predicate Apart(a: (nat, nat), b: (nat, nat), mx: nat, my: nat)
  {
    a.0 + mx <= b.0 || b.0 + mx <= a.0 || a.1 + my <= b.1 || b.1 + my <= a.1
  }

  /** Different states get tiles that do not overlap. */
  lemma TilesApart(k1: nat, k2: nat, columns: nat, mx: nat, my: nat)
    requires columns > 0 && mx > 0 && my > 0 && k1 != k2
    ensures Apart(Tile(k1, columns, mx, my), Tile(k2, columns, mx, my), mx, my)
  {
    var c := columns;
    var q1, r1, q2, r2 := k1 / c, k1 % c, k2 / c, k2 % c;
    assert k1 == q1 * c + r1 && k2 == q2 * c + r2;
    if r1 != r2 {
      Separated(r1, r2, mx);
    } else {
      Separated(q1, q2, my);
    }
  }

  /** Multiples of m by different numbers are at least m apart. */
  lemma Separated(a: nat, b: nat, m: nat)
    requires a != b
    ensures a * m + m <= b * m || b * m + m <= a * m
  {
    if a < b {
      Layouts.MultiplyMonotone(a + 1, b, m);
    } else {
      Layouts.MultiplyMonotone(b + 1, a, m);
    }
  }

  // ---------------------------------------------------------------------
  // Output names

  const DefaultDataFile := "data/itp2d.h5"

  /** The data file: the first positional argument, or the default. */
  function DataFile(args: seq<string>): (r: string)
    ensures |args| > 0 ==> r == args[0]
    ensures |args| == 0 ==> r == DefaultDataFile
  {
    if |args| > 0 then args[0] else DefaultDataFile
  }

  /** The combined image: the --output name if it is given and not empty,
      otherwise the data file with its extension replaced by ".png". */
  function OutputName(output: Option<string>, dataFile: string): (r: string)
    ensures output.Some? && output.value != "" ==> r == output.value
  {
    if output.Some? && output.value != "" then output.value
    else PathNames.SplitExt(dataFile).0 + ".png"
  }

  /** A data file name's extension gives way to ".png"; by default the
      image is data/itp2d.png. */
  lemma DefaultOutputName(stem: string, ext: string)
    requires |stem| > 0 && stem[|stem| - 1] != '/' && stem[|stem| - 1] != '.'
    requires |ext| > 0 && ext[0] == '.' && '.' !in ext[1..] && '/' !in ext
    ensures OutputName(None, stem + ext) == stem + ".png"
    ensures OutputName(Some(""), stem + ext) == stem + ".png"
  {
    PathNames.SplitExtJoined(stem, ext);
  }

  /** Without arguments the image is data/itp2d.png. */
  lemma DefaultImage()
    ensures OutputName(None, DataFile([])) == "data/itp2d.png"
  {
    var stem, ext := "data/itp2d", ".h5";
    assert stem + ext == DefaultDataFile;
    assert ext[1..] == "h5";
    DefaultOutputName(stem, ext);
  }

  /** Python's `%` operator on the part of the per-state template before
      its final "%d": "%%" stands for one '%'. Any other '%' there starts a
      conversion that either takes the only argument, leaving none for the
      final "%d", or is malformed; either way the formatting raises. */
  function Unescape(t: string): (r: Option<string>)
    ensures '%' !in t ==> r == Some(t)
  {
    if |t| == 0 then Some([])
    else if t[0] != '%' then
      match Unescape(t[1..])
      case None => None
      case Some(u) => assert t == [t[0]] + t[1..]; Some([t[0]] + u)
    else if |t| >= 2 && t[1] == '%' then
      match Unescape(t[2..])
      case None => None
      case Some(u) => Some("%" + u)
    else None
  }

  /** Every '%' doubled: the text that formats to s. */
  function Escape(s: string): (t: string)
  {
    if |s| == 0 then []
    else if s[0] == '%' then "%%" + Escape(s[1..])
    else [s[0]] + Escape(s[1..])
  }

  /** Escaping and formatting are inverse: formatting succeeds exactly on
      escaped texts, and gives back what was escaped. */
  lemma {:induction false} UnescapeEscape(s: string)
    ensures Unescape(Escape(s)) == Some(s)
  {
    if |s| > 0 {
      UnescapeEscape(s[1..]);
      var t := Escape(s);
      if s[0] == '%' {
        assert t[2..] == Escape(s[1..]);
      } else {
        assert t[1..] == Escape(s[1..]);
      }
      assert s == [s[0]] + s[1..];
    }
  }

  lemma {:induction false} EscapeUnescape(t: string)
    requires Unescape(t).Some?
    ensures Escape(Unescape(t).value) == t
  {
    if |t| > 0 {
      var u := Unescape(t).value;
      if t[0] != '%' {
        EscapeUnescape(t[1..]);
        assert u[1..] == Unescape(t[1..]).value;
        assert t == [t[0]] + t[1..];
      } else {
        EscapeUnescape(t[2..]);
        assert u[1..] == Unescape(t[2..]).value;
        assert t == "%%" + t[2..];
      }
    }
  }

  /** The number of '%' in s. */
  function Percents(s: string): nat
  {
    if |s| == 0 then 0 else (if s[0] == '%' then 1 else 0) + Percents(s[1..])
  }

  lemma {:induction false} PercentsAppend(a: string, b: string)
    ensures Percents(a + b) == Percents(a) + Percents(b)
  {
    if |a| == 0 {
      assert a + b == b;
    } else {
      assert (a + b)[1..] == a[1..] + b;
      PercentsAppend(a[1..], b);
    }
  }

  lemma {:induction false} NoPercents(s: string)
    ensures Percents(s) == 0 <==> '%' !in s
  {
    if |s| > 0 {
      NoPercents(s[1..]);
      assert s == [s[0]] + s[1..];
    }
  }

  /** Escaping doubles the '%' signs and keeps a text without any. */
  lemma {:induction false} EscapeDoubles(s: string)
    ensures Percents(Escape(s)) == 2 * Percents(s)
    ensures Percents(s) == 0 ==> Escape(s) == s
  {
    if |s| > 0 {
      EscapeDoubles(s[1..]);
      var t := Escape(s);
      if s[0] == '%' {
        assert t[1..] == "%" + Escape(s[1..]);
        assert t[1..][1..] == Escape(s[1..]);
      } else {
        assert t[1..] == Escape(s[1..]);
        assert s == [s[0]] + s[1..];
      }
    }
  }

  /** The image of one state: `out_multifilename % index`, where the
      template is the combined name without its extension followed by
      "%d.png". */
  function StateName(out: string, index: nat): (r: Result<string, DrawError>)
    ensures r.Ok? <==> Unescape(PathNames.SplitExt(out).0).Some?
    ensures r.Ok? ==> r.value == Unescape(PathNames.SplitExt(out).0).value + Decimal(index) + ".png"
    ensures r.Err? ==> r.error == BadNameTemplate(out)
  {
    match Unescape(PathNames.SplitExt(out).0)
    case None => Err(BadNameTemplate(out))
    case Some(prefix) => Ok(prefix + Decimal(index) + ".png")
  }

  /** A doubled '%' formats to one; "%d" in the stem takes the argument,
      so "run%d.png" cannot name the per-state images. */
  lemma UnescapeExamples()
    ensures Unescape("%%") == Some("%")
    ensures Unescape("100%%") == Some("100%")
    ensures Unescape("run%d") == None
  {
    var p, b, c := "%%", "100%%", "run%d";
    assert p[2..] == [] && "%" + [] == "%";
    assert Unescape(p) == Some("%");
    assert b[2..] == "0%%" && b[2..][1..] == p && ['0'] + "%" == "0%";
    assert Unescape(b[2..]) == Some("0%");
    assert b[1..] == "00%%" && b[1..][1..] == b[2..] && ['0'] + "0%" == "00%";
    assert Unescape(b[1..]) == Some("00%");
    assert ['1'] + "00%" == "100%";
    assert c[3..] == "%d" && Unescape(c[3..]) == None;
    assert c[2..][1..] == c[3..] && Unescape(c[2..]) == None;
    assert c[1..][1..] == c[2..] && Unescape(c[1..]) == None;
  }

  /** Each state's image carries its own index: splitting off the
      extension gives back the formatted stem and the index's digits. */
  lemma StateNameReadsBack(out: string, index: nat)
    requires StateName(out, index).Ok?
    ensures var stem := Unescape(PathNames.SplitExt(out).0).value + Decimal(index);
      PathNames.SplitExt(StateName(out, index).value) == (stem, ".png")
  {
    var stem := Unescape(PathNames.SplitExt(out).0).value + Decimal(index);
    var d := Decimal(index);
    assert stem[|stem| - 1] == d[|d| - 1];
    assert ".png"[1..] == "png";
    PathNames.SplitExtJoined(stem, ".png");
  }

  /** Whether the names can be formatted does not depend on the index, and
      different states are saved under different names. */
  lemma StateNamesDistinct(out: string, i: nat, j: nat)
    requires i != j
    ensures StateName(out, i).Ok? <==> StateName(out, j).Ok?
    ensures StateName(out, i).Ok? ==> StateName(out, i).value != StateName(out, j).value
  {
    if StateName(out, i).Ok? {
      DigitsOfStateName(out, i);
      DigitsOfStateName(out, j);
      DecimalInjective(i, j);
    }
  }

  /** The digits sit between the formatted stem and ".png". */
  lemma DigitsOfStateName(out: string, index: nat)
    requires StateName(out, index).Ok?
    ensures var prefix, name := Unescape(PathNames.SplitExt(out).0).value, StateName(out, index).value;
      |name| == |prefix| + |Decimal(index)| + 4 && name[|prefix|..|name| - 4] == Decimal(index)
  {
  }

  /** No state's image overwrites the combined one: were they equal, the
      combined stem would be its own formatting followed by digits, but
      formatting halves the '%' signs and digits add none. */
  lemma StateNameNotCombined(out: string, index: nat)
    ensures StateName(out, index).Ok? ==> StateName(out, index).value != out
  {
    var stem := PathNames.SplitExt(out).0;
    if StateName(out, index).Ok? && StateName(out, index).value == out {
      var u := Unescape(stem).value;
      var d := Decimal(index);
      StateNameReadsBack(out, index);
      assert stem == u + d;
      EscapeUnescape(stem);
      EscapeDoubles(u);
      PercentsAppend(u, d);
      NoPercents(d);
      assert false;
    }
  }

  /** The mosaic for n states: its columns and rows and each state's tile
      in drawing order. */
  datatype Mosaic = Mosaic(columns: nat, rows: nat, tiles: seq<(nat, nat)>)

  function Lay(n: nat, mx: nat, my: nat): (r: Result<Mosaic, DrawError>)
    ensures r.Ok? <==> n > 0
    ensures r.Ok? ==> |r.value.tiles| == n <= r.value.columns * r.value.rows
    ensures r.Ok? ==> forall k | 0 <= k < n :: r.value.tiles[k] == Tile(k, r.value.columns, mx, my)
  {
    match Grid(n)
    case Err(e) => Err(e)
    case Ok((columns, rows)) =>
      Ok(Mosaic(columns, rows, seq(n, k requires 0 <= k < n => Tile(k, columns, mx, my))))
  }

  /** Every tile of the mosaic lies on the canvas and no two overlap. */
  lemma MosaicFits(n: nat, mx: nat, my: nat, k1: nat, k2: nat)
    requires Lay(n, mx, my).Ok? && k1 < n && k2 < n
    ensures var m := Lay(n, mx, my).value;
      && m.tiles[k1].0 + mx <= m.columns * mx
      && m.tiles[k1].1 + my <= m.rows * my
      && (k1 != k2 && mx > 0 && my > 0 ==> Apart(m.tiles[k1], m.tiles[k2], mx, my))
  {
    TileInside(k1, n, mx, my);
    if k1 != k2 && mx > 0 && my > 0 {
      TilesApart(k1, k2, Lay(n, mx, my).value.columns, mx, my);
    }
  }

  /** The states to draw after --square. */
  function Chosen(given: seq<nat>, opts: Options, a: Attributes): (r: seq<nat>)
    ensures opts.square ==> ISqrt(|r|) * ISqrt(|r|) == |r|
    ensures |r| <= |Select(given, opts.all, a)|
    ensures r == Select(given, opts.all, a)[..|r|]
  {
    var selected := Select(given, opts.all, a);
    if opts.square then
      SquareIsSquare(selected);
      Square(selected)
    else selected
  }

  /** After the cut the count is its own square. */
  lemma SquareIsSquare(selected: seq<nat>)
    ensures ISqrt(|Square(selected)|) * ISqrt(|Square(selected)|) == |Square(selected)|
  {
    var k := ISqrt(|selected|);
    assert (k + 1) * (k + 1) == k * k + 2 * k + 1;
    ISqrtUnique(k * k, k);
  }

  // ---------------------------------------------------------------------
  // The whole script

  datatype Options = Options(output: Option<string>, all: bool, square: bool, separate: bool, slot: int)

  /** What the script draws and where: the data file, the combined image,
      the slot, the states in drawing order, their mosaic, and the
      per-state images when --separate is given. */
  datatype Drawing = Drawing(
    dataFile: string, combined: string, slot: nat, indices: seq<nat>,
    mosaic: Mosaic, separate: seq<string>)

  /** The indices given after the data file, read in turn; none when only
      the data file or nothing is given. */
  function GivenIndices(args: seq<string>): (r: Result<seq<nat>, DrawError>)
    ensures |args| <= 1 ==> r == Ok([])
    ensures |args| > 1 ==> r == ParseIndices(args[1..])
  {
    if |args| > 1 then ParseIndices(args[1..]) else Ok([])
  }

  /** The script up to the end of the drawing loop, given the data file's
      attributes: bad indices stop it before the file is read, then the
      slot is checked, then the states are chosen and laid out, and then
      the loop reads each state and, with --separate, names its image. */
  function Plan(opts: Options, args: seq<string>, a: Attributes): (r: Result<Drawing, DrawError>)
    ensures r.Ok? <==>
      && GivenIndices(args).Ok?
      && -(a.slots as int) <= opts.slot < a.slots
      && |Chosen(GivenIndices(args).value, opts, a)| > 0
      && (forall k | 0 <= k < |Chosen(GivenIndices(args).value, opts, a)| ::
            Chosen(GivenIndices(args).value, opts, a)[k] < a.numStates)
      && (opts.separate ==> StateName(OutputName(opts.output, DataFile(args)), 0).Ok?)
    ensures r.Ok? ==>
      && r.value.dataFile == DataFile(args)
      && r.value.combined == OutputName(opts.output, DataFile(args))
      && r.value.slot == ResolveSlot(opts.slot, a.slots).value
      && r.value.indices == Chosen(GivenIndices(args).value, opts, a)
      && r.value.mosaic == Lay(|r.value.indices|, a.gridX, a.gridY).value
    ensures |args| > 1 && ParseIndices(args[1..]).Err? ==> r == Err(ParseIndices(args[1..]).error)
    ensures GivenIndices(args).Ok? && ResolveSlot(opts.slot, a.slots).Err? ==>
      r == Err(InvalidSlot(opts.slot, a.slots))
    ensures (GivenIndices(args).Ok? && ResolveSlot(opts.slot, a.slots).Ok? &&
             |Chosen(GivenIndices(args).value, opts, a)| == 0) ==>
      r == Err(EmptyMosaic)
    ensures (GivenIndices(args).Ok? && ResolveSlot(opts.slot, a.slots).Ok? &&
             |Chosen(GivenIndices(args).value, opts, a)| > 0 &&
             DrawLoop(Chosen(GivenIndices(args).value, opts, a), a.numStates, opts.separate,
               OutputName(opts.output, DataFile(args))).Err?) ==>
      r == Err(DrawLoop(Chosen(GivenIndices(args).value, opts, a), a.numStates, opts.separate,
        OutputName(opts.output, DataFile(args))).error)
  {
    var given := GivenIndices(args);
    if given.Err? then Err(given.error)
    else
      var dataFile := DataFile(args);
      var combined := OutputName(opts.output, dataFile);
      match ResolveSlot(opts.slot, a.slots)
      case Err(e) => Err(e)
      case Ok(slot) =>
        var indices := Chosen(given.value, opts, a);
        match Lay(|indices|, a.gridX, a.gridY)
        case Err(e) => Err(e)
        case Ok(mosaic) =>
          match DrawLoop(indices, a.numStates, opts.separate, combined)
          case Err(e) => Err(e)
          case Ok(separate) => Ok(Drawing(dataFile, combined, slot, indices, mosaic, separate))
  }

  /** The drawing loop: each state in turn is read from the file, which
      fails for an index the file does not hold, and with --separate its
      image name is formatted. It yields the per-state image names. */
  function DrawLoop(indices: seq<nat>, numStates: nat, separate: bool, combined: string): (r: Result<seq<string>, DrawError>)
    ensures r.Ok? <==>
      (forall k | 0 <= k < |indices| :: indices[k] < numStates) && (separate && |indices| > 0 ==> StateName(combined, 0).Ok?)
    ensures r.Ok? ==> |r.value| == if separate then |indices| else 0
    ensures r.Ok? && separate ==> forall k | 0 <= k < |indices| :: StateName(combined, indices[k]) == Ok(r.value[k])
    ensures r.Err? && r.error.NoSuchState? ==>
      r.error.index >= numStates &&
      exists k | 0 <= k < |indices| :: indices[k] == r.error.index && forall j | 0 <= j < k :: indices[j] < numStates
    ensures r.Err? && !r.error.NoSuchState? ==> r.error == BadNameTemplate(combined) && separate && indices[0] < numStates
  {
    if |indices| == 0 then Ok([])
    else if indices[0] >= numStates then Err(NoSuchState(indices[0], numStates))
    else
      var name := StateName(combined, indices[0]);
      if separate && name.Err? then Err(name.error)
      else
        match DrawLoop(indices[1..], numStates, separate, combined)
        case Err(e) => Err(e)
        case Ok(rest) => Ok((if separate then [name.value] else []) + rest)
  }

  /** The names the loop gives the states are pairwise different. */
  lemma SeparateNamesDistinct(indices: seq<nat>, numStates: nat, combined: string, k1: nat, k2: nat)
    requires DrawLoop(indices, numStates, true, combined).Ok?
    requires k1 < |indices| && k2 < |indices| && indices[k1] != indices[k2]
    ensures DrawLoop(indices, numStates, true, combined).value[k1] != DrawLoop(indices, numStates, true, combined).value[k2]
  {
    StateNamesDistinct(combined, indices[k1], indices[k2]);
  }
}
