/** The build helper `depmunger.py`, which turns the dependency rule gcc
    prints for one object file into the rule the Makefile includes: the
    continuation lines are joined, each dependency on a source file
    becomes one on that file's object, headers become the object of their
    source file when one exists and vanish otherwise, and the list is
    deduplicated with the target itself removed. Whether a file exists is
    the parameter `fileExists`. */
module DepMunger {
  import opened Util
  import PathNames
  import Parser

  // ---------------------------------------------------------------------
  // Strings

  /** The index of the first `c` in `s`, or -1 (`str.find`). */
  function Find(s: string, c: char): (i: int)
    ensures -1 <= i < |s|
    ensures i >= 0 ==> s[i] == c && c !in s[..i]
    ensures i < 0 <==> c !in s
  {
    if |s| == 0 then -1
    else if s[0] == c then 0
    else
      var j := Find(s[1..], c);
      if j < 0 then -1
      else
        assert s[..j + 1] == [s[0]] + s[1..][..j];
        j + 1
  }

  /** `partition`: the text before the first separator, the separator, and
      the rest; the whole text and two empty strings when there is none. */
  function Partition(s: string, sep: char): (r: (string, string, string))
    ensures r.0 + r.1 + r.2 == s
    ensures sep !in s ==> r == (s, "", "")
    ensures sep in s ==> r.1 == [sep] && sep !in r.0
  {
    var i := Find(s, sep);
    if i < 0 then (s, "", "")
    else
      assert s == s[..i] + [s[i]] + s[i + 1..];
      (s[..i], [s[i]], s[i + 1..])
  }

  const Continuation: string := "\\\n"

  /** `input.replace("\\\n", "")`: every backslash-newline, found from the
      left without overlaps, removed. */
  function JoinContinuations(s: string): (r: string)
    ensures |r| <= |s|
    ensures '\\' !in s ==> r == s
  {
    if |s| == 0 then []
    else if |s| >= 2 && s[0] == '\\' && s[1] == '\n' then JoinContinuations(s[2..])
    else [s[0]] + JoinContinuations(s[1..])
  }

  /** Lines as gcc continues them: joined by backslash-newline. */
  function Continued(lines: seq<string>): string
  {
    if |lines| == 0 then ""
    else if |lines| == 1 then lines[0]
    else lines[0] + Continuation + Continued(lines[1..])
  }

  function Concat(lines: seq<string>): string
  {
    if |lines| == 0 then "" else lines[0] + Concat(lines[1..])
  }

  /** Text without a backslash passes through unchanged. */
  lemma {:induction false} JoinPrefix(a: string, b: string)
    requires '\\' !in a
    ensures JoinContinuations(a + b) == a + JoinContinuations(b)
  {
    if |a| > 0 {
      assert a[0] in a;
      assert a + b == [a[0]] + (a[1..] + b);
      JoinCons(a[0], a[1..] + b);
      TailKeepsOut(a, '\\');
      JoinPrefix(a[1..], b);
      calc {
        JoinContinuations(a + b);
        [a[0]] + JoinContinuations(a[1..] + b);
        [a[0]] + (a[1..] + JoinContinuations(b));
        { assert a == [a[0]] + a[1..]; }
        a + JoinContinuations(b);
      }
    } else {
      assert a + b == b;
    }
  }

  lemma TailKeepsOut(a: string, c: char)
    requires |a| > 0 && c !in a
    ensures c !in a[1..]
  {
    assert forall d | d in a[1..] :: d in a;
  }

  lemma JoinCons(c: char, t: string)
    requires c != '\\'
    ensures JoinContinuations([c] + t) == [c] + JoinContinuations(t)
  {
    assert ([c] + t)[1..] == t;
  }

  /** Joining gcc's continued lines gives the lines one after another. */
  lemma {:induction false} JoinsContinuedLines(lines: seq<string>)
    requires forall i | 0 <= i < |lines| :: '\\' !in lines[i]
    ensures JoinContinuations(Continued(lines)) == Concat(lines)
  {
    if |lines| == 1 {
      assert Concat(lines) == lines[0] + Concat([]);
    } else if |lines| > 1 {
      var rest := Continued(lines[1..]);
      assert Continued(lines) == lines[0] + (Continuation + rest);
      JoinPrefix(lines[0], Continuation + rest);
      assert (Continuation + rest)[2..] == rest;
      JoinsContinuedLines(lines[1..]);
    }
  }

  // ---------------------------------------------------------------------
  // Splitting at white space (`str.split()`)

  predicate NoSpace(s: string)
  {
    forall k | 0 <= k < |s| :: !Parser.IsWhitespace(s[k])
  }

  predicate IsWord(w: string)
  {
    |w| > 0 && NoSpace(w)
  }

  lemma NoSpaceJoin(a: string, b: string)
    requires NoSpace(a) && NoSpace(b)
    ensures NoSpace(a + b)
  {
    forall k | 0 <= k < |a + b|
      ensures !Parser.IsWhitespace((a + b)[k])
    {
      if k >= |a| {
        assert (a + b)[k] == b[k - |a|];
      }
    }
  }

  lemma NoSpaceSlice(s: string, i: nat, j: nat)
    requires NoSpace(s) && i <= j <= |s|
    ensures NoSpace(s[i..j])
  {
    forall k | 0 <= k < j - i
      ensures !Parser.IsWhitespace(s[i..j][k])
    {
      assert s[i..j][k] == s[i + k];
    }
  }

  /** The number of leading characters that are not white space. */
  function WordLength(s: string): (n: nat)
    ensures n <= |s| && (n == |s| || Parser.IsWhitespace(s[n]))
    ensures forall k | 0 <= k < n :: !Parser.IsWhitespace(s[k])
  {
    if |s| == 0 || Parser.IsWhitespace(s[0]) then 0 else 1 + WordLength(s[1..])
  }

  /** The maximal runs of characters other than white space, in order. */
  function Words(s: string): (ws: seq<string>)
    ensures forall i | 0 <= i < |ws| :: IsWord(ws[i])
  {
    if |s| == 0 then []
    else if Parser.IsWhitespace(s[0]) then Words(s[1..])
    else
      var n := WordLength(s);
      [s[..n]] + Words(s[n..])
  }

  /** `" ".join(ws)`. */
  function JoinSpaced(ws: seq<string>): string
  {
    if |ws| == 0 then ""
    else if |ws| == 1 then ws[0]
    else ws[0] + " " + JoinSpaced(ws[1..])
  }

  lemma WordThenSpace(w: string, s: string)
    requires IsWord(w) && (|s| == 0 || Parser.IsWhitespace(s[0]))
    ensures Words(w + s) == [w] + Words(s)
  {
    var n := WordLength(w + s);
    if |s| > 0 {
      assert Parser.IsWhitespace((w + s)[|w|]);
    }
    assert forall k | 0 <= k < |w| :: (w + s)[k] == w[k];
    assert n == |w|;
    assert (w + s)[..n] == w && (w + s)[n..] == s;
  }

  /** Splitting a line of words joined by spaces gives back the words. */
  lemma {:induction false} WordsOfJoined(ws: seq<string>)
    requires forall i | 0 <= i < |ws| :: IsWord(ws[i])
    ensures Words(JoinSpaced(ws) + "\n") == ws
  {
    if |ws| == 1 {
      WordThenSpace(ws[0], "\n");
    } else if |ws| > 1 {
      var rest := JoinSpaced(ws[1..]) + "\n";
      assert JoinSpaced(ws) + "\n" == ws[0] + (" " + rest);
      WordThenSpace(ws[0], " " + rest);
      assert (" " + rest)[1..] == rest;
      WordsOfJoined(ws[1..]);
    }
  }

  // ---------------------------------------------------------------------
  // Rewriting one dependency

  /** The pattern `\S+\.(c|h)pp` can end at j + 4: at least one character
      precedes the ".cpp" or ".hpp" at j. */
  predicate SuffixAt(w: string, j: int)
  {
    1 <= j && j + 4 <= |w| && w[j] == '.' && (w[j + 1] == 'c' || w[j + 1] == 'h') && w[j + 2] == 'p' && w[j + 3] == 'p'
  }

  /** The last place below `bound` where the pattern can end. The greedy
      `\S+` makes a match from the start of a word run to the last such
      place, and nothing after it matches again. */
  function LastSuffix(w: string, bound: nat): (r: Option<nat>)
    ensures r.Some? ==> r.value < bound && SuffixAt(w, r.value)
  {
    if bound == 0 then None
    else if SuffixAt(w, bound - 1) then Some(bound - 1)
    else LastSuffix(w, bound - 1)
  }

  /** `sub_func`: a source file becomes the object file of the same name
      under obj/, and so does a header whose source file exists; anything
      else yields nothing, which removes the match. */
  function SubFunc(m: string, fileExists: string -> bool): (r: Option<string>)
    ensures r.Some? ==> PathNames.SplitExt(PathNames.Split(m).1).1 in {".cpp", ".hpp"}
    ensures r.Some? ==> r.value == "obj/" + PathNames.SplitExt(PathNames.Split(m).1).0 + ".o"
  {
    var (dir, file) := PathNames.Split(m);
    var (base, ext) := PathNames.SplitExt(file);
    if ext == ".cpp" || (ext == ".hpp" && fileExists(dir + "/" + base + ".cpp")) then
      Some("obj/" + base + ".o")
    else None
  }

  /** The object name has no white space when the match has none. */
  lemma SubFuncWord(m: string, fileExists: string -> bool)
    requires NoSpace(m) && SubFunc(m, fileExists).Some?
    ensures IsWord(SubFunc(m, fileExists).value)
  {
    BaseHasNoSpace(m);
    ObjectNameIsWord(PathNames.SplitExt(PathNames.Split(m).1).0);
  }

  lemma ObjectNameIsWord(base: string)
    requires NoSpace(base)
    ensures IsWord("obj/" + base + ".o")
  {
    NoSpaceJoin("obj/", base);
    NoSpaceJoin("obj/" + base, ".o");
  }

  lemma BaseHasNoSpace(m: string)
    requires NoSpace(m)
    ensures NoSpace(PathNames.SplitExt(PathNames.Split(m).1).0)
  {
    var file := PathNames.Split(m).1;
    var base := PathNames.SplitExt(file).0;
    FileHasNoSpace(m, file);
    assert file == base + PathNames.SplitExt(file).1;
    assert base == file[..|base|];
    NoSpaceSlice(file, 0, |base|);
  }

  lemma FileHasNoSpace(m: string, file: string)
    requires NoSpace(m) && file == PathNames.Split(m).1
    ensures NoSpace(file)
  {
    PathNames.SplitParts(m);
    assert file == m[|m| - |file|..];
    NoSpaceSlice(m, |m| - |file|, |m|);
  }

  /** The substitution applied to one word: the match replaced by
      `sub_func`'s answer, the rest of the word kept. */
  function Rewrite(w: string, fileExists: string -> bool): (r: string)
    ensures LastSuffix(w, |w|).None? ==> r == w
  {
    var found := LastSuffix(w, |w|);
    if found.None? then w else RewriteAt(w, found.value, fileExists)
  }

  /** The word with the match ending at j + 4 replaced. */
  function RewriteAt(w: string, j: nat, fileExists: string -> bool): string
    requires j + 4 <= |w|
  {
    var replaced := SubFunc(w[..j + 4], fileExists);
    (if replaced.Some? then replaced.value else "") + w[j + 4..]
  }

  lemma RewriteFound(w: string, j: nat, fileExists: string -> bool)
    requires LastSuffix(w, |w|) == Some(j)
    ensures Rewrite(w, fileExists) == RewriteAt(w, j, fileExists)
  {
  }

  /** A word made of non-white-space characters stays one after the
      rewrite, or becomes empty and disappears from the split. */
  lemma RewriteStaysWord(w: string, fileExists: string -> bool)
    requires IsWord(w)
    ensures Rewrite(w, fileExists) == "" || IsWord(Rewrite(w, fileExists))
  {
    var found := LastSuffix(w, |w|);
    if found.Some? {
      RewriteAtStaysWord(w, found.value, fileExists);
    }
  }

  lemma RewriteAtStaysWord(w: string, j: nat, fileExists: string -> bool)
    requires IsWord(w) && j + 4 <= |w|
    ensures RewriteAt(w, j, fileExists) == "" || IsWord(RewriteAt(w, j, fileExists))
  {
    NoSpaceSlice(w, 0, j + 4);
    NoSpaceSlice(w, j + 4, |w|);
    var replaced := SubFunc(w[..j + 4], fileExists);
    if replaced.Some? {
      SubFuncWord(w[..j + 4], fileExists);
    }
    NoSpaceJoin(if replaced.Some? then replaced.value else "", w[j + 4..]);
  }

  /** The last place the pattern can end, when it ends the word. */
  lemma LastSuffixAtEnd(w: string, j: nat)
    requires j + 4 == |w| && SuffixAt(w, j)
    ensures LastSuffix(w, |w|) == Some(j)
  {
    assert LastSuffix(w, j + 1) == Some(j);
    assert LastSuffix(w, j + 2) == Some(j);
    assert LastSuffix(w, j + 3) == Some(j);
  }

  /** Where the pattern cannot end anywhere, nothing is found. */
  lemma {:induction false} NoSuffixFound(w: string, bound: nat)
    requires forall k :: !SuffixAt(w, k)
    ensures LastSuffix(w, bound) == None
  {
    if bound > 0 {
      NoSuffixFound(w, bound - 1);
    }
  }

  /** Nothing after the place found can end the pattern. */
  lemma {:induction false} SuffixIsLast(w: string, bound: nat, k: nat)
    requires LastSuffix(w, bound).Some? && LastSuffix(w, bound).value < k < bound
    ensures !SuffixAt(w, k)
  {
    if k < bound - 1 && !SuffixAt(w, bound - 1) {
      SuffixIsLast(w, bound - 1, k);
    }
  }

  /** A word ending in ".cpp" or ".hpp" after at least one character is
      replaced whole. */
  lemma RewriteWhole(w: string, fileExists: string -> bool)
    requires SuffixAt(w, |w| - 4)
    ensures Rewrite(w, fileExists) == if SubFunc(w, fileExists).Some? then SubFunc(w, fileExists).value else ""
  {
    var j := |w| - 4;
    LastSuffixAtEnd(w, j);
    RewriteFound(w, j, fileExists);
    assert w[..j + 4] == w && w[j + 4..] == "";
  }

  /** A dependency on dir/base.cpp becomes one on obj/base.o. */
  lemma SourceBecomesObject(dir: string, base: string, fileExists: string -> bool)
    requires '/' !in base && |base| > 0 && base[0] != '.'
    ensures Rewrite(dir + "/" + base + ".cpp", fileExists) == "obj/" + base + ".o"
  {
    var w := dir + "/" + base + ".cpp";
    assert SuffixAt(w, |w| - 4);
    RewriteWhole(w, fileExists);
    SourceSubFunc(dir, base, fileExists);
  }

  lemma SourceSubFunc(dir: string, base: string, fileExists: string -> bool)
    requires '/' !in base && |base| > 0 && base[0] != '.'
    ensures SubFunc(dir + "/" + base + ".cpp", fileExists) == Some("obj/" + base + ".o")
  {
    assert dir + "/" + base + ".cpp" == dir + "/" + (base + ".cpp");
    SplitTail(dir, base + ".cpp");
    ExtOf(base, ".cpp");
  }

  /** A dependency on dir/base.hpp becomes one on obj/base.o if
      dir/base.cpp exists and is dropped otherwise. */
  lemma HeaderBecomesObjectOfItsSource(dir: string, base: string, fileExists: string -> bool)
    requires |dir| > 0 && dir[|dir| - 1] != '/'
    requires '/' !in base && |base| > 0 && base[0] != '.'
    ensures Rewrite(dir + "/" + base + ".hpp", fileExists)
      == if fileExists(dir + "/" + base + ".cpp") then "obj/" + base + ".o" else ""
  {
    var w := dir + "/" + base + ".hpp";
    assert SuffixAt(w, |w| - 4);
    RewriteWhole(w, fileExists);
    HeaderSubFunc(dir, base, fileExists);
  }

  lemma HeaderSubFunc(dir: string, base: string, fileExists: string -> bool)
    requires |dir| > 0 && dir[|dir| - 1] != '/'
    requires '/' !in base && |base| > 0 && base[0] != '.'
    ensures SubFunc(dir + "/" + base + ".hpp", fileExists)
      == if fileExists(dir + "/" + base + ".cpp") then Some("obj/" + base + ".o") else None
  {
    assert dir + "/" + base + ".hpp" == dir + "/" + (base + ".hpp");
    PathNames.SplitJoined(dir, base + ".hpp");
    ExtOf(base, ".hpp");
  }

  /** A header with no directory part is looked up as /base.cpp, at the
      root of the file system: `"%s/%s.cpp"` is formatted with an empty
      directory. */
  lemma HeaderWithoutDirectory(base: string, fileExists: string -> bool)
    requires '/' !in base && |base| > 0 && base[0] != '.'
    ensures Rewrite(base + ".hpp", fileExists)
      == if fileExists("/" + base + ".cpp") then "obj/" + base + ".o" else ""
  {
    var w := base + ".hpp";
    assert SuffixAt(w, |w| - 4);
    RewriteWhole(w, fileExists);
    BareHeaderSubFunc(base, fileExists);
  }

  lemma BareHeaderSubFunc(base: string, fileExists: string -> bool)
    requires '/' !in base && |base| > 0 && base[0] != '.'
    ensures SubFunc(base + ".hpp", fileExists)
      == if fileExists("/" + base + ".cpp") then Some("obj/" + base + ".o") else None
  {
    var w := base + ".hpp";
    assert PathNames.RFind(w, '/') == -1 by {
      PathNames.RFindNone(w, '/');
    }
    assert PathNames.Split(w) == ("", w);
    ExtOf(base, ".hpp");
    assert "" + "/" + base + ".cpp" == "/" + base + ".cpp";
  }

  /** A dependency without ".cpp" or ".hpp" after its first character,
      such as a system header, is kept as it is. */
  lemma OtherDependencyKept(w: string, fileExists: string -> bool)
    requires forall j :: !SuffixAt(w, j)
    ensures Rewrite(w, fileExists) == w
  {
    NoSuffixFound(w, |w|);
  }

  lemma SplitTail(dir: string, file: string)
    requires '/' !in file
    ensures PathNames.Split(dir + "/" + file).1 == file
  {
    var p := dir + "/" + file;
    assert p[|dir|] == '/';
    PathNames.RFindIsLast(p, '/');
    assert PathNames.RFind(p, '/') == |dir|;
    assert p[|dir| + 1..] == file;
  }

  lemma ExtOf(base: string, ext: string)
    requires '/' !in base && |base| > 0 && base[0] != '.'
    requires ext == ".cpp" || ext == ".hpp"
    ensures PathNames.SplitExt(base + ext) == (base, ext)
  {
    var p := base + ext;
    assert p[|base|] == '.';
    var dot := PathNames.RFind(p, '.');
    PathNames.RFindIsLast(p, '.');
    assert dot == |base|;
    PathNames.RFindNone(p, '/');
    assert p[0] != '.';
    assert p[..dot] == base && p[dot..] == ext;
  }

  // ---------------------------------------------------------------------
  // The whole rule

  /** The dependencies of the rewritten line: every non-empty rewritten
      word, once, without the target. */
  function Dependencies(target: string, words: seq<string>, fileExists: string -> bool): (deps: set<string>)
    ensures target !in deps
    ensures forall d :: d in deps <==> d != target && d != "" && exists i | 0 <= i < |words| :: Rewrite(words[i], fileExists) == d
  {
    (set i | 0 <= i < |words| && Rewrite(words[i], fileExists) != "" :: Rewrite(words[i], fileExists)) - {target}
  }

  /** The script on its whole input: the target and the set of
      dependencies it prints. The order in which they are printed is the
      iteration order of a Python set, which is not modelled. */
  function Munge(input: string, fileExists: string -> bool): (r: (string, set<string>))
    ensures r.1 == Dependencies(r.0, Words(Partition(JoinContinuations(input), ':').2), fileExists)
    ensures ':' in JoinContinuations(input) ==> ':' !in r.0
  {
    var (target, _, depline) := Partition(JoinContinuations(input), ':');
    (target, Dependencies(target, Words(depline), fileExists))
  }

  /** The printed line for dependencies listed in some order. */
  function Output(target: string, listed: seq<string>): (line: string)
    ensures |line| > |target| && line[..|target|] == target && line[|target|] == ':'
  {
    target + ": " + JoinSpaced(listed) + "\n"
  }

  /** A gcc rule whose continued lines hold no backslash yields its target
      and its rewritten words, deduplicated, without the target. */
  lemma MungesGccRule(target: string, lines: seq<string>, fileExists: string -> bool)
    requires ':' !in target && '\\' !in target
    requires forall i | 0 <= i < |lines| :: '\\' !in lines[i]
    ensures Munge(target + ":" + Continued(lines), fileExists)
      == (target, Dependencies(target, Words(Concat(lines)), fileExists))
  {
    JoinPrefix(target + ":", Continued(lines));
    JoinsContinuedLines(lines);
    PartitionAfterTarget(target, Concat(lines));
  }

  /** A target without a colon is cut off at the colon after it. */
  lemma PartitionAfterTarget(target: string, rest: string)
    requires ':' !in target
    ensures Partition(target + ":" + rest, ':') == (target, ":", rest)
  {
    var s := target + ":" + rest;
    assert s[|target|] == ':';
    assert s[..|target|] == target;
    assert Find(s, ':') == |target|;
    assert s[|target| + 1..] == rest;
  }

  /** Object files, which no rewrite touches, are their own dependencies. */
  lemma ObjectsKept(target: string, listed: seq<string>, fileExists: string -> bool)
    requires forall i | 0 <= i < |listed| :: IsWord(listed[i]) && forall j :: !SuffixAt(listed[i], j)
    requires target !in listed
    ensures Dependencies(target, listed, fileExists) == set i | 0 <= i < |listed| :: listed[i]
  {
    forall i | 0 <= i < |listed|
      ensures Rewrite(listed[i], fileExists) == listed[i]
    {
      OtherDependencyKept(listed[i], fileExists);
    }
  }

  /** Feeding the printed rule back through the script reproduces it: the
      object files it lists are not rewritten again. */
  lemma OutputIsFixedPoint(target: string, listed: seq<string>, fileExists: string -> bool)
    requires ':' !in target && '\\' !in target
    requires forall i | 0 <= i < |listed| :: IsWord(listed[i]) && '\\' !in listed[i] && forall j :: !SuffixAt(listed[i], j)
    requires target !in listed
    ensures Munge(Output(target, listed), fileExists) == (target, set i | 0 <= i < |listed| :: listed[i])
  {
    var line := Output(target, listed);
    var rest := " " + JoinSpaced(listed) + "\n";
    assert line == target + ":" + rest;
    NoBackslashJoined(listed);
    assert '\\' !in rest;
    assert '\\' !in line;
    PartitionAfterTarget(target, rest);
    assert rest[1..] == JoinSpaced(listed) + "\n";
    WordsOfJoined(listed);
    ObjectsKept(target, listed, fileExists);
  }

  lemma {:induction false} NoBackslashJoined(ws: seq<string>)
    requires forall i | 0 <= i < |ws| :: '\\' !in ws[i]
    ensures '\\' !in JoinSpaced(ws)
  {
    if |ws| > 1 {
      NoBackslashJoined(ws[1..]);
    }
  }
}
