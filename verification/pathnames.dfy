/** The two POSIX path helpers of Python's `os.path` that the build and
    drawing scripts use: `split`, which cuts a path at its last slash, and
    `splitext`, which cuts a file name at the dot of its extension. */
module PathNames {

  /** The index of the last `c` in `s`, or -1 (`str.rfind`). */
  function RFind(s: string, c: char): (r: int)
    ensures -1 <= r < |s|
    ensures r >= 0 ==> s[r] == c
  {
    if |s| == 0 then -1
    else if s[|s| - 1] == c then |s| - 1
    else RFind(s[..|s| - 1], c)
  }

  /** No `c` follows the one found. */
  lemma {:induction false} RFindIsLast(s: string, c: char)
    ensures forall k | RFind(s, c) < k < |s| :: s[k] != c
  {
    if |s| > 0 && s[|s| - 1] != c {
      RFindIsLast(s[..|s| - 1], c);
    }
  }

  lemma {:induction false} RFindNone(s: string, c: char)
    requires c !in s
    ensures RFind(s, c) == -1
  {
    if |s| > 0 {
      RFindNone(s[..|s| - 1], c);
    }
  }

  predicate AllSlashes(s: string)
  {
    forall k | 0 <= k < |s| :: s[k] == '/'
  }

  /** `rstrip('/')`. */
  function StripTrailingSlashes(s: string): (r: string)
    ensures |r| <= |s| && r == s[..|r|]
    ensures |r| == 0 || r[|r| - 1] != '/'
    ensures AllSlashes(s[|r|..])
  {
    if |s| == 0 || s[|s| - 1] != '/' then s
    else
      var r := StripTrailingSlashes(s[..|s| - 1]);
      assert s[..|s| - 1][..|r|] == s[..|r|];
      assert s[|r|..] == s[..|s| - 1][|r|..] + ['/'];
      r
  }

  /** `os.path.split`: everything after the last slash is the tail; the
      head keeps the rest, losing its trailing slashes unless it consists
      of slashes only. */
  function Split(p: string): (r: (string, string))
  {
    var i := RFind(p, '/') + 1;
    var head, tail := p[..i], p[i..];
    (if |head| > 0 && !AllSlashes(head) then StripTrailingSlashes(head) else head, tail)
  }

  /** The tail is the end of the path after its last slash; the head is
      what precedes it, or that without its trailing slashes. */
  lemma SplitParts(p: string)
    ensures var (head, tail) := Split(p);
      && |tail| <= |p| && '/' !in tail && p == p[..|p| - |tail|] + tail
      && (head == p[..|p| - |tail|] || head == StripTrailingSlashes(p[..|p| - |tail|]))
  {
    RFindIsLast(p, '/');
    var i := RFind(p, '/') + 1;
    assert p == p[..i] + p[i..];
  }

  /** A directory and a file name joined by one slash split back into the
      two, when the directory is not empty and has no trailing slash. */
  lemma SplitJoined(dir: string, base: string)
    requires |dir| > 0 && dir[|dir| - 1] != '/' && '/' !in base
    ensures Split(dir + "/" + base) == (dir, base)
  {
    var p := dir + "/" + base;
    assert p[|dir|] == '/';
    var i := RFind(p, '/') + 1;
    RFindIsLast(p, '/');
    assert i == |dir| + 1;
    assert p[..i] == dir + "/";
    assert !AllSlashes(dir + "/") by {
      assert (dir + "/")[|dir| - 1] != '/';
    }
    assert StripTrailingSlashes(dir + "/") == dir by {
      assert (dir + "/")[..|dir|] == dir;
    }
  }

  /** Whether some character is not a dot. */
  predicate NotAllDots(s: string)
  {
    |s| > 0 && (s[0] != '.' || NotAllDots(s[1..]))
  }

  /** A character other than a dot anywhere makes the check succeed. */
  lemma {:induction false} NotAllDotsAt(s: string, k: nat)
    requires k < |s| && s[k] != '.'
    ensures NotAllDots(s)
  {
    if k > 0 && s[0] == '.' {
      NotAllDotsAt(s[1..], k - 1);
    }
  }

  /** `os.path.splitext`: the extension runs from the last dot to the end,
      provided that dot is in the last path component and something other
      than a dot precedes it there; otherwise there is no extension. */
  function SplitExt(p: string): (r: (string, string))
    ensures r.0 + r.1 == p
  {
    var sepIndex := RFind(p, '/');
    var dotIndex := RFind(p, '.');
    if dotIndex > sepIndex && NotAllDots(p[sepIndex + 1..dotIndex]) then
      (p[..dotIndex], p[dotIndex..])
    else (p, [])
  }

  /** An extension starts at a dot and holds no further dot and no slash. */
  lemma ExtensionShape(p: string)
    ensures var ext := SplitExt(p).1;
      ext == [] || (ext[0] == '.' && '.' !in ext[1..] && '/' !in ext)
  {
    var ext := SplitExt(p).1;
    if ext != [] {
      var dotIndex := RFind(p, '.');
      RFindIsLast(p, '.');
      RFindIsLast(p, '/');
      assert ext == p[dotIndex..];
      forall k | 0 <= k < |ext|
        ensures ext[k] == p[dotIndex + k]
      {
      }
      assert forall k | 1 <= k < |ext| :: ext[k] != '.';
      assert forall k | 0 <= k < |ext[1..]| :: ext[1..][k] == ext[k + 1];
    }
  }

  /** An extension of a dot and further characters, none a dot or slash,
      comes off a stem whose last character is neither again. */
  lemma SplitExtJoined(stem: string, ext: string)
    requires |stem| > 0 && stem[|stem| - 1] != '/' && stem[|stem| - 1] != '.'
    requires |ext| > 0 && ext[0] == '.' && '.' !in ext[1..] && '/' !in ext
    ensures SplitExt(stem + ext) == (stem, ext)
  {
    var p := stem + ext;
    var dotIndex := RFind(p, '.');
    var sepIndex := RFind(p, '/');
    assert p[|stem|] == '.';
    RFindIsLast(p, '.');
    assert dotIndex >= |stem|;
    assert dotIndex == |stem|;
    assert p[|stem| - 1] != '/';
    assert sepIndex < |stem| - 1;
    assert p[|stem| - 1] != '.';
    NotAllDotsAt(p[sepIndex + 1..dotIndex], |stem| - 1 - (sepIndex + 1));
    assert p[..dotIndex] == stem && p[dotIndex..] == ext;
  }

  /** A name without any dot has no extension. */
  lemma NoDotNoExt(p: string)
    requires '.' !in p
    ensures SplitExt(p) == (p, [])
  {
  }
}
