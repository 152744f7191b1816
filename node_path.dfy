/** The parts of Node's POSIX `path` module that the renamer uses:
    `basename`, `dirname`, `join` and `extname`, on paths without trailing
    separators. */
module NodePath {

  type Path = string

  /** `String.prototype.lastIndexOf` for one character: the last index of
      `c` in `s`, or -1 when `c` does not occur. */
  function LastIndexOf(s: string, c: char): (r: int)
    ensures -1 <= r < |s|
    ensures r >= 0 ==> s[r] == c
    ensures forall i :: r < i < |s| ==> s[i] != c
    ensures (forall i :: 0 <= i < |s| ==> s[i] != c) ==> r == -1
  {
    if s == [] then -1
    else if s[|s| - 1] == c then |s| - 1
    else LastIndexOf(s[..|s| - 1], c)
  }

  /** `s` has no path separator. */
  predicate NoSlash(s: string)
  {
    forall i :: 0 <= i < |s| ==> s[i] != '/'
  }

  /** `k` is the last index of `c` in `s`. */
  lemma LastIndexOfIs(s: string, c: char, k: nat)
    requires k < |s| && s[k] == c
    requires forall i :: k < i < |s| ==> s[i] != c
    ensures LastIndexOf(s, c) == k
  {
  }

  /** `path.basename(p)`: what follows the last `/`. */
  function BaseName(p: Path): (r: string)
    ensures NoSlash(r)
    ensures |r| <= |p| && r == p[|p| - |r|..]
    ensures |r| == |p| || p[|p| - |r| - 1] == '/'
  {
    p[LastIndexOf(p, '/') + 1..]
  }

  /** `path.dirname(p)`: what precedes the last `/`; `/` for an entry of the
      root and `.` for a bare name. */
  function DirName(p: Path): (r: Path)
    ensures r != ""
    ensures NoSlash(p) ==> r == "."
    ensures LastIndexOf(p, '/') == 0 ==> r == "/"
    ensures LastIndexOf(p, '/') > 0 ==> IsDirThenBase(p, r)
  {
    var k := LastIndexOf(p, '/');
    if k < 0 then "." else if k == 0 then "/" else
      assert p == p[..k] + "/" + p[k + 1..];
      p[..k]
  }

  /** `p` is `d`, one `/`, and then the basename of `p`. */
  predicate IsDirThenBase(p: Path, d: Path)
  {
    p == d + "/" + BaseName(p)
  }

  /** A directory path as `join` leaves it: `/`, or non-empty without a
      trailing separator. */
  predicate IsNormalDir(d: Path)
  {
    d == "/" || (d != "" && d[|d| - 1] != '/')
  }

  /** `p` ends in `n`, and either is `n` or has a `/` just before it. */
  predicate EndsWithName(p: Path, n: string)
  {
    && |n| <= |p| && p[|p| - |n|..] == n
    && (p == n || p[|p| - |n| - 1] == '/')
  }

  /** `path.join(d, n)` for a directory and one non-empty name. */
  function Join(d: Path, n: string): (r: Path)
    ensures EndsWithName(r, n)
  {
    if d == "" || d == "." then n
    else if d[|d| - 1] == '/' then d + n
    else d + "/" + n
  }

  /** `path.extname(p)`: the basename from its last `.` on; empty when the
      basename has no `.`, when that `.` is its first character (a dotfile)
      and for `..`. */
  function ExtName(p: Path): (r: string)
    ensures r == "" || r[0] == '.'
    ensures forall i :: 0 < i < |r| ==> r[i] != '.'
    ensures NoSlash(r)
    ensures |r| <= |p| && r == p[|p| - |r|..]
    ensures r != "" <==> LastIndexOf(BaseName(p), '.') > 0 && BaseName(p) != ".."
  {
    var b := BaseName(p);
    var k := LastIndexOf(b, '.');
    if k <= 0 || b == ".." then ""
    else
      TailOfTail(p, b, k);
      b[k..]
  }

  /** The tail of the basename `b` of `p` from its last `.` on is a tail of
      `p` that starts with its only `.` and has no `/`. */
  lemma TailOfTail(p: string, b: string, k: nat)
    requires |b| <= |p| && b == p[|p| - |b|..] && NoSlash(b)
    requires k < |b| && b[k] == '.' && forall i :: k < i < |b| ==> b[i] != '.'
    ensures var r := b[k..];
      && r != [] && r[0] == '.' && (forall i :: 0 < i < |r| ==> r[i] != '.')
      && NoSlash(r) && |r| <= |p| && r == p[|p| - |r|..]
  {
  }

  /** Joining a name onto a directory gives a path whose directory is that
      directory and whose basename is that name. */
  lemma JoinParts(d: Path, n: string)
    requires IsNormalDir(d)
    requires n != "" && NoSlash(n)
    ensures DirName(Join(d, n)) == d
    ensures BaseName(Join(d, n)) == n
  {
    var p := Join(d, n);
    if d == "." {
      assert p == n;
    } else {
      var pre := if d == "/" then "/" else d + "/";
      assert p == pre + n;
      forall i | |pre| - 1 < i < |p|
        ensures p[i] != '/'
      {
        assert p[i] == n[i - |pre|];
      }
      LastIndexOfIs(p, '/', |pre| - 1);
      assert p[|pre|..] == n;
      if d != "/" {
        assert p[..|d|] == d;
      }
    }
  }

  /** The extension of a joined path is the extension of the name. */
  lemma ExtNameOfJoin(d: Path, n: string)
    requires IsNormalDir(d)
    requires n != "" && NoSlash(n)
    ensures ExtName(Join(d, n)) == ExtName(n)
  {
    JoinParts(d, n);
    BaseNameOfName(n);
    ExtNameOfSameBase(Join(d, n), n);
  }

  /** The extension depends on the basename only. */
  lemma ExtNameOfSameBase(p: Path, q: Path)
    requires BaseName(p) == BaseName(q)
    ensures ExtName(p) == ExtName(q)
  {
  }

  /** The extension of `stem + ext`, for a non-empty stem without `.` and an
      extension that is `.` followed by other characters. */
  lemma ExtNameOfSimpleName(stem: string, ext: string)
    requires stem != [] && forall i :: 0 <= i < |stem| ==> stem[i] != '.' && stem[i] != '/'
    requires ext != [] && ext[0] == '.' && forall i :: 1 <= i < |ext| ==> ext[i] != '.' && ext[i] != '/'
    ensures ExtName(stem + ext) == ext
  {
    var p := stem + ext;
    assert forall i :: 0 <= i < |p| ==> p[i] != '/';
    assert BaseName(p) == p;
    assert p[|stem|] == '.';
    assert LastIndexOf(p, '.') == |stem|;
    assert p[0] != '.';
    assert p != "..";
    assert p[|stem|..] == ext;
  }

  /** Only the last `.` counts: a stem may hold dots of its own, as in
      `a.b.jpg`, whose extension is `.jpg`. */
  lemma ExtNameAfterDottedStem(stem: string, ext: string)
    requires stem != [] && NoSlash(stem) && stem[0] != '.'
    requires ext != [] && ext[0] == '.' && forall i :: 1 <= i < |ext| ==> ext[i] != '.' && ext[i] != '/'
    ensures ExtName(stem + ext) == ext
  {
    var p := stem + ext;
    assert NoSlash(p) by {
      forall i | 0 <= i < |p|
        ensures p[i] != '/'
      {
        if i < |stem| {
          assert p[i] == stem[i];
        } else {
          assert p[i] == ext[i - |stem|];
        }
      }
    }
    BaseNameOfName(p);
    forall i | |stem| < i < |p|
      ensures p[i] != '.'
    {
      assert p[i] == ext[i - |stem|];
    }
    LastIndexOfIs(p, '.', |stem|);
    assert p[|stem|..] == ext;
    assert p[0] == stem[0];
  }

  lemma ExtNameOfManyDots()
    ensures ExtName("a.b.jpg") == ".jpg"
  {
    ExtNameAfterDottedStem("a.b", ".jpg");
    assert "a.b" + ".jpg" == "a.b.jpg";
  }

  /** Appending a path's extension to a non-empty stem without `.` or `/`
      gives a name with that same extension. */
  lemma ExtNameCarriesOver(stem: string, p: Path)
    requires stem != [] && forall i :: 0 <= i < |stem| ==> stem[i] != '.' && stem[i] != '/'
    ensures ExtName(stem + ExtName(p)) == ExtName(p)
  {
    var ext := ExtName(p);
    assert ext == "" || (ext[0] == '.' && forall i :: 1 <= i < |ext| ==> ext[i] != '.' && ext[i] != '/') by {
      assert NoSlash(ext);
    }
    ExtensionCarriesOver(stem, ext);
  }

  /** The same, for any string shaped like an extension. */
  lemma ExtensionCarriesOver(stem: string, ext: string)
    requires stem != [] && forall i :: 0 <= i < |stem| ==> stem[i] != '.' && stem[i] != '/'
    requires ext == "" || (ext[0] == '.' && forall i :: 1 <= i < |ext| ==> ext[i] != '.' && ext[i] != '/')
    ensures ExtName(stem + ext) == ext
  {
    if ext == "" {
      assert stem + ext == stem;
      ExtNameOfPlainName(stem);
    } else {
      ExtNameOfSimpleName(stem, ext);
    }
  }

  /** A name with neither `.` nor `/` has no extension. */
  lemma ExtNameOfPlainName(stem: string)
    requires forall i :: 0 <= i < |stem| ==> stem[i] != '.' && stem[i] != '/'
    ensures ExtName(stem) == ""
  {
    BaseNameOfName(stem);
    assert LastIndexOf(stem, '.') == -1;
  }

  /** A name without `/` is its own basename. */
  lemma BaseNameOfName(s: string)
    requires NoSlash(s)
    ensures BaseName(s) == s
  {
    assert LastIndexOf(s, '/') == -1;
  }

  /** A name whose only `.` is its first character has no extension. */
  lemma LeadingDotIsNoExtension(b: string)
    requires NoSlash(b) && LastIndexOf(b, '.') == 0
    ensures ExtName(b) == ""
  {
    BaseNameOfName(b);
  }

  /** A dotfile such as `.png` has no extension. */
  lemma DotfileHasNoExtension()
    ensures ExtName(".png") == ""
  {
    var b := ".png";
    assert NoSlash(b);
    assert forall i :: 0 < i < |b| ==> b[i] != '.';
    LastIndexOfIs(b, '.', 0);
    LeadingDotIsNoExtension(b);
  }
}
