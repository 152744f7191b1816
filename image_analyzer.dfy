/** The naming rules of `ImageAnalyzer`: how a model reply becomes a base
    filename, the fallback name built from a file's modification time, the
    date prefix, the MIME table and the image-file test. The call to the
    vision model is not modelled: its reply is an input (`Reply`). */
module ImageAnalyzer {
  import opened Results
  import opened Seqs
  import opened Text
  import opened NodePath
  import opened IsoDate
  import opened NodeFs

  /** The extensions the analyzer accepts. */
  const SupportedFormats: seq<string> := [".jpg", ".jpeg", ".png", ".bmp", ".tiff", ".webp"]

  /** The length `cleanFilename` truncates to. */
  const MaxNameLength: nat := 50

  /** What the vision model call produced: the text of the first part of the
      first candidate, or a failure (the SDK threw, or the response lacked
      those fields). */
  datatype Reply = Answer(text: string) | Failed

  /** The only way naming can fail: `statSync` threw inside `generateFallbackName`. */
  datatype AnalysisError = StatFailed(path: Path)

  // ---------------------------------------------------------------- MIME

  /** The `switch` on the lower-cased extension, with `image/jpeg` as default. */
  function MimeType(ext: string): (r: string)
    ensures r == "image/png" <==> ext == ".png"
    ensures r == "image/bmp" <==> ext == ".bmp"
    ensures r == "image/tiff" <==> ext == ".tiff"
    ensures r == "image/webp" <==> ext == ".webp"
    ensures r == "image/jpeg" <==> ext != ".png" && ext != ".bmp" && ext != ".tiff" && ext != ".webp"
  {
    match ext
    case ".jpg" => "image/jpeg"
    case ".jpeg" => "image/jpeg"
    case ".png" => "image/png"
    case ".bmp" => "image/bmp"
    case ".tiff" => "image/tiff"
    case ".webp" => "image/webp"
    case _ => "image/jpeg"
  }

  /** The MIME type both `analyzeImageWithLLM` and `getImageMetadata` derive
      from a path: the table applied to `path.extname(p).toLowerCase()`. */
  function MimeTypeOf(p: Path): string
  {
    MimeType(Lower(ExtName(p)))
  }

  /** A name stem with neither `.` nor `/`. */
  predicate IsPlainStem(stem: string)
  {
    stem != [] && forall i :: 0 <= i < |stem| ==> stem[i] != '.' && stem[i] != '/'
  }

  /** Lower-casing a four-character ASCII extension, one character at a time. */
  lemma LowerOfExtension(ext: string, lower: string)
    requires |ext| == 4 && |lower| == 4
    requires forall i :: 0 <= i < 4 ==> LowerChar(ext[i]) == [lower[i]]
    ensures Lower(ext) == lower
  {
    assert ext[1..][1..][1..][1..] == [];
    assert Lower(ext[1..][1..][1..]) == [lower[3]];
    assert Lower(ext[1..][1..]) == [lower[2], lower[3]];
    assert Lower(ext[1..]) == [lower[1], lower[2], lower[3]];
  }

  lemma LowerJpg()
    ensures Lower(".JPG") == ".jpg"
  {
    LowerOfExtension(".JPG", ".jpg");
  }

  lemma LowerPng()
    ensures Lower(".PNG") == ".png"
  {
    LowerOfExtension(".PNG", ".png");
  }

  lemma LowerGif()
    ensures Lower(".gif") == ".gif"
  {
    LowerOfExtension(".gif", ".gif");
  }

  /** The extension is looked up case-insensitively: `.JPG` is JPEG ... */
  lemma MimeTypeOfUpperJpg(stem: string)
    requires IsPlainStem(stem)
    ensures MimeTypeOf(stem + ".JPG") == "image/jpeg"
  {
    ExtNameOfSimpleName(stem, ".JPG");
    LowerJpg();
  }

  /** ... and `.PNG` is PNG. */
  lemma MimeTypeOfUpperPng(stem: string)
    requires IsPlainStem(stem)
    ensures MimeTypeOf(stem + ".PNG") == "image/png"
  {
    ExtNameOfSimpleName(stem, ".PNG");
    LowerPng();
  }

  /** An extension outside the table gets the JPEG default ... */
  lemma MimeTypeDefaultsToJpeg(stem: string)
    requires IsPlainStem(stem)
    ensures MimeTypeOf(stem + ".gif") == "image/jpeg"
  {
    ExtNameOfSimpleName(stem, ".gif");
    LowerGif();
  }

  /** ... and so does a name without an extension. */
  lemma MimeTypeWithoutExtension(stem: string)
    requires IsPlainStem(stem)
    ensures MimeTypeOf(stem) == "image/jpeg"
  {
    ExtNameOfPlainName(stem);
    assert Lower("") == "";
  }

  /** What `getImageMetadata` resolves to; no pixels are decoded, so width
      and height are always 0. */
  datatype Metadata = Metadata(width: nat, height: nat, format: string, mime: string, size: nat, mtime: Stamp)

  /** `getImageMetadata(p)` given the outcome of `statSync(p)`: `None` when
      the stat threw (the method catches and resolves to `null`). */
  function ImageMetadata(p: Path, stat: Option<Node>): (r: Option<Metadata>)
    ensures r.Some? <==> stat.Some?
    ensures r.Some? ==> r.value.width == 0 && r.value.height == 0 && r.value.mime == MimeTypeOf(p)
  {
    match stat
    case None => None
    case Some(n) => Some(Metadata(0, 0, Lower(ExtName(p)), MimeTypeOf(p), |n.data|, n.mtime))
  }

  // ------------------------------------------------------- image test

  /** `s.substring(start)`: negative starts count as 0, starts past the end as the end. */
  function Substring(s: string, start: int): (r: string)
    ensures |r| <= |s|
  {
    if start <= 0 then s else if start >= |s| then [] else s[start..]
  }

  /** `isImageFile(f)`: the lower-cased name, cut at the index of the last
      `.` of the ORIGINAL name, is one of the supported extensions. */
  function IsImageFile(f: string): (r: bool)
    ensures r ==> LastIndexOf(f, '.') >= 0
  {
    var k := LastIndexOf(f, '.');
    if k < 0 && f != [] then
      LowerStartsWithDot(f);
      Substring(Lower(f), k) in SupportedFormats
    else
      Substring(Lower(f), k) in SupportedFormats
  }

  /** Only U+0130 lower-cases to something starting with another character
      than it lower-cases itself to; in particular only `.` gives `.`. */
  lemma LowerStartsWithDot(s: string)
    requires s != []
    ensures Lower(s)[0] == '.' <==> s[0] == '.'
  {
  }

  /** A name without `.` is never an image. */
  lemma {:induction false} NoDotIsNotImage(f: string)
    requires forall i :: 0 <= i < |f| ==> f[i] != '.'
    ensures !IsImageFile(f)
  {
    assert LastIndexOf(f, '.') == -1;
    if f != [] {
      LowerStartsWithDot(f);
    }
  }

  /** When no U+0130 occurs, `isImageFile` holds exactly when the name has a
      `.` and the lower-cased suffix from the last one is a supported
      extension. */
  lemma {:induction false} IsImageFileBySuffix(f: string)
    requires forall i :: 0 <= i < |f| ==> f[i] != '\U{0130}'
    ensures IsImageFile(f) <==>
      LastIndexOf(f, '.') >= 0 && Lower(f[LastIndexOf(f, '.')..]) in SupportedFormats
  {
    var k := LastIndexOf(f, '.');
    if k < 0 {
      NoDotIsNotImage(f);
    } else {
      LowerFrom(f, k);
    }
  }

  /** Without U+0130, cutting the lower-cased name at `k` is lower-casing the
      name's suffix from `k`. */
  lemma LowerFrom(f: string, k: nat)
    requires k < |f|
    requires forall i :: 0 <= i < |f| ==> f[i] != '\U{0130}'
    ensures Substring(Lower(f), k) == Lower(f[k..])
  {
    var a, b := f[..k], f[k..];
    assert f == a + b;
    LowerOfSuffix(a, b);
    SubstringIsSlice(Lower(a + b), k);
  }

  lemma SubstringIsSlice(s: string, k: nat)
    requires k <= |s|
    ensures Substring(s, k) == s[k..]
  {
  }

  /** Without U+0130 in `a`, lower-casing `a + b` and dropping `|a|`
      characters leaves the lower case of `b`. */
  lemma LowerOfSuffix(a: string, b: string)
    requires forall i :: 0 <= i < |a| ==> a[i] != '\U{0130}'
    ensures |a| <= |Lower(a + b)| && Lower(a + b)[|a|..] == Lower(b)
  {
    LowerPointwise(a);
    LowerAppend(a, b);
    var x, y := Lower(a), Lower(b);
    assert (x + y)[|x|..] == y;
  }

  /** An upper-case extension is accepted. */
  lemma UpperCaseExtensionIsImage(stem: string)
    requires IsPlainStem(stem)
    requires forall i :: 0 <= i < |stem| ==> stem[i] != '\U{0130}'
    ensures IsImageFile(stem + ".JPG")
  {
    var f := stem + ".JPG";
    IsImageFileBySuffix(f);
    assert f[|stem|] == '.';
    assert LastIndexOf(f, '.') == |stem|;
    assert f[|stem|..] == ".JPG";
    LowerJpg();
  }

  /** A dotfile named like an extension is accepted too. */
  lemma DotfileIsImage()
    ensures IsImageFile(".png")
  {
    assert LastIndexOf(".png", '.') == 0;
    assert Lower(".png") == ".png";
  }

  /** U+0130 lower-cases to two characters, so the index of the last `.`,
      taken in the original name, no longer points at the `.` of the
      lower-cased one: `İ.png` is rejected. */
  lemma DottedCapitalIShiftsExtension()
    ensures !IsImageFile("\U{0130}.png")
  {
    var f := "\U{0130}.png";
    assert LastIndexOf(f, '.') == 1;
    assert Lower(f) == ['i', '\U{0307}'] + ".png";
    var cut := Substring(Lower(f), 1);
    assert cut == ['\U{0307}'] + ".png";
    assert forall e :: e in SupportedFormats ==> e[0] == '.';
    assert cut[0] != '.';
  }

  // ---------------------------------------------------- cleanFilename

  /** `[a-z0-9\s_-]`: what the first `replace` keeps. */
  predicate IsKept(c: char)
  {
    ('a' <= c <= 'z') || IsDigit(c) || IsSpace(c) || c == '_' || c == '-'
  }

  /** `[a-z0-9_-]`: the characters a cleaned name consists of. */
  predicate IsNameChar(c: char)
  {
    ('a' <= c <= 'z') || IsDigit(c) || c == '_' || c == '-'
  }

  /** `[a-z0-9-]`: the characters that carry the description, as opposed to separators. */
  predicate IsWordChar(c: char)
  {
    ('a' <= c <= 'z') || IsDigit(c) || c == '-'
  }

  predicate NoDoubleUnderscore(s: string)
  {
    forall i :: 0 <= i < |s| - 1 ==> !(s[i] == '_' && s[i + 1] == '_')
  }

  /** The two kinds of separator run `cleanFilename` collapses into one `_`:
      `\s+` and `_+`. */
  datatype Separator = Whitespace | Underscore

  predicate IsSeparator(k: Separator, c: char)
  {
    match k
    case Whitespace => IsSpace(c)
    case Underscore => c == '_'
  }

  /** `s` without its leading run of separators of kind `k`. */
  function DropRun(s: string, k: Separator): (r: string)
    ensures |r| <= |s| && r == s[|s| - |r|..]
    ensures s != [] && IsSeparator(k, s[0]) ==> |r| < |s|
    ensures r == [] || !IsSeparator(k, r[0])
  {
    if s == [] || !IsSeparator(k, s[0]) then s else DropRun(s[1..], k)
  }

  /** What `DropRun` removes is a run of separators. */
  lemma {:induction false} DropRunDropsSeparators(s: string, k: Separator)
    ensures forall i :: 0 <= i < |s| - |DropRun(s, k)| ==> IsSeparator(k, s[i])
  {
    if s != [] && IsSeparator(k, s[0]) {
      DropRunDropsSeparators(s[1..], k);
      forall i | 1 <= i < |s| - |DropRun(s, k)|
        ensures IsSeparator(k, s[i])
      {
        assert s[i] == s[1..][i - 1];
      }
    }
  }

  /** `s.replace(/\s+/g, '_')` or `s.replace(/_+/g, '_')`: every maximal
      run of separators of kind `k` becomes a single `_`; everything else
      is kept in order. */
  function SquashRuns(s: string, k: Separator): (r: string)
    ensures r == [] <==> s == []
    ensures s != [] && IsSeparator(k, s[0]) ==> r[0] == '_'
    ensures s != [] && !IsSeparator(k, s[0]) ==> r[0] == s[0]
    ensures |r| <= |s|
    decreases |s|
  {
    if s == [] then []
    else if IsSeparator(k, s[0]) then "_" + SquashRuns(DropRun(s, k), k)
    else [s[0]] + SquashRuns(s[1..], k)
  }

  predicate AllKept(s: string)
  {
    forall i :: 0 <= i < |s| ==> IsKept(s[i])
  }

  predicate AllNameChars(s: string)
  {
    forall i :: 0 <= i < |s| ==> IsNameChar(s[i])
  }

  lemma AllKeptSuffix(s: string, n: nat)
    requires n <= |s| && AllKept(s)
    ensures AllKept(s[n..])
  {
    forall i | 0 <= i < |s| - n
      ensures IsKept(s[n..][i])
    {
      assert s[n..][i] == s[n + i];
    }
  }

  lemma AllNameCharsSuffix(s: string, n: nat)
    requires n <= |s| && AllNameChars(s)
    ensures AllNameChars(s[n..])
  {
    forall i | 0 <= i < |s| - n
      ensures IsNameChar(s[n..][i])
    {
      assert s[n..][i] == s[n + i];
    }
  }

  lemma PrependNameChar(c: char, r: string)
    requires IsNameChar(c) && AllNameChars(r)
    ensures AllNameChars([c] + r)
  {
    forall i | 0 <= i < |r| + 1
      ensures IsNameChar(([c] + r)[i])
    {
      if i > 0 {
        assert ([c] + r)[i] == r[i - 1];
      }
    }
  }

  /** Squashing whitespace runs in `[a-z0-9\s_-]*` gives `[a-z0-9_-]*`. */
  lemma {:induction false} SquashSpacesGivesNameChars(s: string)
    requires AllKept(s)
    ensures AllNameChars(SquashRuns(s, Whitespace))
    decreases |s|
  {
    if s != [] {
      if IsSpace(s[0]) {
        var t := DropRun(s, Whitespace);
        AllKeptSuffix(s, |s| - |t|);
        SquashSpacesGivesNameChars(t);
        PrependNameChar('_', SquashRuns(t, Whitespace));
      } else {
        assert IsKept(s[0]);
        AllKeptSuffix(s, 1);
        SquashSpacesGivesNameChars(s[1..]);
        PrependNameChar(s[0], SquashRuns(s[1..], Whitespace));
      }
    }
  }

  /** Squashing a string of name characters gives name characters. */
  lemma {:induction false} SquashNameChars(s: string, k: Separator)
    requires AllNameChars(s)
    ensures AllNameChars(SquashRuns(s, k))
    decreases |s|
  {
    if s != [] {
      if IsSeparator(k, s[0]) {
        var t := DropRun(s, k);
        AllNameCharsSuffix(s, |s| - |t|);
        SquashNameChars(t, k);
        PrependNameChar('_', SquashRuns(t, k));
      } else {
        assert IsNameChar(s[0]);
        AllNameCharsSuffix(s, 1);
        SquashNameChars(s[1..], k);
        PrependNameChar(s[0], SquashRuns(s[1..], k));
      }
    }
  }

  /** After `_+` is squashed no `__` is left. */
  lemma {:induction false} SquashLeavesNoDoubleUnderscore(s: string)
    ensures NoDoubleUnderscore(SquashRuns(s, Underscore))
    decreases |s|
  {
    if s != [] {
      if s[0] == '_' {
        SquashLeavesNoDoubleUnderscore(DropRun(s, Underscore));
      } else {
        SquashLeavesNoDoubleUnderscore(s[1..]);
      }
    }
  }

  /** `s.replace(/^_|_$/g, '')`: one leading and one trailing `_` removed. */
  function StripEdgeUnderscores(s: string): (r: string)
    ensures |r| <= |s|
    ensures var a := if s != [] && s[0] == '_' then 1 else 0;
      var b := if |s| - a > 0 && s[|s| - 1] == '_' then 1 else 0;
      r == s[a..|s| - b]
    ensures (forall i :: 0 <= i < |s| ==> IsNameChar(s[i])) ==> forall i :: 0 <= i < |r| ==> IsNameChar(r[i])
    ensures NoDoubleUnderscore(s) ==> NoDoubleUnderscore(r)
    ensures NoDoubleUnderscore(s) ==> r == [] || (r[0] != '_' && r[|r| - 1] != '_')
  {
    var t := if |s| > 0 && s[0] == '_' then s[1..] else s;
    if |t| > 0 && t[|t| - 1] == '_' then t[..|t| - 1] else t
  }

  /** `s.substring(0, n)`. */
  function Truncate(s: string, n: nat): (r: string)
    ensures |r| <= n && |r| <= |s| && r == s[..|r|]
    ensures |s| <= n ==> r == s
    ensures |s| > n ==> |r| == n
  {
    if |s| <= n then s else s[..n]
  }

  /** Every step of `cleanFilename` but the final truncation. */
  function CleanStages(name: string): (r: string)
    ensures forall i :: 0 <= i < |r| ==> IsNameChar(r[i])
    ensures NoDoubleUnderscore(r)
    ensures r == [] || (r[0] != '_' && r[|r| - 1] != '_')
  {
    var kept := Filter(Lower(name), IsKept);
    var spaced := SquashRuns(kept, Whitespace);
    SquashSpacesGivesNameChars(kept);
    var squashed := SquashRuns(spaced, Underscore);
    SquashNameChars(spaced, Underscore);
    SquashLeavesNoDoubleUnderscore(spaced);
    StripEdgeUnderscores(squashed)
  }

  /** `cleanFilename(name)`: only `[a-z0-9_-]`, at most 50 characters, no
      `__`, no leading `_`. (A trailing `_` can survive the truncation.) */
  function CleanFilename(name: string): (r: string)
    ensures forall i :: 0 <= i < |r| ==> IsNameChar(r[i])
    ensures |r| <= MaxNameLength
    ensures NoDoubleUnderscore(r)
    ensures r == [] || r[0] != '_'
  {
    Truncate(CleanStages(name), MaxNameLength)
  }

  // ------------------------------------------ properties of cleanFilename

  /** The description characters of a string, separators (`_` and
      whitespace) and everything else dropped. */
  function WordChars(s: string): string
  {
    Filter(s, IsWordChar)
  }

  /** One step of `SquashRuns` on a leading run of separators. */
  lemma SquashRunStep(s: string, k: Separator)
    requires s != [] && IsSeparator(k, s[0])
    ensures WordChars(SquashRuns(s, k)) == WordChars(SquashRuns(DropRun(s, k), k))
  {
    var rest := SquashRuns(DropRun(s, k), k);
    assert SquashRuns(s, k) == "_" + rest;
    UnderscoreHasNoWordChars(rest);
  }

  lemma UnderscoreHasNoWordChars(rest: string)
    ensures WordChars("_" + rest) == WordChars(rest)
  {
    FilterSkipsPrefix("_", rest, IsWordChar);
  }

  /** A leading run of separators holds no description character. */
  lemma DropRunKeepsWords(s: string, k: Separator)
    ensures WordChars(s) == WordChars(DropRun(s, k))
  {
    var t := DropRun(s, k);
    var head := s[..|s| - |t|];
    assert s == head + t;
    SeparatorsHaveNoWordChars(s, k);
    forall i | 0 <= i < |head|
      ensures !IsWordChar(head[i])
    {
      assert head[i] == s[i];
    }
    FilterSkipsPrefix(head, t, IsWordChar);
  }

  /** The run `DropRun` removes holds no description character. */
  lemma SeparatorsHaveNoWordChars(s: string, k: Separator)
    ensures forall i :: 0 <= i < |s| - |DropRun(s, k)| ==> !IsWordChar(s[i])
  {
    DropRunDropsSeparators(s, k);
    forall i | 0 <= i < |s| - |DropRun(s, k)|
      ensures !IsWordChar(s[i])
    {
      SeparatorIsNoWordChar(k, s[i]);
    }
  }

  lemma SeparatorIsNoWordChar(k: Separator, c: char)
    requires IsSeparator(k, c)
    ensures !IsWordChar(c)
  {
  }

  /** One step of `SquashRuns` on a leading character that stays. */
  lemma SquashKeepStep(s: string, k: Separator)
    requires s != [] && !IsSeparator(k, s[0])
    ensures WordChars(SquashRuns(s, k)) == WordChars([s[0]]) + WordChars(SquashRuns(s[1..], k))
    ensures WordChars(s) == WordChars([s[0]]) + WordChars(s[1..])
  {
    var rest := SquashRuns(s[1..], k);
    assert SquashRuns(s, k) == [s[0]] + rest;
    WordCharsOfCons(s[0], rest);
    assert s == [s[0]] + s[1..];
    WordCharsOfCons(s[0], s[1..]);
  }

  lemma WordCharsOfCons(c: char, rest: string)
    ensures WordChars([c] + rest) == WordChars([c]) + WordChars(rest)
  {
    FilterAppend([c], rest, IsWordChar);
  }

  /** Squashing runs of separators keeps the description characters. */
  lemma {:induction false} SquashKeepsWords(s: string, k: Separator)
    ensures WordChars(SquashRuns(s, k)) == WordChars(s)
    decreases |s|
  {
    if s != [] {
      if IsSeparator(k, s[0]) {
        SquashKeepsWords(DropRun(s, k), k);
        SquashRunStep(s, k);
        DropRunKeepsWords(s, k);
      } else {
        SquashKeepsWords(s[1..], k);
        SquashKeepStep(s, k);
      }
    }
  }

  /** Removing edge underscores keeps the description characters. */
  lemma StripKeepsWords(s: string)
    ensures WordChars(StripEdgeUnderscores(s)) == WordChars(s)
  {
    var t := if |s| > 0 && s[0] == '_' then s[1..] else s;
    if |s| > 0 && s[0] == '_' {
      assert s == [s[0]] + t;
      FilterAppend([s[0]], t, IsWordChar);
      assert Filter([s[0]], IsWordChar) == [];
    }
    if |t| > 0 && t[|t| - 1] == '_' {
      assert t == t[..|t| - 1] + [t[|t| - 1]];
    }
  }

  /** Lower-cased input, its description characters kept in order: what a
      cleaned name spells once its separators are ignored. */
  lemma CleanStagesKeepWords(name: string)
    ensures WordChars(CleanStages(name)) == WordChars(Lower(name))
  {
    var kept := Filter(Lower(name), IsKept);
    FilterTwice(Lower(name), IsKept, IsWordChar);
    var spaced := SquashRuns(kept, Whitespace);
    SquashKeepsWords(kept, Whitespace);
    var squashed := SquashRuns(spaced, Underscore);
    SquashKeepsWords(spaced, Underscore);
    StripKeepsWords(squashed);
  }

  /** `cleanFilename` loses no description character except by truncation:
      ignoring separators, its output is a prefix of the lower-cased
      input's letters, digits and `-`, and all of them when nothing was cut. */
  lemma CleanFilenameKeepsWords(name: string)
    ensures |CleanStages(name)| <= MaxNameLength ==> WordChars(CleanFilename(name)) == WordChars(Lower(name))
    ensures exists k :: 0 <= k <= |WordChars(Lower(name))| && WordChars(CleanFilename(name)) == WordChars(Lower(name))[..k]
  {
    var full := CleanStages(name);
    CleanStagesKeepWords(name);
    var r := CleanFilename(name);
    assert r == full[..|r|];
    FilterOfPrefix(full, |r|, IsWordChar);
    var k := |WordChars(r)|;
    assert WordChars(r) == WordChars(Lower(name))[..k];
  }

  /** Squashing is the identity on a string without characters to squash. */
  lemma {:induction false} SquashNothing(s: string, k: Separator)
    requires forall i :: 0 <= i < |s| ==> !IsSeparator(k, s[i])
    ensures SquashRuns(s, k) == s
  {
    if s != [] {
      SquashNothing(s[1..], k);
    }
  }

  /** Squashing `_` runs is the identity on a string without `__`. */
  lemma {:induction false} SquashSingleUnderscores(s: string)
    requires NoDoubleUnderscore(s)
    ensures SquashRuns(s, Underscore) == s
  {
    if s != [] {
      SquashSingleUnderscores(s[1..]);
      if s[0] == '_' {
        assert DropRun(s, Underscore) == s[1..];
      }
    }
  }

  /** A string cleaning leaves alone: lower case, name characters only, no
      `__`, no `_` at either end, short enough. */
  predicate IsCleanShape(s: string)
  {
    && (forall i :: 0 <= i < |s| ==> IsNameChar(s[i]))
    && NoDoubleUnderscore(s)
    && (s == [] || (s[0] != '_' && s[|s| - 1] != '_'))
    && |s| <= MaxNameLength
  }

  /** Cleaning leaves a clean-shaped string as it is. */
  lemma CleanFixesCleanShape(s: string)
    requires IsCleanShape(s)
    ensures CleanFilename(s) == s
  {
    CleanStagesFix(s);
  }

  /** Each stage leaves a clean-shaped string alone. */
  lemma CleanStagesFix(s: string)
    requires IsCleanShape(s)
    ensures CleanStages(s) == s
  {
    CleanShapeIsLowerAndKept(s);
    CleanShapeSquashesNothing(s);
    CleanShapeHasNoEdges(s);
    StagesCompose(s, s, s);
  }

  lemma CleanShapeIsLowerAndKept(s: string)
    requires IsCleanShape(s)
    ensures Filter(Lower(s), IsKept) == s
  {
    LowerFixes(s);
    FilterKeepsAll(s, IsKept);
  }

  lemma CleanShapeSquashesNothing(s: string)
    requires IsCleanShape(s)
    ensures SquashRuns(s, Whitespace) == s && SquashRuns(s, Underscore) == s
  {
    NameCharsHaveNoSpaces(s);
    SquashNothing(s, Whitespace);
    SquashSingleUnderscores(s);
  }

  lemma CleanShapeHasNoEdges(s: string)
    requires IsCleanShape(s)
    ensures StripEdgeUnderscores(s) == s
  {
  }

  /** The stages of cleaning, composed: lower-casing and filtering give
      `kept`, squashing whitespace gives `r`, and the last two stages leave
      `r` alone. */
  lemma StagesCompose(s: string, kept: string, r: string)
    requires Filter(Lower(s), IsKept) == kept && SquashRuns(kept, Whitespace) == r
    requires SquashRuns(r, Underscore) == r && StripEdgeUnderscores(r) == r
    ensures CleanStages(s) == r
  {
  }

  /** No name character is whitespace. */
  lemma NameCharsHaveNoSpaces(s: string)
    requires forall i :: 0 <= i < |s| ==> IsNameChar(s[i])
    ensures forall i :: 0 <= i < |s| ==> !IsSeparator(Whitespace, s[i])
  {
    forall i | 0 <= i < |s|
      ensures !IsSeparator(Whitespace, s[i])
    {
      NameCharIsNoSpace(s[i]);
    }
  }

  lemma NameCharIsNoSpace(c: char)
    requires IsNameChar(c)
    ensures !IsSpace(c)
  {
  }

  /** Cleaning twice is cleaning once whenever the first result does not end
      in `_` (the only thing truncation can leave behind). */
  lemma CleanIdempotentUnlessTrailingUnderscore(name: string)
    requires var r := CleanFilename(name); r == [] || r[|r| - 1] != '_'
    ensures CleanFilename(CleanFilename(name)) == CleanFilename(name)
  {
    CleanFixesCleanShape(CleanFilename(name));
  }

  /** A name whose cleaned form is at most 50 characters never ends in `_`. */
  lemma CleanShortNoTrailingUnderscore(name: string)
    requires |CleanStages(name)| <= MaxNameLength
    ensures IsCleanShape(CleanFilename(name))
  {
  }

  /** Squashing distributes over a prefix that has nothing to squash. */
  lemma {:induction false} SquashAfterPlainPrefix(x: string, y: string, k: Separator)
    requires forall i :: 0 <= i < |x| ==> !IsSeparator(k, x[i])
    ensures SquashRuns(x + y, k) == x + SquashRuns(y, k)
    decreases |x|
  {
    if x == [] {
      assert x + y == y;
    } else {
      var c, rest := x[0], x[1..];
      assert forall i :: 0 <= i < |rest| ==> !IsSeparator(k, rest[i]) by {
        forall i | 0 <= i < |rest|
          ensures !IsSeparator(k, rest[i])
        {
          assert rest[i] == x[i + 1];
        }
      }
      SquashAfterPlainPrefix(rest, y, k);
      var tail := SquashRuns(y, k);
      assert x + y == [c] + (rest + y) by {
        AppendAssoc([c], rest, y);
        assert [c] + rest == x;
      }
      SquashPlainHead(c, rest + y, k);
      assert [c] + (rest + tail) == x + tail by {
        AppendAssoc([c], rest, tail);
        assert [c] + rest == x;
      }
    }
  }

  /** A character that is not a separator is kept as it is. */
  lemma SquashPlainHead(c: char, s: string, k: Separator)
    requires !IsSeparator(k, c)
    ensures SquashRuns([c] + s, k) == [c] + SquashRuns(s, k)
  {
    assert ([c] + s)[1..] == s;
  }

  /** `x` is a run of separators of kind `k`. */
  predicate AllSeparators(x: string, k: Separator)
  {
    forall i :: 0 <= i < |x| ==> IsSeparator(k, x[i])
  }

  /** `DropRun` removes a whole run and nothing after it. */
  lemma {:induction false} DropRunOfRun(x: string, y: string, k: Separator)
    requires AllSeparators(x, k)
    requires y == [] || !IsSeparator(k, y[0])
    ensures DropRun(x + y, k) == y
    decreases |x|
  {
    if x == [] {
      assert x + y == y;
    } else {
      assert (x + y)[0] == x[0];
      assert (x + y)[1..] == x[1..] + y;
      assert AllSeparators(x[1..], k) by {
        forall i | 0 <= i < |x| - 1
          ensures IsSeparator(k, x[1..][i])
        {
          assert x[1..][i] == x[i + 1];
        }
      }
      DropRunOfRun(x[1..], y, k);
    }
  }

  /** A maximal run of separators becomes exactly one `_`. */
  lemma SquashRunsOfRun(x: string, y: string, k: Separator)
    requires x != [] && AllSeparators(x, k)
    requires y == [] || !IsSeparator(k, y[0])
    ensures SquashRuns(x + y, k) == "_" + SquashRuns(y, k)
  {
    DropRunOfRun(x, y, k);
    assert (x + y)[0] == x[0];
  }

  /** A run between a separator-free prefix and what follows it becomes one
      `_` in its place. */
  lemma SquashBetween(w: string, x: string, y: string, k: Separator)
    requires forall i :: 0 <= i < |w| ==> !IsSeparator(k, w[i])
    requires x != [] && AllSeparators(x, k)
    requires y == [] || !IsSeparator(k, y[0])
    ensures SquashRuns(w + x + y, k) == w + "_" + SquashRuns(y, k)
  {
    AppendAssoc(w, x, y);
    SquashAfterPlainPrefix(w, x + y, k);
    SquashRunsOfRun(x, y, k);
    AppendAssoc(w, "_", SquashRuns(y, k));
  }

  /** `[a-z0-9-]*`: characters that carry the description. */
  predicate AllWordChars(s: string)
  {
    forall i :: 0 <= i < |s| ==> IsWordChar(s[i])
  }

  /** Two words with a run of whitespace between them, such as
      `"on \t windowsill"`, clean (before truncation) to the words joined
      by one `_`. */
  lemma CleanStagesJoinsWords(a: string, ws: string, b: string)
    requires a != [] && b != [] && AllWordChars(a) && AllWordChars(b)
    requires ws != [] && AllSeparators(ws, Whitespace)
    ensures CleanStages(a + ws + b) == a + "_" + b
  {
    var s := a + ws + b;
    var r := a + "_" + b;
    assert Filter(Lower(s), IsKept) == s by {
      JoinedIsLowerAndKept(a, ws, b);
    }
    assert SquashRuns(s, Whitespace) == r by {
      JoinedSquashesSpaces(a, ws, b);
    }
    assert SquashRuns(r, Underscore) == r by {
      JoinedHasSingleUnderscore(a, b);
    }
    assert StripEdgeUnderscores(r) == r by {
      assert r[0] == a[0] && r[|r| - 1] == b[|b| - 1];
      assert IsWordChar(a[0]) && IsWordChar(b[|b| - 1]);
    }
    StagesCompose(s, s, r);
  }

  /** `cleanFilename` of two such words, when the result fits. */
  lemma CleanFilenameJoinsWords(a: string, ws: string, b: string)
    requires a != [] && b != [] && AllWordChars(a) && AllWordChars(b)
    requires ws != [] && AllSeparators(ws, Whitespace)
    requires |a| + 1 + |b| <= MaxNameLength
    ensures CleanFilename(a + ws + b) == a + "_" + b
  {
    CleanStagesJoinsWords(a, ws, b);
  }

  lemma JoinedIsLowerAndKept(a: string, ws: string, b: string)
    requires AllWordChars(a) && AllWordChars(b) && AllSeparators(ws, Whitespace)
    ensures Lower(a + ws + b) == a + ws + b
    ensures Filter(a + ws + b, IsKept) == a + ws + b
  {
    var s := a + ws + b;
    forall i | 0 <= i < |s|
      ensures IsKept(s[i]) && !IsAsciiUpper(s[i]) && s[i] != '\U{0130}' && s[i] != '\U{212A}'
    {
      if i < |a| {
        assert s[i] == a[i] && IsWordChar(a[i]);
      } else if i < |a| + |ws| {
        assert s[i] == ws[i - |a|] && IsSeparator(Whitespace, ws[i - |a|]);
      } else {
        assert s[i] == b[i - |a| - |ws|] && IsWordChar(b[i - |a| - |ws|]);
      }
    }
    LowerFixes(s);
    FilterKeepsAll(s, IsKept);
  }

  /** Kept characters, whitespace and word characters are kept characters. */
  lemma WordsAndSpacesAreKept(a: string, ws: string, b: string)
    requires AllKept(a) || AllWordChars(a)
    requires AllSeparators(ws, Whitespace) && AllWordChars(b)
    ensures AllKept(a + ws + b)
  {
    var s := a + ws + b;
    forall i | 0 <= i < |s|
      ensures IsKept(s[i])
    {
      if i < |a| {
        assert s[i] == a[i];
        if AllWordChars(a) {
          assert IsWordChar(a[i]);
        }
      } else if i < |a| + |ws| {
        assert s[i] == ws[i - |a|] && IsSeparator(Whitespace, ws[i - |a|]);
      } else {
        assert s[i] == b[i - |a| - |ws|] && IsWordChar(b[i - |a| - |ws|]);
      }
    }
  }

  lemma WordCharsAreNoSeparators(w: string, k: Separator)
    requires AllWordChars(w)
    ensures forall i :: 0 <= i < |w| ==> !IsSeparator(k, w[i])
  {
    forall i | 0 <= i < |w|
      ensures !IsSeparator(k, w[i])
    {
      assert IsWordChar(w[i]);
    }
  }

  lemma JoinedSquashesSpaces(a: string, ws: string, b: string)
    requires b != [] && AllWordChars(a) && AllWordChars(b)
    requires ws != [] && AllSeparators(ws, Whitespace)
    ensures SquashRuns(a + ws + b, Whitespace) == a + "_" + b
  {
    WordCharsAreNoSeparators(a, Whitespace);
    WordCharsAreNoSeparators(b, Whitespace);
    SquashBetween(a, ws, b, Whitespace);
    SquashNothing(b, Whitespace);
  }

  lemma JoinedHasSingleUnderscore(a: string, b: string)
    requires AllWordChars(a) && AllWordChars(b)
    ensures SquashRuns(a + "_" + b, Underscore) == a + "_" + b
  {
    WordCharsHaveNoUnderscore(b);
    JoinKeepsSingleUnderscores(a, b);
    SquashSingleUnderscores(a + "_" + b);
  }

  lemma WordCharsHaveNoUnderscore(w: string)
    requires AllWordChars(w)
    ensures NoDoubleUnderscore(w) && (w == [] || w[0] != '_')
  {
    if w != [] {
      assert IsWordChar(w[0]);
    }
    forall i | 0 <= i < |w| - 1
      ensures w[i] != '_'
    {
      assert IsWordChar(w[i]);
    }
  }

  /** Word characters, `_` and a string without `__` that does not start
      with `_` have no `__` together. */
  lemma JoinKeepsSingleUnderscores(a: string, b: string)
    requires AllWordChars(a)
    requires NoDoubleUnderscore(b) && (b == [] || b[0] != '_')
    ensures NoDoubleUnderscore(a + "_" + b)
  {
    var r := a + "_" + b;
    forall i | 0 <= i < |r| - 1
      ensures !(r[i] == '_' && r[i + 1] == '_')
    {
      if i < |a| {
        assert r[i] == a[i] && IsWordChar(a[i]);
      } else if i == |a| {
        assert r[i + 1] == b[0];
      } else {
        assert r[i] == b[i - |a| - 1] && r[i + 1] == b[i - |a|];
      }
    }
  }

  /** `cleanFilename("Cat on Windowsill!!")` is `"cat_on_windowsill"`: the
      capitals are lowered, `!` is dropped and each space becomes `_`. */
  lemma CleanCatOnWindowsill()
    ensures CleanFilename("Cat on Windowsill!!") == "cat_on_windowsill"
  {
    CatOnWindowsillKept();
    CatOnWindowsillSquashed();
    CatOnWindowsillEdges();
    CleanOfStages("Cat on Windowsill!!", "cat on windowsill", "cat_on_windowsill");
  }

  lemma CatOnWindowsillEdges()
    ensures StripEdgeUnderscores("cat_on_windowsill") == "cat_on_windowsill"
    ensures |"cat_on_windowsill"| <= MaxNameLength
  {
    var r := "cat_on_windowsill";
    assert r[0] == 'c' && r[|r| - 1] == 'l';
  }

  /** `cleanFilename` through its stages, when the result fits. */
  lemma CleanOfStages(s: string, kept: string, r: string)
    requires Filter(Lower(s), IsKept) == kept && SquashRuns(kept, Whitespace) == r
    requires SquashRuns(r, Underscore) == r && StripEdgeUnderscores(r) == r
    requires |r| <= MaxNameLength
    ensures CleanFilename(s) == r
  {
    StagesCompose(s, kept, r);
  }

  lemma CatOnWindowsillKept()
    ensures Filter(Lower("Cat on Windowsill!!"), IsKept) == "cat on windowsill"
  {
    CatOnWindowsillLowered();
    CatOnWindowsillFiltered();
  }

  lemma CatOnWindowsillLowered()
    ensures Lower("Cat on Windowsill!!") == "cat on windowsill!!"
  {
    CatOnWindowsillPieces();
    LowerTwoCapitals('C', "at on ", 'W', "indowsill!!");
  }

  /** Lower-casing two capitals, each followed by text with nothing to lower. */
  lemma LowerTwoCapitals(c1: char, p2: string, c3: char, p4: string)
    requires IsAsciiUpper(c1) && IsAsciiUpper(c3)
    requires forall i :: 0 <= i < |p2| ==> !IsAsciiUpper(p2[i]) && p2[i] != '\U{0130}' && p2[i] != '\U{212A}'
    requires forall i :: 0 <= i < |p4| ==> !IsAsciiUpper(p4[i]) && p4[i] != '\U{0130}' && p4[i] != '\U{212A}'
    ensures Lower([c1] + p2 + [c3] + p4) == LowerChar(c1) + p2 + LowerChar(c3) + p4
  {
    LowerFourPieces([c1], p2, [c3], p4);
    LowerOfOne(c1);
    LowerOfOne(c3);
    LowerFixes(p2);
    LowerFixes(p4);
  }

  lemma LowerFourPieces(p1: string, p2: string, p3: string, p4: string)
    ensures Lower(p1 + p2 + p3 + p4) == Lower(p1) + Lower(p2) + Lower(p3) + Lower(p4)
  {
    LowerAppend(p1 + p2 + p3, p4);
    LowerAppend(p1 + p2, p3);
    LowerAppend(p1, p2);
  }

  lemma LowerOfOne(c: char)
    ensures Lower([c]) == LowerChar(c)
  {
    assert [c][1..] == [];
  }

  lemma CatOnWindowsillPieces()
    ensures "Cat on Windowsill!!" == "C" + "at on " + "W" + "indowsill!!"
    ensures "c" + "at on " + "w" + "indowsill!!" == "cat on windowsill!!"
  {
  }

  lemma CatOnWindowsillFiltered()
    ensures Filter("cat on windowsill!!", IsKept) == "cat on windowsill"
  {
    var kept, dropped := "cat on windowsill", "!!";
    assert Filter(kept + dropped, IsKept) == Filter(kept, IsKept) + Filter(dropped, IsKept) by {
      FilterAppend(kept, dropped, IsKept);
    }
    assert Filter(kept, IsKept) == kept by {
      CatOnWindowsillAllKept();
      FilterKeepsAll(kept, IsKept);
    }
    assert Filter(dropped, IsKept) == [] by {
      FilterNone(dropped, IsKept);
    }
    assert kept + dropped == "cat on windowsill!!";
  }

  lemma CatOnWindowsillAllKept()
    ensures AllKept("cat on windowsill")
  {
    var cat, on, sill := "cat", "on", "windowsill";
    assert "cat on windowsill" == cat + " " + on + " " + sill;
    assert AllWordChars(cat) && AllWordChars(on) && AllWordChars(sill);
    assert AllSeparators(" ", Whitespace);
    WordsAndSpacesAreKept(cat, " ", on);
    WordsAndSpacesAreKept(cat + " " + on, " ", sill);
  }

  lemma CatOnWindowsillSquashed()
    ensures SquashRuns("cat on windowsill", Whitespace) == "cat_on_windowsill"
    ensures SquashRuns("cat_on_windowsill", Underscore) == "cat_on_windowsill"
  {
    CatOnWindowsillSpacesSquashed();
    CatOnWindowsillUnderscoresKept();
  }

  lemma CatOnWindowsillSpacesSquashed()
    ensures SquashRuns("cat on windowsill", Whitespace) == "cat_on_windowsill"
  {
    var cat, on, sill := "cat", "on", "windowsill";
    assert AllWordChars(cat) && AllWordChars(on) && AllWordChars(sill);
    SquashThreeWords(cat, on, sill);
    CatOnWindowsillWords();
  }

  lemma CatOnWindowsillWords()
    ensures "cat on windowsill" == "cat" + " " + ("on" + " " + "windowsill")
    ensures "cat_on_windowsill" == "cat" + "_" + ("on" + "_" + "windowsill")
  {
  }

  /** Three words with one space between each: each space becomes `_`. */
  lemma SquashThreeWords(a: string, b: string, c: string)
    requires a != [] && b != [] && c != []
    requires AllWordChars(a) && AllWordChars(b) && AllWordChars(c)
    ensures SquashRuns(a + " " + (b + " " + c), Whitespace) == a + "_" + (b + "_" + c)
  {
    assert AllSeparators(" ", Whitespace);
    var tail := b + "_" + c;
    assert SquashRuns(b + " " + c, Whitespace) == tail by {
      JoinedSquashesSpaces(b, " ", c);
    }
    WordCharsAreNoSeparators(a, Whitespace);
    SquashBetween(a, " ", b + " " + c, Whitespace);
  }

  lemma CatOnWindowsillUnderscoresKept()
    ensures SquashRuns("cat_on_windowsill", Underscore) == "cat_on_windowsill"
  {
    var cat, on, sill := "cat", "on", "windowsill";
    assert AllWordChars(cat) && AllWordChars(on) && AllWordChars(sill);
    var tail := on + "_" + sill;
    assert "cat_on_windowsill" == cat + "_" + tail;
    assert NoDoubleUnderscore(cat + "_" + tail) by {
      WordCharsHaveNoUnderscore(on);
      WordCharsHaveNoUnderscore(sill);
      JoinKeepsSingleUnderscores(on, sill);
      JoinKeepsSingleUnderscores(cat, tail);
    }
    SquashSingleUnderscores(cat + "_" + tail);
  }

  predicate AllLetters(s: string)
  {
    forall i :: 0 <= i < |s| ==> 'a' <= s[i] <= 'z'
  }

  lemma LettersSpaceLetterKept(letters: string)
    requires AllLetters(letters)
    ensures Filter(Lower(letters + " b"), IsKept) == letters + " b"
  {
    var name := letters + " b";
    assert forall i :: 0 <= i < |name| ==> !IsAsciiUpper(name[i]) && name[i] != '\U{0130}' && name[i] != '\U{212A}';
    LowerFixes(name);
    FilterKeepsAll(name, IsKept);
  }

  /** `"b"` has nothing to squash. */
  lemma SquashB(k: Separator)
    ensures DropRun("b", k) == "b" && SquashRuns("b", k) == "b"
  {
    var s := "b";
    assert s[0] == 'b' && s[1..] == [];
    BIsNoSeparator(k);
    assert SquashRuns(s[1..], k) == [];
  }

  lemma BIsNoSeparator(k: Separator)
    ensures !IsSeparator(k, 'b')
  {
  }

  lemma SquashSpaceB()
    ensures SquashRuns(" b", Whitespace) == "_b"
  {
    SquashB(Whitespace);
    assert " b"[1..] == "b";
    assert DropRun(" b", Whitespace) == "b";
  }

  lemma SquashUnderscoreB()
    ensures SquashRuns("_b", Underscore) == "_b"
  {
    SquashB(Underscore);
    assert "_b"[1..] == "b";
    assert DropRun("_b", Underscore) == "b";
  }

  lemma LettersAreNoSeparators(letters: string, k: Separator)
    requires AllLetters(letters)
    ensures forall i :: 0 <= i < |letters| ==> !IsSeparator(k, letters[i])
  {
    forall i | 0 <= i < |letters|
      ensures !IsSeparator(k, letters[i])
    {
      assert 'a' <= letters[i] <= 'z';
    }
  }

  lemma LettersSpaceLetterSpaced(letters: string)
    requires AllLetters(letters)
    ensures SquashRuns(letters + " b", Whitespace) == letters + "_b"
  {
    LettersAreNoSeparators(letters, Whitespace);
    SquashAfterPlainPrefix(letters, " b", Whitespace);
    SquashSpaceB();
  }

  lemma LettersUnderscoreLetterSquashed(letters: string)
    requires AllLetters(letters)
    ensures SquashRuns(letters + "_b", Underscore) == letters + "_b"
  {
    LettersAreNoSeparators(letters, Underscore);
    SquashAfterPlainPrefix(letters, "_b", Underscore);
    SquashUnderscoreB();
  }

  /** Before truncation, letters, a space and one more letter clean to the
      letters, `_` and the last letter. */
  lemma CleanStagesOfLongName(letters: string)
    requires AllLetters(letters) && letters != []
    ensures CleanStages(letters + " b") == letters + "_b"
  {
    LettersSpaceLetterKept(letters);
    LettersSpaceLetterSpaced(letters);
    LettersUnderscoreLetterSquashed(letters);
    var r := letters + "_b";
    assert r[0] == letters[0] && r[|r| - 1] == 'b';
  }

  lemma TrailingUnderscoreLowered(letters: string)
    requires AllLetters(letters)
    ensures Lower(letters + "_") == letters + "_"
  {
    var once := letters + "_";
    forall i | 0 <= i < |once|
      ensures !IsAsciiUpper(once[i]) && once[i] != '\U{0130}' && once[i] != '\U{212A}'
    {
      if i < |letters| {
        assert once[i] == letters[i];
      }
    }
    LowerFixes(once);
  }

  lemma TrailingUnderscoreKept(letters: string)
    requires AllLetters(letters)
    ensures Filter(letters + "_", IsKept) == letters + "_"
  {
    var once := letters + "_";
    forall i | 0 <= i < |once|
      ensures IsKept(once[i])
    {
      if i < |letters| {
        assert once[i] == letters[i];
      }
    }
    FilterKeepsAll(once, IsKept);
  }

  lemma TrailingUnderscoreSquashed(letters: string)
    requires AllLetters(letters)
    ensures SquashRuns(letters + "_", Whitespace) == letters + "_"
    ensures SquashRuns(letters + "_", Underscore) == letters + "_"
  {
    var once := letters + "_";
    forall i | 0 <= i < |once|
      ensures !IsSeparator(Whitespace, once[i])
    {
      if i < |letters| {
        assert once[i] == letters[i];
      }
    }
    SquashNothing(once, Whitespace);
    forall i | 0 <= i < |once| - 1
      ensures !(once[i] == '_' && once[i + 1] == '_')
    {
      assert once[i] == letters[i];
    }
    SquashSingleUnderscores(once);
  }

  lemma TrailingUnderscoreStripped(letters: string)
    requires AllLetters(letters)
    ensures StripEdgeUnderscores(letters + "_") == letters
  {
    var once := letters + "_";
    assert once[|once| - 1] == '_';
    assert once[..|once| - 1] == letters;
    if letters != [] {
      assert once[0] == letters[0];
    }
  }

  lemma CleanStagesOfTrailingUnderscore(letters: string)
    requires AllLetters(letters)
    ensures CleanStages(letters + "_") == letters
  {
    TrailingUnderscoreLowered(letters);
    TrailingUnderscoreKept(letters);
    TrailingUnderscoreSquashed(letters);
    TrailingUnderscoreStripped(letters);
  }

  /** Truncation can leave a trailing `_`: 49 letters, a space and one
      more letter clean to the 49 letters and `_`, which clean again to the
      49 letters alone. */
  lemma TruncationLeavesTrailingUnderscore(letters: string)
    requires AllLetters(letters) && |letters| == MaxNameLength - 1
    ensures CleanFilename(letters + " b") == letters + "_"
    ensures CleanFilename(letters + "_") == letters
  {
    CleanStagesOfLongName(letters);
    assert (letters + "_b")[..MaxNameLength] == letters + "_";
    CleanStagesOfTrailingUnderscore(letters);
  }

  /** So `cleanFilename` is not idempotent. */
  lemma CleanFilenameNotIdempotent()
    ensures exists name :: CleanFilename(CleanFilename(name)) != CleanFilename(name)
  {
    var letters := seq(MaxNameLength - 1, _ => 'a');
    TruncationLeavesTrailingUnderscore(letters);
    var name := letters + " b";
    assert CleanFilename(CleanFilename(name)) != CleanFilename(name) by {
      assert |letters + "_"| != |letters|;
    }
  }

  // ------------------------------------------------------ fallback name

  /** The characters `.replace(/[-:T]/g, '')` keeps. */
  predicate KeptInStamp(c: char)
  {
    c != '-' && c != ':' && c != 'T'
  }

  /** `toISOString().slice(0, 19).replace(/[-:T]/g, '')`: `YYYYMMDDHHmmss`. */
  function CompactStamp(t: Stamp): string
  {
    Filter(IsoString(t)[..19], KeptInStamp)
  }

  /** Removing a separator and keeping a block of digits. */
  lemma FilterSeparatorThenDigits(s: string, sep: char, d: string)
    requires !KeptInStamp(sep)
    requires forall i :: 0 <= i < |d| ==> IsDigit(d[i])
    ensures Filter(s + [sep] + d, KeptInStamp) == Filter(s, KeptInStamp) + d
  {
    assert Filter([sep], KeptInStamp) == [] by {
      assert [sep][..0] == [];
    }
    assert Filter(s + [sep], KeptInStamp) == Filter(s, KeptInStamp) by {
      FilterAppend(s, [sep], KeptInStamp);
    }
    assert Filter(d, KeptInStamp) == d by {
      FilterKeepsAll(d, KeptInStamp);
    }
    FilterAppend(s + [sep], d, KeptInStamp);
  }

  /** The compact stamp is the six calendar and clock fields, in order,
      as 14 digits. */
  lemma CompactStampFields(t: Stamp)
    ensures CompactStamp(t) == Digits(t.year, 4) + Digits(t.month, 2) + Digits(t.day, 2)
      + Digits(t.hour, 2) + Digits(t.minute, 2) + Digits(t.second, 2)
  {
    var y, mo, d := Digits(t.year, 4), Digits(t.month, 2), Digits(t.day, 2);
    var h, mi, se := Digits(t.hour, 2), Digits(t.minute, 2), Digits(t.second, 2);
    assert IsoString(t)[..19] == y + "-" + mo + "-" + d + "T" + h + ":" + mi + ":" + se;
    FilterKeepsAll(y, KeptInStamp);
    FilterSeparatorThenDigits(y, '-', mo);
    FilterSeparatorThenDigits(y + "-" + mo, '-', d);
    FilterSeparatorThenDigits(y + "-" + mo + "-" + d, 'T', h);
    FilterSeparatorThenDigits(y + "-" + mo + "-" + d + "T" + h, ':', mi);
    FilterSeparatorThenDigits(y + "-" + mo + "-" + d + "T" + h + ":" + mi, ':', se);
  }

  /** The stamp has 14 digits, and its first eight are the date of the same
      instant without its `-`. */
  lemma CompactStampShape(t: Stamp)
    ensures var r := CompactStamp(t);
      && |r| == 14
      && (forall i :: 0 <= i < 14 ==> IsDigit(r[i]))
      && r[..4] == DateOf(t)[..4] && r[4..6] == DateOf(t)[5..7] && r[6..8] == DateOf(t)[8..10]
  {
    CompactStampDigits(t);
    CompactStampRepeatsDate(t);
  }

  lemma CompactStampDigits(t: Stamp)
    ensures var r := CompactStamp(t);
      |r| == 14 && forall i :: 0 <= i < 14 ==> IsDigit(r[i])
  {
    CompactStampFields(t);
    var y, mo, d := Digits(t.year, 4), Digits(t.month, 2), Digits(t.day, 2);
    var h, mi, se := Digits(t.hour, 2), Digits(t.minute, 2), Digits(t.second, 2);
    AppendDigits(y, mo);
    AppendDigits(y + mo, d);
    AppendDigits(y + mo + d, h);
    AppendDigits(y + mo + d + h, mi);
    AppendDigits(y + mo + d + h + mi, se);
  }

  lemma CompactStampRepeatsDate(t: Stamp)
    ensures var r := CompactStamp(t);
      |r| == 14 && r[..4] == DateOf(t)[..4] && r[4..6] == DateOf(t)[5..7] && r[6..8] == DateOf(t)[8..10]
  {
    CompactStampFields(t);
    var y, mo, d := Digits(t.year, 4), Digits(t.month, 2), Digits(t.day, 2);
    var h, mi, se := Digits(t.hour, 2), Digits(t.minute, 2), Digits(t.second, 2);
    assert CompactStamp(t) == y + mo + d + (h + mi + se);
    assert DateOf(t) == y + "-" + mo + "-" + d;
    DatePartsAtOffsets(y, mo, d, h + mi + se);
  }

  /** Where a year, a month and a day sit, run together and dash-separated. */
  lemma DatePartsAtOffsets(y: string, mo: string, d: string, rest: string)
    requires |y| == 4 && |mo| == 2 && |d| == 2
    ensures var r := y + mo + d + rest; r[..4] == y && r[4..6] == mo && r[6..8] == d
    ensures var date := y + "-" + mo + "-" + d; date[..4] == y && date[5..7] == mo && date[8..10] == d
  {
    var r := y + mo + d + rest;
    assert r[..4] == y && r[4..6] == mo && r[6..8] == d;
    var date := y + "-" + mo + "-" + d;
    assert date[..4] == y && date[5..7] == mo && date[8..10] == d;
  }

  lemma AppendDigits(a: string, b: string)
    requires forall i :: 0 <= i < |a| ==> IsDigit(a[i])
    requires forall i :: 0 <= i < |b| ==> IsDigit(b[i])
    ensures forall i :: 0 <= i < |a + b| ==> IsDigit((a + b)[i])
  {
    forall i | 0 <= i < |a + b|
      ensures IsDigit((a + b)[i])
    {
      if i >= |a| {
        assert (a + b)[i] == b[i - |a|];
      }
    }
  }

  /** A date is made of name characters. */
  lemma DateShapeNameChars(s: string)
    requires IsDateShape(s)
    ensures AllNameChars(s)
  {
  }

  /** Gluing strings of name characters with `_` gives name characters. */
  lemma JoinNameChars(a: string, b: string)
    requires AllNameChars(a) && AllNameChars(b)
    ensures AllNameChars(a + "_" + b)
  {
    var r := a + "_" + b;
    assert forall i :: |a| + 1 <= i < |r| ==> r[i] == b[i - |a| - 1];
  }

  /** The name `generateFallbackName` builds from a modification time. */
  function FallbackName(mtime: Stamp): string
  {
    DateOf(mtime) + "_image_" + CompactStamp(mtime)
  }

  /** `generateFallbackName(p)` given the outcome of `statSync(p)`: the
      date and the compact stamp of the file's modification time, or the
      error the stat threw. */
  function GenerateFallbackName(p: Path, stat: Option<Node>): (r: Result<string, AnalysisError>)
    ensures r.Err? <==> stat.None?
    ensures r.Err? ==> r.error == StatFailed(p)
    ensures r.Ok? ==> r.value == FallbackName(stat.value.mtime)
  {
    match stat
    case None => Err(StatFailed(p))
    case Some(n) => Ok(FallbackName(n.mtime))
  }

  /** The fallback name is `YYYY-MM-DD_image_` and the 14-digit stamp whose
      first eight digits repeat the date. */
  lemma FallbackNameShape(mtime: Stamp)
    ensures AllNameChars(FallbackName(mtime))
    ensures var r := FallbackName(mtime);
      && |r| == 31
      && IsDateShape(r[..10]) && r[10..17] == "_image_"
      && (forall i :: 17 <= i < 31 ==> IsDigit(r[i]))
      && r[17..21] == r[..4] && r[21..23] == r[5..7] && r[23..25] == r[8..10]
  {
    FallbackNameParts(mtime);
    FallbackNameDigits(mtime);
    FallbackNameRepeatsDate(mtime);
    FallbackNameChars(mtime);
  }

  lemma FallbackNameDigits(mtime: Stamp)
    ensures var r := FallbackName(mtime);
      |r| == 31 && forall i :: 17 <= i < 31 ==> IsDigit(r[i])
  {
    FallbackNameParts(mtime);
    CompactStampShape(mtime);
    var r, stamp := FallbackName(mtime), CompactStamp(mtime);
    assert forall i :: 17 <= i < 31 ==> r[i] == stamp[i - 17];
  }

  lemma FallbackNameRepeatsDate(mtime: Stamp)
    ensures var r := FallbackName(mtime);
      |r| == 31 && r[17..21] == r[..4] && r[21..23] == r[5..7] && r[23..25] == r[8..10]
  {
    FallbackNameParts(mtime);
    CompactStampShape(mtime);
    var r, date, stamp := FallbackName(mtime), DateOf(mtime), CompactStamp(mtime);
    assert r[17..21] == stamp[..4];
    assert r[21..23] == stamp[4..6];
    assert r[23..25] == stamp[6..8];
    assert r[..4] == date[..4] && r[5..7] == date[5..7] && r[8..10] == date[8..10];
  }

  lemma FallbackNameChars(mtime: Stamp)
    ensures AllNameChars(FallbackName(mtime))
  {
    FallbackNameParts(mtime);
    FallbackNameDigits(mtime);
    var r, date := FallbackName(mtime), DateOf(mtime);
    DateShapeNameChars(date);
    forall i | 0 <= i < |r|
      ensures IsNameChar(r[i])
    {
      if i < 10 {
        assert r[i] == date[i];
      } else if i < 17 {
        assert r[i] == "_image_"[i - 10];
      }
    }
  }

  /** The three pieces of the fallback name and where they sit. */
  lemma FallbackNameParts(mtime: Stamp)
    ensures var r, date, stamp := FallbackName(mtime), DateOf(mtime), CompactStamp(mtime);
      |r| == 31 && r[..10] == date && r[10..17] == "_image_" && r[17..] == stamp
  {
    CompactStampShape(mtime);
  }

  // ---------------------------------------------------- date prefix

  /** `/^\d{4}-\d{2}-\d{2}_/` matches. */
  predicate HasDatePrefix(s: string)
  {
    |s| >= 11 && IsDateShape(s[..10]) && s[10] == '_'
  }

  /** A date followed by `_` and anything has the prefix. */
  lemma DatePrefixed(date: string, rest: string)
    requires IsDateShape(date)
    ensures HasDatePrefix(date + "_" + rest)
  {
    assert (date + "_" + rest)[..10] == date;
  }

  /** The fallback name already carries the date prefix. */
  lemma FallbackNameHasDatePrefix(mtime: Stamp)
    ensures HasDatePrefix(FallbackName(mtime))
  {
    DatePrefixed(DateOf(mtime), "image_" + CompactStamp(mtime));
    assert FallbackName(mtime) == DateOf(mtime) + "_" + ("image_" + CompactStamp(mtime));
  }

  /** `generateSuggestedName(text, metadata)`: the text itself when it
      already starts with a date prefix, otherwise today's date, `_` and the
      text; an empty text falls back to `generateFallbackName('dummy')`,
      whose stat is `dummyStat`. The metadata is not used. */
  function GenerateSuggestedName(text: string, now: Stamp, dummyStat: Option<Node>): (r: Result<string, AnalysisError>)
    ensures text != [] ==> r.Ok?
    ensures text == [] ==> r == GenerateFallbackName("dummy", dummyStat)
    ensures r.Ok? ==> HasDatePrefix(r.value)
    ensures text != [] ==> (r.value == text <==> HasDatePrefix(text))
    ensures text != [] && !HasDatePrefix(text) ==> r.value[..10] == DateOf(now) && r.value[11..] == text
  {
    if text == [] then
      var fallback := GenerateFallbackName("dummy", dummyStat);
      if fallback.Ok? then FallbackNameHasDatePrefix(dummyStat.value.mtime); fallback else fallback
    else if HasDatePrefix(text) then Ok(text)
    else
      DatePrefixed(DateOf(now), text);
      Ok(DateOf(now) + "_" + text)
  }

  /** For a non-empty text and a fixed date, applying the rule twice is
      applying it once. */
  lemma SuggestedNameIdempotent(text: string, now: Stamp, dummyStat: Option<Node>)
    requires text != []
    ensures GenerateSuggestedName(GenerateSuggestedName(text, now, dummyStat).value, now, dummyStat)
      == GenerateSuggestedName(text, now, dummyStat)
  {
  }

  /** A fallback name passes through `generateSuggestedName` unchanged,
      whatever today's date. */
  lemma FallbackPassesThroughSuggestedName(mtime: Stamp, now: Stamp, dummyStat: Option<Node>)
    ensures GenerateSuggestedName(FallbackName(mtime), now, dummyStat) == Ok(FallbackName(mtime))
  {
    FallbackNameHasDatePrefix(mtime);
  }

  // -------------------------------------------------- analyzeImageWithLLM

  /** `analyzeImageWithLLM(p)`, given what `statSync(p)` returns, what the
      model replied and the current instant. Reading the file fails when it
      is missing or a directory, and then, like a failed model call or a
      reply that cleans to nothing, the fallback name is used; the promise
      rejects only when the fallback's own stat throws. */
  function AnalyzeImage(p: Path, stat: Option<Node>, reply: Reply, now: Stamp): (r: Result<string, AnalysisError>)
    ensures r.Err? <==> stat.None?
    ensures r.Ok? ==> HasDatePrefix(r.value) && |r.value| <= 11 + MaxNameLength && AllNameChars(r.value)
    ensures stat.Some? && stat.value.kind == RegularFile && reply.Answer? && CleanFilename(Trim(reply.text)) != []
      ==> r == Ok(DateOf(now) + "_" + CleanFilename(Trim(reply.text)))
    ensures stat.Some? && (stat.value.kind == Directory || reply.Failed? || CleanFilename(Trim(reply.text)) == [])
      ==> r == Ok(FallbackName(stat.value.mtime))
  {
    if stat.None? || stat.value.kind == Directory then
      FallbackResult(p, stat)
    else
      match reply
      case Failed => FallbackResult(p, stat)
      case Answer(text) =>
        var clean := CleanFilename(Trim(text));
        if clean != [] then
          DatePrefixed(DateOf(now), clean);
          DateShapeNameChars(DateOf(now));
          JoinNameChars(DateOf(now), clean);
          Ok(DateOf(now) + "_" + clean)
        else FallbackResult(p, stat)
  }

  /** The fallback branch of `AnalyzeImage`, with the shape facts it needs. */
  function FallbackResult(p: Path, stat: Option<Node>): (r: Result<string, AnalysisError>)
    ensures r == GenerateFallbackName(p, stat)
    ensures r.Ok? ==> HasDatePrefix(r.value) && |r.value| == 31 && AllNameChars(r.value)
  {
    if stat.Some? then
      FallbackNameHasDatePrefix(stat.value.mtime);
      FallbackNameShape(stat.value.mtime);
      GenerateFallbackName(p, stat)
    else GenerateFallbackName(p, stat)
  }

  /** Whatever the analysis returns is kept verbatim by
      `generateSuggestedName`, so a plan's name is the analysis result. */
  lemma AnalysisPassesThroughSuggestedName(p: Path, stat: Option<Node>, reply: Reply, now: Stamp, later: Stamp, dummyStat: Option<Node>)
    requires AnalyzeImage(p, stat, reply, now).Ok?
    ensures var name := AnalyzeImage(p, stat, reply, now).value;
      GenerateSuggestedName(name, later, dummyStat) == Ok(name)
  {
  }
}
