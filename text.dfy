/** The JavaScript string primitives the naming rules rely on, on Dafny's
    `string` (a sequence of Unicode scalar values). */
module Text {

  /** `\s` in a JavaScript regular expression, which is also the set that
      `String.prototype.trim` removes: WhiteSpace and LineTerminator. */
  predicate IsSpace(c: char)
  {
    || c == '\t' || c == '\n' || c == '\U{000B}' || c == '\U{000C}' || c == '\r'
    || c == ' ' || c == '\U{00A0}' || c == '\U{1680}'
    || ('\U{2000}' <= c <= '\U{200A}')
    || c == '\U{2028}' || c == '\U{2029}' || c == '\U{202F}' || c == '\U{205F}'
    || c == '\U{3000}' || c == '\U{FEFF}'
  }

  /** `\d`: an ASCII decimal digit. */
  predicate IsDigit(c: char)
  {
    '0' <= c <= '9'
  }

  predicate IsAsciiUpper(c: char)
  {
    'A' <= c <= 'Z'
  }

  /** `String.prototype.toLowerCase` on one character. ASCII capitals map to
      their small letters; U+0130 (capital I with dot above) becomes `i`
      followed by U+0307, and U+212A (Kelvin sign) becomes `k`. Every other
      character is left as it is: the only other characters that change map
      to non-ASCII letters, which the naming rules delete anyway. */
  function LowerChar(c: char): (r: string)
    ensures 1 <= |r| <= 2
    ensures |r| == 2 <==> c == '\U{0130}'
    ensures forall i :: 0 <= i < |r| ==> !IsAsciiUpper(r[i])
    ensures IsAsciiUpper(c) ==> |r| == 1 && 'a' <= r[0] <= 'z' && r[0] as int - c as int == 'a' as int - 'A' as int
    ensures c == '\U{0130}' ==> r == ['i', '\U{0307}']
    ensures c == '\U{212A}' ==> r == ['k']
    ensures !IsAsciiUpper(c) && c != '\U{0130}' && c != '\U{212A}' ==> r == [c]
  {
    if IsAsciiUpper(c) then [(c as int + 32) as char]
    else if c == '\U{0130}' then ['i', '\U{0307}']
    else if c == '\U{212A}' then ['k']
    else [c]
  }

  /** `String.prototype.toLowerCase`. */
  function Lower(s: string): (r: string)
    ensures |r| >= |s|
    ensures forall i :: 0 <= i < |r| ==> !IsAsciiUpper(r[i])
  {
    if s == [] then [] else LowerChar(s[0]) + Lower(s[1..])
  }

  lemma {:induction false} LowerAppend(a: string, b: string)
    ensures Lower(a + b) == Lower(a) + Lower(b)
  {
    if a == [] {
      assert a + b == b;
    } else {
      assert (a + b)[1..] == a[1..] + b;
      LowerAppend(a[1..], b);
    }
  }

  /** Lower-casing keeps the length and works character by character as long
      as no U+0130 occurs. */
  lemma {:induction false} LowerPointwise(s: string)
    requires forall i :: 0 <= i < |s| ==> s[i] != '\U{0130}'
    ensures |Lower(s)| == |s|
    ensures forall i :: 0 <= i < |s| ==> Lower(s)[i] == LowerChar(s[i])[0]
  {
    if s != [] {
      LowerPointwise(s[1..]);
      forall i | 1 <= i < |s|
        ensures Lower(s)[i] == LowerChar(s[i])[0]
      {
        assert s[1..][i - 1] == s[i];
      }
    }
  }

  /** A string with no capitals and no specially lowered character is its own lower case. */
  lemma {:induction false} LowerFixes(s: string)
    requires forall i :: 0 <= i < |s| ==> !IsAsciiUpper(s[i]) && s[i] != '\U{0130}' && s[i] != '\U{212A}'
    ensures Lower(s) == s
  {
    if s != [] {
      LowerFixes(s[1..]);
    }
  }

  /** `s` without its leading whitespace. */
  function TrimStart(s: string): (r: string)
    ensures |r| <= |s| && r == s[|s| - |r|..]
    ensures r == [] || !IsSpace(r[0])
    ensures forall i :: 0 <= i < |s| - |r| ==> IsSpace(s[i])
  {
    if s == [] || !IsSpace(s[0]) then s else TrimStart(s[1..])
  }

  /** `s` without its trailing whitespace. */
  function TrimEnd(s: string): (r: string)
    ensures |r| <= |s| && r == s[..|r|]
    ensures r == [] || !IsSpace(r[|r| - 1])
    ensures forall i :: |r| <= i < |s| ==> IsSpace(s[i])
  {
    if s == [] || !IsSpace(s[|s| - 1]) then s else TrimEnd(s[..|s| - 1])
  }

  /** `r` is the slice of `s` that starts at `i`, and every character of
      `s` before or after that slice satisfies `p`. */
  predicate SliceAmid(s: string, i: int, r: string, p: char -> bool)
  {
    && 0 <= i && i + |r| <= |s| && r == s[i..i + |r|]
    && (forall j :: 0 <= j < i ==> p(s[j]))
    && (forall j :: i + |r| <= j < |s| ==> p(s[j]))
  }

  /** `String.prototype.trim`: `s` without whitespace at either end. What
      is kept is one slice of `s`, starting at its first non-whitespace
      character, with only whitespace around it. */
  function Trim(s: string): (r: string)
    ensures r == [] || (!IsSpace(r[0]) && !IsSpace(r[|r| - 1]))
    ensures SliceAmid(s, |s| - |TrimStart(s)|, r, IsSpace)
  {
    var t := TrimStart(s);
    SliceBetween(s, t, TrimEnd(t), IsSpace);
    TrimEnd(t)
  }

  /** A prefix `r` of a suffix `t` of `s` is a slice of `s`; when what `t`
      drops and what `r` drops satisfy `p`, so does all of `s` around it. */
  lemma SliceBetween(s: string, t: string, r: string, p: char -> bool)
    requires |t| <= |s| && t == s[|s| - |t|..]
    requires |r| <= |t| && r == t[..|r|]
    requires forall k :: 0 <= k < |s| - |t| ==> p(s[k])
    requires forall k :: |r| <= k < |t| ==> p(t[k])
    ensures SliceAmid(s, |s| - |t|, r, p)
  {
    var i := |s| - |t|;
    forall j | i + |r| <= j < |s|
      ensures p(s[j])
    {
      assert s[j] == t[j - i];
    }
  }

  function DigitChar(d: nat): (c: char)
    requires d < 10
    ensures IsDigit(c)
  {
    ('0' as int + d) as char
  }

  /** The last `width` decimal digits of `n`, padded with leading zeros:
      `String(n).padStart(width, '0')` when `n` has at most `width` digits. */
  function Digits(n: nat, width: nat): (r: string)
    ensures |r| == width
    ensures forall i :: 0 <= i < width ==> IsDigit(r[i])
  {
    if width == 0 then [] else Digits(n / 10, width - 1) + [DigitChar(n % 10)]
  }

  /** `String(n)` for a non-negative integer: its decimal numeral. */
  function Decimal(n: nat): (r: string)
    ensures |r| >= 1
    ensures forall i :: 0 <= i < |r| ==> IsDigit(r[i])
  {
    if n < 10 then [DigitChar(n)] else Decimal(n / 10) + [DigitChar(n % 10)]
  }
}
