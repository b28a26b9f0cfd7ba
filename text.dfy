/** The few Python string primitives the hub relies on: `str.strip()`
    (with Python's own whitespace set), `str.lower()` on ASCII letters and
    `os.path.splitext` on POSIX paths. */
module Text {

  /** Python's whitespace test used by `str.strip()` with no argument:
      the ASCII whitespace 0x09-0x0D, 0x1C-0x1F and the space, plus the
      Unicode space separators and line/paragraph separators. */
  predicate IsSpace(c: char)
  {
    ('\t' <= c <= '\r') || ('\U{1C}' <= c <= '\U{1F}') || c == ' '
    || c == '\U{85}' || c == '\U{A0}' || c == '\U{1680}'
    || ('\U{2000}' <= c <= '\U{200A}') || c == '\U{2028}' || c == '\U{2029}'
    || c == '\U{202F}' || c == '\U{205F}' || c == '\U{3000}'
  }

  /** Every character of `s` is whitespace (the empty string included). */
  predicate IsBlank(s: string)
  {
    forall i :: 0 <= i < |s| ==> IsSpace(s[i])
  }

  /** Index of the first non-whitespace character of `s` at or after `i`,
      or `|s|` when there is none. */
  function SkipSpaces(s: string, i: nat): (k: nat)
    requires i <= |s|
    ensures i <= k <= |s|
    ensures forall j :: i <= j < k ==> IsSpace(s[j])
    ensures k < |s| ==> !IsSpace(s[k])
    decreases |s| - i
  {
    if i < |s| && IsSpace(s[i]) then SkipSpaces(s, i + 1) else i
  }

  /** Moving down from `n` but not below `lo`, the end of `s[lo..n]` once its
      trailing whitespace is cut off. */
  function BackOverSpaces(s: string, lo: nat, n: nat): (k: nat)
    requires lo <= n <= |s|
    ensures lo <= k <= n
    ensures forall j :: k <= j < n ==> IsSpace(s[j])
    ensures k > lo ==> !IsSpace(s[k - 1])
    decreases n
  {
    if n > lo && IsSpace(s[n - 1]) then BackOverSpaces(s, lo, n - 1) else n
  }

  /** Python's `s.strip()`: skip whitespace from the left, then from the
      right down to where the left scan stopped. The result is the piece of
      `s` between the two scans; every character cut off is whitespace and
      the result neither starts nor ends with whitespace. */
  function Strip(s: string): (r: string)
    ensures exists i, j ::
              (0 <= i <= j <= |s| && r == s[i..j]
               && (forall k :: 0 <= k < i ==> IsSpace(s[k]))
               && (forall k :: j <= k < |s| ==> IsSpace(s[k])))
    ensures r != [] ==> !IsSpace(r[0]) && !IsSpace(r[|r| - 1])
  {
    var i := SkipSpaces(s, 0);
    var j := BackOverSpaces(s, i, |s|);
    s[i..j]
  }

  /** `s.strip()` is empty (falsy) exactly when `s` is empty or all whitespace. */
  lemma StripEmptyIffBlank(s: string)
    ensures Strip(s) == [] <==> IsBlank(s)
  {
  }

  /** An ASCII capital letter. */
  predicate IsUpper(c: char)
  {
    'A' <= c <= 'Z'
  }

  /** ASCII lower-casing of one character: a capital letter becomes the
      small letter at the same place in the alphabet; every other character
      is kept. */
  function LowerChar(c: char): (d: char)
    ensures !IsUpper(d)
    ensures !IsUpper(c) ==> d == c
    ensures IsUpper(c) ==> 'a' <= d <= 'z' && d as int - 'a' as int == c as int - 'A' as int
  {
    if IsUpper(c) then (c as int + 32) as char else c
  }

  /** `s.lower()` restricted to ASCII letters: the same length, no capital
      letter left, every character that is not a capital kept in place. */
  function Lower(s: string): (r: string)
    ensures |r| == |s|
    ensures forall i :: 0 <= i < |r| ==> !IsUpper(r[i])
    ensures forall i :: 0 <= i < |s| && !IsUpper(s[i]) ==> r[i] == s[i]
    ensures forall i :: 0 <= i < |s| && IsUpper(s[i]) ==> r[i] as int - 'a' as int == s[i] as int - 'A' as int
  {
    seq(|s|, i requires 0 <= i < |s| => LowerChar(s[i]))
  }

  /** Lower-casing twice is lower-casing once. */
  lemma LowerIdempotent(s: string)
    ensures Lower(Lower(s)) == Lower(s)
  {
  }

  /** Two characters are the same letter up to ASCII case, or equal. */
  predicate SameIgnoringCase(c: char, d: char)
  {
    c == d || (IsUpper(c) && d as int == c as int + 32) || (IsUpper(d) && c as int == d as int + 32)
  }

  /** Two strings lower-case to the same string exactly when they have the
      same length and agree position by position up to ASCII case. */
  lemma LowerEqualIffSameIgnoringCase(a: string, b: string)
    ensures Lower(a) == Lower(b) <==> |a| == |b| && forall i :: 0 <= i < |a| ==> SameIgnoringCase(a[i], b[i])
  {
    if Lower(a) == Lower(b) {
      forall i | 0 <= i < |a| ensures SameIgnoringCase(a[i], b[i]) {
        assert LowerChar(a[i]) == Lower(a)[i] == Lower(b)[i] == LowerChar(b[i]);
      }
    }
    if |a| == |b| && forall i :: 0 <= i < |a| ==> SameIgnoringCase(a[i], b[i]) {
      forall i | 0 <= i < |a| ensures Lower(a)[i] == Lower(b)[i] {
        assert SameIgnoringCase(a[i], b[i]);
      }
    }
  }

  /** Index of the last occurrence of `c` in `s[..n]`, or -1. */
  function LastIndexBefore(s: string, c: char, n: nat): (k: int)
    requires n <= |s|
    ensures -1 <= k < n
    ensures k >= 0 ==> s[k] == c
    ensures forall i :: k < i < n ==> s[i] != c
    decreases n
  {
    if n == 0 then -1
    else if s[n - 1] == c then n - 1
    else LastIndexBefore(s, c, n - 1)
  }

  /** Index of the last occurrence of `c` in `s`, or -1 (Python's `str.rfind`). */
  function RFind(s: string, c: char): (k: int)
    ensures -1 <= k < |s|
    ensures k >= 0 ==> s[k] == c
    ensures forall i :: k < i < |s| ==> s[i] != c
  {
    LastIndexBefore(s, c, |s|)
  }

  /** Every character of `s[lo..hi]` is a dot (an empty range included). */
  predicate DotsOnly(s: string, lo: nat, hi: nat)
    requires lo <= hi <= |s|
    decreases hi - lo
  {
    lo == hi || (s[lo] == '.' && DotsOnly(s, lo + 1, hi))
  }

  /** The last path component before the dot at `dot` (after the slash at
      `sep`, -1 for none) has a character other than a dot. */
  predicate HasStem(p: string, sep: int, dot: int)
    requires -1 <= sep < dot <= |p|
  {
    !DotsOnly(p, sep + 1, dot)
  }

  /** Each character of a range of dots is a dot. */
  lemma {:induction false} DotsOnlyAt(s: string, lo: nat, hi: nat, i: nat)
    requires lo <= i < hi <= |s| && DotsOnly(s, lo, hi)
    ensures s[i] == '.'
    decreases i - lo
  {
    if lo < i {
      DotsOnlyAt(s, lo + 1, hi, i);
    }
  }

  /** A range that is not all dots has a character other than a dot. */
  lemma {:induction false} NotDotsOnly(s: string, lo: nat, hi: nat) returns (i: nat)
    requires lo <= hi <= |s| && !DotsOnly(s, lo, hi)
    ensures lo <= i < hi && s[i] != '.'
    decreases hi - lo
  {
    if s[lo] != '.' {
      i := lo;
    } else {
      i := NotDotsOnly(s, lo + 1, hi);
    }
  }

  /** `os.path.splitext` on a POSIX path: the extension starts at the last dot
      of the last path component, unless everything before that dot in the
      component is dots (a leading-dot name such as ".csv" has no extension). */
  function SplitExt(p: string): (parts: (string, string))
    ensures parts.0 + parts.1 == p
    ensures parts.1 != [] ==> parts.1[0] == '.'
    ensures forall i :: 1 <= i < |parts.1| ==> parts.1[i] != '.'
    ensures forall i :: 0 <= i < |parts.1| ==> parts.1[i] != '/'
  {
    var sep := RFind(p, '/');
    var dot := RFind(p, '.');
    if dot > sep && HasStem(p, sep, dot) then
      var ext := p[dot..];
      assert forall i :: 0 <= i < |ext| ==> ext[i] == p[dot + i];
      (p[..dot], ext)
    else
      (p, [])
  }

  /** The last path component of `p` holds a dot with some character other
      than a dot before it in that component. */
  predicate DotAfterStem(p: string)
  {
    exists i, k :: 0 <= i < k < |p| && p[i] != '.' && p[k] == '.'
      && (forall j :: i <= j < |p| ==> p[j] != '/')
  }

  /** `splitext` finds an extension exactly when the last component has a dot
      after a character other than a dot; the extension is then the suffix
      that starts at the last dot of the path. */
  lemma SplitExtFindsExtension(p: string)
    ensures SplitExt(p).1 != [] <==> DotAfterStem(p)
    ensures SplitExt(p).1 != [] ==> SplitExt(p).1 == p[RFind(p, '.')..]
  {
    var sep := RFind(p, '/');
    var dot := RFind(p, '.');
    if SplitExt(p).1 != [] {
      assert dot > sep && HasStem(p, sep, dot);
      var i := NotDotsOnly(p, sep + 1, dot);
      assert forall j :: i <= j < |p| ==> p[j] != '/';
      assert DotAfterStem(p);
    }
    if DotAfterStem(p) {
      var i, k :| 0 <= i < k < |p| && p[i] != '.' && p[k] == '.'
        && (forall j :: i <= j < |p| ==> p[j] != '/');
      assert k <= dot;
      assert sep < i;
      if DotsOnly(p, sep + 1, dot) {
        DotsOnlyAt(p, sep + 1, dot, i);
      }
      assert HasStem(p, sep, dot);
    }
  }
}
