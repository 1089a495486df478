/** The two Python string operations the enrollment form goes through:
    `str.strip()` with no argument and `str.lower()`. */
module Text {

  /** Python's `str.isspace()` for one character (the characters `strip()` removes). */
  predicate IsSpace(c: char) {
    || '\t' <= c <= '\r'                   // \t \n \v \f \r
    || '\U{1C}' <= c <= ' '                 // file/group/record/unit separators, space
    || c == '\U{85}' || c == '\U{A0}' || c == '\U{1680}'
    || '\U{2000}' <= c <= '\U{200A}'
    || c == '\U{2028}' || c == '\U{2029}' || c == '\U{202F}' || c == '\U{205F}' || c == '\U{3000}'
  }

  /** The 29 characters for which Python's `str.isspace()` holds, one by one. */
  const PYTHON_WHITESPACE: set<char> := {
    '\t', '\n', '\U{0B}', '\U{0C}', '\r', '\U{1C}', '\U{1D}', '\U{1E}', '\U{1F}', ' ',
    '\U{85}', '\U{A0}', '\U{1680}',
    '\U{2000}', '\U{2001}', '\U{2002}', '\U{2003}', '\U{2004}', '\U{2005}',
    '\U{2006}', '\U{2007}', '\U{2008}', '\U{2009}', '\U{200A}',
    '\U{2028}', '\U{2029}', '\U{202F}', '\U{205F}', '\U{3000}'
  }

  /** The range form of `IsSpace` holds of exactly the characters of the enumeration. */
  lemma IsSpaceIsPythonWhitespace(c: char)
    ensures IsSpace(c) <==> c in PYTHON_WHITESPACE
  {
  }

  /** Leading whitespace removed: what is left is a suffix of `s`, everything dropped
      is whitespace, and what is left does not start with whitespace. */
  function TrimStart(s: string): (r: string)
    ensures |r| <= |s| && r == s[|s| - |r|..]
    ensures forall i | 0 <= i < |s| - |r| :: IsSpace(s[i])
    ensures r == [] || !IsSpace(r[0])
  {
    if s != [] && IsSpace(s[0]) then TrimStart(s[1..]) else s
  }

  /** Trailing whitespace removed: a prefix of `s`, everything dropped is whitespace,
      and what is left does not end with whitespace. */
  function TrimEnd(s: string): (r: string)
    ensures |r| <= |s| && r == s[..|r|]
    ensures forall i | |r| <= i < |s| :: IsSpace(s[i])
    ensures r == [] || !IsSpace(r[|r| - 1])
  {
    if s != [] && IsSpace(s[|s| - 1]) then TrimEnd(s[..|s| - 1]) else s
  }

  /** `u` is `s[i..j]` and everything of `s` outside that slice is whitespace. */
  ghost predicate SliceBetweenBlanks(s: string, u: string, i: int, j: int) {
    && 0 <= i <= j <= |s|
    && u == s[i..j]
    && (forall k | 0 <= k < i :: IsSpace(s[k]))
    && (forall k | j <= k < |s| :: IsSpace(s[k]))
  }

  /** `s.strip()`: the slice of `s` between its leading and its trailing whitespace. */
  function Strip(s: string): (r: string)
    ensures exists i, j :: SliceBetweenBlanks(s, r, i, j)
    ensures r == [] || (!IsSpace(r[0]) && !IsSpace(r[|r| - 1]))
  {
    var t := TrimStart(s);
    var u := TrimEnd(t);
    TrimBoth(s, t, u);
    u
  }

  /** Trimming the front and then the back cuts a slice out of `s`, all of whose
      surroundings are whitespace. */
  lemma TrimBoth(s: string, t: string, u: string)
    requires t == TrimStart(s) && u == TrimEnd(t)
    ensures exists i, j :: SliceBetweenBlanks(s, u, i, j)
    ensures u == [] || (!IsSpace(u[0]) && !IsSpace(u[|u| - 1]))
  {
    TrimmedSlice(s, t, u, |s| - |t|);
  }

  lemma TrimmedSlice(s: string, t: string, u: string, i: nat)
    requires i <= |s| && t == s[i..] && |u| <= |t| && u == t[..|u|]
    requires forall k | 0 <= k < i :: IsSpace(s[k])
    requires forall k | |u| <= k < |t| :: IsSpace(t[k])
    ensures SliceBetweenBlanks(s, u, i, i + |u|)
  {
    forall k | i + |u| <= k < |s| ensures IsSpace(s[k]) {
      assert s[k] == t[k - i];
    }
  }

  /** `str.lower()` on one character; only ASCII letters are mapped. */
  function LowerChar(c: char): char {
    if 'A' <= c <= 'Z' then (c as int - 'A' as int + 'a' as int) as char else c
  }

  /** `s.lower()`: the same length, each character lower-cased in place. */
  function Lower(s: string): (r: string)
    ensures |r| == |s| && forall i | 0 <= i < |s| :: r[i] == LowerChar(s[i])
  {
    seq(|s|, i requires 0 <= i < |s| => LowerChar(s[i]))
  }

  /** `s.strip().lower()`: the normalised username. It is no longer than `s`, neither
      starts nor ends with whitespace, and holds no ASCII capital. */
  function Normalize(s: string): (r: string)
    ensures |r| <= |s|
    ensures r == [] || (!IsSpace(r[0]) && !IsSpace(r[|r| - 1]))
    ensures forall i | 0 <= i < |r| :: !('A' <= r[i] <= 'Z')
  {
    var t := Strip(s);
    LowerKeepsEnds(t);
    Lower(t)
  }

  /** Trimming the front of a whitespace-only string leaves nothing. */
  lemma TrimStartBlank(s: string)
    requires forall k | 0 <= k < |s| :: IsSpace(s[k])
    ensures TrimStart(s) == []
  {
  }

  /** A string holding a non-whitespace character survives stripping. */
  lemma StripNonBlank(s: string, k: nat)
    requires k < |s| && !IsSpace(s[k])
    ensures Strip(s) != []
  {
    var t := TrimStart(s);
    var off := |s| - |t|;
    assert off <= k;
    assert t[k - off] == s[k];
    var r := TrimEnd(t);
    assert k - off < |r|;
  }

  /** Stripping leaves nothing exactly when the string is whitespace only. */
  lemma StripEmptyIffBlank(s: string)
    ensures Strip(s) == [] <==> forall k | 0 <= k < |s| :: IsSpace(s[k])
  {
    if forall k | 0 <= k < |s| :: IsSpace(s[k]) {
      TrimStartBlank(s);
    } else {
      var k :| 0 <= k < |s| && !IsSpace(s[k]);
      StripNonBlank(s, k);
    }
  }

  /** A string with no leading and no trailing whitespace is its own strip. */
  lemma StripTrimmed(s: string)
    requires s == [] || (!IsSpace(s[0]) && !IsSpace(s[|s| - 1]))
    ensures Strip(s) == s
  {
  }

  /** Lower-casing neither creates nor removes whitespace, and is idempotent. */
  lemma LowerCharFacts(c: char)
    ensures IsSpace(LowerChar(c)) <==> IsSpace(c)
    ensures LowerChar(LowerChar(c)) == LowerChar(c)
  {
  }

  /** Lower-casing a string without whitespace at its ends gives one without
      whitespace at its ends. */
  lemma LowerKeepsEnds(t: string)
    requires t == [] || (!IsSpace(t[0]) && !IsSpace(t[|t| - 1]))
    ensures var n := Lower(t); n == [] || (!IsSpace(n[0]) && !IsSpace(n[|n| - 1]))
  {
    if t != [] {
      LowerCharFacts(t[0]);
      LowerCharFacts(t[|t| - 1]);
    }
  }

  /** Lower-casing twice is lower-casing once. */
  lemma LowerIdempotent(t: string)
    ensures Lower(Lower(t)) == Lower(t)
  {
    var n := Lower(t);
    forall i | 0 <= i < |n| ensures LowerChar(n[i]) == n[i] {
      LowerCharFacts(t[i]);
    }
  }

  /** Normalising twice is normalising once: a normalised username is a fixed point. */
  lemma NormalizeIdempotent(s: string)
    ensures Normalize(Normalize(s)) == Normalize(s)
  {
    var t := Strip(s);
    StripTrimmed(Lower(t));
    LowerIdempotent(t);
  }

  /** Lower-casing does not turn a non-blank username into a blank one: the
      normalised username is empty exactly when the input is whitespace only. */
  lemma NormalizeEmptyIffBlank(s: string)
    ensures Normalize(s) == [] <==> forall k | 0 <= k < |s| :: IsSpace(s[k])
  {
    StripEmptyIffBlank(s);
  }
}
