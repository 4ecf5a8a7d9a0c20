/** The one wrapper the model needs: Python's `None` or a value. */
module Wrappers {
  datatype Option<+T> = None | Some(value: T)
}

/**
 * The string primitives the Python sources lean on: `str.lower()`, the `in`
 * operator on strings, `str.strip()`, the regular-expression word boundary
 * `\b`, the first match of `\d+`, `int(...)` and `f"{n}"`.
 *
 * Each executable search is written the way it runs (a left-to-right scan)
 * and is tied by a lemma to a definition by positions, which is what the
 * other modules reason with.
 */
module Text {
  import opened Wrappers

  /** Python's `min` of two integers. */
  function Min(a: int, b: int): int { if a <= b then a else b }

  // ---------------------------------------------------------------- case

  predicate IsUpper(c: char) { 'A' <= c <= 'Z' }

  function LowerChar(c: char): char
  {
    if IsUpper(c) then (c as int + 32) as char else c
  }

  /** `str.lower()` on the ASCII range: upper-case letters become lower-case, nothing else changes. */
  function Lower(s: string): (r: string)
    ensures |r| == |s|
    ensures forall k :: 0 <= k < |s| ==> r[k] == LowerChar(s[k])
    ensures forall k :: 0 <= k < |r| ==> !IsUpper(r[k])
  {
    if s == [] then [] else [LowerChar(s[0])] + Lower(s[1..])
  }

  /** Lower-casing twice is lower-casing once. */
  lemma LowerIdempotent(s: string)
    ensures Lower(Lower(s)) == Lower(s)
  {
  }

  /** Text without upper-case letters is its own lower case. */
  lemma LowerNoUpper(s: string)
    requires forall c :: c in s ==> !IsUpper(c)
    ensures Lower(s) == s
  {
    assert forall k :: 0 <= k < |s| ==> s[k] in s;
  }

  /** Lower-casing leaves digits where they are and makes none. */
  lemma LowerKeepsDigits(s: string, k: int)
    requires 0 <= k < |s|
    ensures '0' <= Lower(s)[k] <= '9' <==> '0' <= s[k] <= '9'
  {
  }

  // ----------------------------------------------------------- substrings

  /** `pat` occurs in `text` starting at index `i`. */
  predicate OccursAt(text: string, pat: string, i: int)
  {
    0 <= i && i + |pat| <= |text| && text[i..i + |pat|] == pat
  }

  predicate StartsWith(text: string, pat: string)
  {
    |pat| == 0 || (|text| > 0 && text[0] == pat[0] && StartsWith(text[1..], pat[1..]))
  }

  /** Python's `pat in text` for strings, as a left-to-right scan. */
  predicate Contains(text: string, pat: string)
  {
    StartsWith(text, pat) || (|text| > 0 && Contains(text[1..], pat))
  }

  lemma {:induction false} StartsWithIff(text: string, pat: string)
    ensures StartsWith(text, pat) <==> OccursAt(text, pat, 0)
  {
    if |pat| > 0 && |text| > 0 {
      StartsWithIff(text[1..], pat[1..]);
      if OccursAt(text, pat, 0) {
        assert text[1..][..|pat[1..]|] == text[..|pat|][1..];
      }
      if StartsWith(text, pat) {
        assert text[..|pat|] == [text[0]] + text[1..][..|pat[1..]|];
        assert pat == [pat[0]] + pat[1..];
      }
    }
  }

  /** The scan finds `pat` exactly when `pat` occurs at some index. */
  lemma {:induction false} ContainsIff(text: string, pat: string)
    ensures Contains(text, pat) <==> exists i :: OccursAt(text, pat, i)
  {
    StartsWithIff(text, pat);
    if |text| > 0 {
      ContainsIff(text[1..], pat);
      if exists i :: OccursAt(text[1..], pat, i) {
        var i :| OccursAt(text[1..], pat, i);
        assert text[1..][i..i + |pat|] == text[i + 1..i + 1 + |pat|];
        assert OccursAt(text, pat, i + 1);
      }
      if exists i :: OccursAt(text, pat, i) {
        var i :| OccursAt(text, pat, i);
        if i > 0 {
          assert text[1..][i - 1..i - 1 + |pat|] == text[i..i + |pat|];
          assert OccursAt(text[1..], pat, i - 1);
        }
      }
    } else {
      if exists i :: OccursAt(text, pat, i) {
        var i :| OccursAt(text, pat, i);
        assert i == 0 && |pat| == 0;
      }
    }
  }

  /** A slice of a slice is a slice. */
  lemma SliceOfSlice(s: string, a: int, b: int, c: int, d: int)
    requires 0 <= a <= b <= |s| && 0 <= c <= d <= b - a
    ensures s[a..b][c..d] == s[a + c..a + d]
  {
    assert forall k :: 0 <= k < d - c ==> s[a..b][c..d][k] == s[a + c + k];
  }

  /** Every character of a contained string is a character of the text. */
  lemma ContainsChar(text: string, pat: string, k: int)
    requires Contains(text, pat) && 0 <= k < |pat|
    ensures pat[k] in text
  {
    ContainsIff(text, pat);
    var i :| OccursAt(text, pat, i);
    assert text[i..i + |pat|][k] == text[i + k];
  }

  /** A string holding a character the text lacks is not contained in it. */
  lemma Absent(text: string, pat: string, c: char)
    requires c in pat && c !in text
    ensures !Contains(text, pat)
  {
    if Contains(text, pat) {
      var k :| 0 <= k < |pat| && pat[k] == c;
      ContainsChar(text, pat, k);
    }
  }

  /** Being contained is transitive. */
  lemma ContainsTransitive(text: string, mid: string, pat: string)
    requires Contains(text, mid) && Contains(mid, pat)
    ensures Contains(text, pat)
  {
    ContainsIff(text, mid);
    ContainsIff(mid, pat);
    var i :| OccursAt(text, mid, i);
    var j :| OccursAt(mid, pat, j);
    SliceOfSlice(text, i, i + |mid|, j, j + |pat|);
    assert OccursAt(text, pat, i + j);
    ContainsIff(text, pat);
  }

  /** No character of `t` is one of `cs`. */
  predicate Avoids(t: string, cs: string)
  {
    forall k :: 0 <= k < |t| ==> t[k] !in cs
  }

  /** `x` is never directly followed by `y` in `t`. */
  predicate NoPair(t: string, x: char, y: char)
  {
    forall k :: 0 <= k < |t| - 1 ==> !(t[k] == x && t[k + 1] == y)
  }

  /** A string holding a character that `t` avoids is not contained in `t`. */
  lemma AbsentByMark(t: string, pat: string, cs: string, c: char)
    requires Avoids(t, cs) && c in cs && c in pat
    ensures !Contains(t, pat)
  {
    assert c !in t;
    Absent(t, pat, c);
  }

  /** A string holding a pair of adjacent characters that `t` never has is not contained in `t`. */
  lemma AbsentByPair(t: string, pat: string, j: int)
    requires 0 <= j < |pat| - 1 && NoPair(t, pat[j], pat[j + 1])
    ensures !Contains(t, pat)
  {
    forall i | 0 <= i && i + |pat| <= |t| ensures !OccursAt(t, pat, i) {
      assert t[i..i + |pat|][j] == t[i + j] && t[i..i + |pat|][j + 1] == t[i + j + 1];
    }
    ContainsIff(t, pat);
  }

  // ------------------------------------------------------ word boundaries

  /**
   * An ASCII regular-expression word character, `[A-Za-z0-9_]`. Python's
   * `\w` on a `str` also takes every other Unicode letter and digit.
   */
  predicate IsWordChar(c: char)
  {
    'a' <= c <= 'z' || 'A' <= c <= 'Z' || '0' <= c <= '9' || c == '_'
  }

  /** `\b` at position `p`: a word character on exactly one side (outside the text counts as non-word). */
  predicate Boundary(text: string, p: int)
  {
    var before := 0 < p <= |text| && IsWordChar(text[p - 1]);
    var after := 0 <= p < |text| && IsWordChar(text[p]);
    before != after
  }

  /** `\b` + `w` + `\b` matches at index `i`. */
  predicate WordOccursAt(text: string, w: string, i: int)
  {
    OccursAt(text, w, i) && Boundary(text, i) && Boundary(text, i + |w|)
  }

  /** `re.search(r'\b' + w + r'\b', text)` succeeds. */
  predicate ContainsWord(text: string, w: string)
  {
    exists i | 0 <= i <= |text| :: WordOccursAt(text, w, i)
  }

  /** A whole-word match is in particular a substring match. */
  lemma WordImpliesContains(text: string, w: string)
    requires ContainsWord(text, w)
    ensures Contains(text, w)
  {
    var i :| 0 <= i <= |text| && WordOccursAt(text, w, i);
    ContainsIff(text, w);
  }

  // ---------------------------------------------------------- whitespace

  /** Python's `str.isspace()` for one character. */
  predicate IsSpace(c: char)
  {
    var n := c as int;
    n == 32 || 9 <= n <= 13 || 28 <= n <= 31 || n == 0x85 || n == 0xA0 || n == 0x1680
    || 0x2000 <= n <= 0x200A || n == 0x2028 || n == 0x2029 || n == 0x202F || n == 0x205F
    || n == 0x3000
  }

  function LeadingSpaces(s: string): (n: nat)
    ensures n <= |s|
    ensures forall k :: 0 <= k < n ==> IsSpace(s[k])
    ensures n == |s| || !IsSpace(s[n])
  {
    if s == [] || !IsSpace(s[0]) then 0 else 1 + LeadingSpaces(s[1..])
  }

  function TrailingSpaces(s: string): (n: nat)
    ensures n <= |s|
    ensures forall k :: |s| - n <= k < |s| ==> IsSpace(s[k])
    ensures n == |s| || !IsSpace(s[|s| - 1 - n])
  {
    if s == [] || !IsSpace(s[|s| - 1]) then 0 else 1 + TrailingSpaces(s[..|s| - 1])
  }

  /** `r` is `s[a..a + |r|]`, and everything outside that slice is whitespace. */
  ghost predicate IsStripOf(s: string, r: string, a: int)
  {
    0 <= a && a + |r| <= |s| && s[a..a + |r|] == r
    && (forall k :: 0 <= k < a ==> IsSpace(s[k]))
    && (forall k :: a + |r| <= k < |s| ==> IsSpace(s[k]))
  }

  /**
   * `str.strip()`: the result is a slice of `s` that neither starts nor ends
   * with whitespace, and everything cut off on either side is whitespace.
   */
  function Strip(s: string): (r: string)
    ensures r == [] || (!IsSpace(r[0]) && !IsSpace(r[|r| - 1]))
    ensures r == [] <==> forall k :: 0 <= k < |s| ==> IsSpace(s[k])
    ensures exists a :: IsStripOf(s, r, a)
  {
    var a := LeadingSpaces(s);
    var rest := s[a..];
    var r := rest[..|rest| - TrailingSpaces(rest)];
    assert IsStripOf(s, r, a);
    r
  }

  lemma StripOccurrenceOut(s: string, r: string, a: int, pat: string, j: int)
    requires IsStripOf(s, r, a) && OccursAt(r, pat, j)
    ensures OccursAt(s, pat, a + j)
  {
    SliceOfSlice(s, a, a + |r|, j, j + |pat|);
  }

  lemma StripOccurrenceIn(s: string, r: string, a: int, pat: string, i: int)
    requires IsStripOf(s, r, a) && OccursAt(s, pat, i)
    requires |pat| > 0 && !IsSpace(pat[0]) && !IsSpace(pat[|pat| - 1])
    ensures OccursAt(r, pat, i - a)
  {
    assert s[i..i + |pat|][0] == s[i];
    assert s[i..i + |pat|][|pat| - 1] == s[i + |pat| - 1];
    assert a <= i && i + |pat| <= a + |r|;
    SliceOfSlice(s, a, a + |r|, i - a, i - a + |pat|);
  }

  /**
   * Stripping never changes whether a keyword that neither starts nor ends
   * with whitespace is contained.
   */
  lemma StripKeepsContains(s: string, pat: string)
    requires |pat| > 0 && !IsSpace(pat[0]) && !IsSpace(pat[|pat| - 1])
    ensures Contains(Strip(s), pat) <==> Contains(s, pat)
  {
    var r := Strip(s);
    var a :| IsStripOf(s, r, a);
    ContainsIff(r, pat);
    ContainsIff(s, pat);
    if Contains(r, pat) {
      var j :| OccursAt(r, pat, j);
      StripOccurrenceOut(s, r, a, pat, j);
    }
    if Contains(s, pat) {
      var i :| OccursAt(s, pat, i);
      StripOccurrenceIn(s, r, a, pat, i);
    }
  }

  /** The length of the run of non-space characters at the start of `s`. */
  function NonSpaceRun(s: string): (n: nat)
    ensures n <= |s|
    ensures forall k :: 0 <= k < n ==> !IsSpace(s[k])
    ensures n == |s| || IsSpace(s[n])
  {
    if s == [] || IsSpace(s[0]) then 0 else 1 + NonSpaceRun(s[1..])
  }

  /** `s.split()`: the maximal runs of non-space characters, in order. */
  function Words(s: string): (ws: seq<string>)
    decreases |s|
  {
    if s == [] then []
    else if IsSpace(s[0]) then Words(s[1..])
    else
      var n := NonSpaceRun(s);
      [s[..n]] + Words(s[n..])
  }

  predicate NoSpace(s: string) { forall k :: 0 <= k < |s| ==> !IsSpace(s[k]) }

  /** A non-space run stops exactly at the first space. */
  lemma {:induction false} NonSpaceRunOf(a: string, rest: string)
    requires NoSpace(a) && (rest == [] || IsSpace(rest[0]))
    ensures NonSpaceRun(a + rest) == |a|
  {
    if a != [] {
      assert (a + rest)[0] == a[0];
      assert (a + rest)[1..] == a[1..] + rest;
      NonSpaceRunOf(a[1..], rest);
    } else {
      assert a + rest == rest;
    }
  }

  /** A single word splits to itself. */
  lemma WordsOfOne(a: string)
    requires a != [] && NoSpace(a)
    ensures Words(a) == [a]
  {
    NonSpaceRunOf(a, []);
    assert a + [] == a;
    assert a[|a|..] == [];
  }

  /** Two words joined by one space split back into the two words. */
  lemma WordsOfTwo(a: string, b: string)
    requires a != [] && NoSpace(a) && b != [] && NoSpace(b)
    ensures Words(a + " " + b) == [a, b]
  {
    var s := a + " " + b;
    assert s == a + (" " + b);
    NonSpaceRunOf(a, " " + b);
    assert s[0] == a[0];
    assert s[..|a|] == a;
    assert s[|a|..] == " " + b;
    assert (" " + b)[1..] == b;
    WordsOfOne(b);
  }

  // -------------------------------------------------------------- digits

  predicate IsDigit(c: char) { '0' <= c <= '9' }

  predicate AllDigits(s: string) { forall k :: 0 <= k < |s| ==> IsDigit(s[k]) }

  predicate NoDigits(s: string) { forall k :: 0 <= k < |s| ==> !IsDigit(s[k]) }

  function DigitRunLength(s: string, i: nat): (n: nat)
    requires i <= |s|
    ensures i + n <= |s|
    ensures forall k :: i <= k < i + n ==> IsDigit(s[k])
    ensures i + n == |s| || !IsDigit(s[i + n])
    decreases |s| - i
  {
    if i < |s| && IsDigit(s[i]) then 1 + DigitRunLength(s, i + 1) else 0
  }

  /**
   * The first match of `\d+` at or after index `i`, as the half-open index
   * range `(start, end)`: the leftmost digit, extended as far as digits go.
   */
  function FirstDigitRunFrom(s: string, i: nat): (r: Option<(nat, nat)>)
    requires i <= |s|
    ensures r.None? <==> forall k :: i <= k < |s| ==> !IsDigit(s[k])
    ensures r.Some? ==> i <= r.value.0 < r.value.1 <= |s|
    ensures r.Some? ==> forall k :: i <= k < r.value.0 ==> !IsDigit(s[k])
    ensures r.Some? ==> forall k :: r.value.0 <= k < r.value.1 ==> IsDigit(s[k])
    ensures r.Some? ==> r.value.1 == |s| || !IsDigit(s[r.value.1])
    decreases |s| - i
  {
    if i == |s| then None
    else if IsDigit(s[i]) then Some((i, i + DigitRunLength(s, i)))
    else FirstDigitRunFrom(s, i + 1)
  }

  /** `re.findall(r'\d+', s)[0]` as an index range, or `None` when `s` has no digit. */
  function FirstDigitRun(s: string): Option<(nat, nat)>
  {
    FirstDigitRunFrom(s, 0)
  }

  // ------------------------------------------------------- decimal numbers

  function DigitValue(c: char): nat
    requires IsDigit(c)
  {
    c as int - '0' as int
  }

  function DigitChar(d: nat): char
    requires d < 10
  {
    (d + '0' as int) as char
  }

  /** `int(d)` for a string of decimal digits. */
  function ParseNat(d: string): nat
    requires AllDigits(d)
  {
    if d == [] then 0 else 10 * ParseNat(d[..|d| - 1]) + DigitValue(d[|d| - 1])
  }

  /** `f"{n}"` for a natural number: non-empty, only digits, no leading zero. */
  function NatToString(n: nat): (s: string)
    ensures |s| > 0 && AllDigits(s)
    ensures |s| > 1 ==> s[0] != '0'
  {
    if n < 10 then [DigitChar(n)] else NatToString(n / 10) + [DigitChar(n % 10)]
  }

  /** Reading back what `f"{n}"` writes gives `n`. */
  lemma {:induction false} ParseNatToString(n: nat)
    ensures ParseNat(NatToString(n)) == n
  {
    if n >= 10 {
      var s := NatToString(n);
      assert s[..|s| - 1] == NatToString(n / 10);
      ParseNatToString(n / 10);
    }
  }

  /** `f"{i}"` for any integer: digits, after a minus sign when negative. */
  function IntToString(i: int): (s: string)
    ensures |s| > 0
    ensures forall k :: 0 <= k < |s| ==> IsDigit(s[k]) || (k == 0 && i < 0 && s[k] == '-')
  {
    if i < 0 then "-" + NatToString(-i) else NatToString(i)
  }

  /** `int(s)` for an optional minus sign followed by at least one digit; anything else is an error. */
  function ParseInt(s: string): Option<int>
  {
    if |s| > 1 && s[0] == '-' && AllDigits(s[1..]) then var n: int := ParseNat(s[1..]); Some(-n)
    else if |s| > 0 && AllDigits(s) then Some(ParseNat(s))
    else None
  }

  /** `int(f"{i}") == i` for every integer. */
  lemma ParseIntToString(i: int)
    ensures ParseInt(IntToString(i)) == Some(i)
  {
    if i < 0 {
      ParseNatToString(-i);
      assert IntToString(i)[1..] == NatToString(-i);
    } else {
      ParseNatToString(i);
    }
  }
}
