/**
 * `VoiceControl.extract_number` of voice_control.py: a transcript becomes a
 * servo angle by a prioritised search. First the `COMMANDS` table is
 * searched for a key contained in the lower-cased text; then the
 * `NUMBER_PATTERNS` table for a pattern `\b(alt|alt|...)\b` that matches;
 * last, the first run of digits is read and capped at 180.
 *
 * Both tables are Python dictionaries, searched in insertion order; here
 * they are sequences in that order. Repeated alternatives inside one
 * pattern are listed once, which does not change what the pattern matches.
 */
module AngleExtractor {
  import opened Wrappers
  import opened Text

  /** `self.COMMANDS`: substring keys and the angle each one commands. */
  const Commands: seq<(string, int)> := [
    ("open", 0),
    ("close", 90),
    ("shut", 90),
    ("zero", 0),
    ("ninety", 90),
    ("one eighty", 180),
    ("one hundred eighty", 180),
    ("forty five", 45),
    ("forty-five", 45)
  ]

  /** `self.NUMBER_PATTERNS`: the alternatives of each `\b(...)\b` pattern and its number. */
  const NumberPatterns: seq<(seq<string>, int)> := [
    (["zero", "oh", "no", "hero", "nero", "arrow", "narrow", "nora"], 0),
    (["one", "won", "when", "wine", "won't", "want", "once", "on"], 1),
    (["two", "to", "too", "true", "through", "do"], 2),
    (["three", "free", "tree", "the"], 3),
    (["four", "for", "fore", "fourth", "forth"], 4),
    (["five", "fire", "fight", "fifth"], 5),
    (["six", "sick", "sikh"], 6),
    (["seven", "saving", "savings"], 7),
    (["eight", "ate", "hate"], 8),
    (["nine", "niner"], 9),
    (["ten", "tennis", "tenth"], 10),
    (["twenty", "20"], 20),
    (["thirty", "30"], 30),
    (["forty", "40"], 40),
    (["fifty", "50"], 50),
    (["sixty", "60"], 60),
    (["seventy", "70"], 70),
    (["eighty", "80"], 80),
    (["ninety", "90"], 90),
    (["hundred", "100"], 100),
    (["one hundred", "100"], 100),
    (["one eighty", "180"], 180)
  ]

  /** The largest angle the digit fallback lets through. */
  const MaxAngle := 180

  // -------------------------------------------------------- command table

  /** Entry `k` is the first entry of `table` whose key is contained in `text`. */
  ghost predicate FirstKeyAt(text: string, table: seq<(string, int)>, k: int)
  {
    0 <= k < |table| && Contains(text, table[k].0)
    && forall j :: 0 <= j < k ==> !Contains(text, table[j].0)
  }

  /** No key of `table` is contained in `text`. */
  predicate NoKeyIn(text: string, table: seq<(string, int)>)
  {
    forall j :: 0 <= j < |table| ==> !Contains(text, table[j].0)
  }

  /** The `for cmd, angle in self.COMMANDS.items(): if cmd in text: return angle` loop, from entry `i` on. */
  function MatchCommandFrom(text: string, table: seq<(string, int)>, i: nat): (r: Option<int>)
    requires i <= |table|
    ensures r.None? <==> forall k :: i <= k < |table| ==> !Contains(text, table[k].0)
    ensures r.Some? ==> exists k :: i <= k < |table| && Contains(text, table[k].0)
                                    && (forall j :: i <= j < k ==> !Contains(text, table[j].0))
                                    && r.value == table[k].1
    decreases |table| - i
  {
    if i == |table| then None
    else if Contains(text, table[i].0) then Some(table[i].1)
    else MatchCommandFrom(text, table, i + 1)
  }

  /** The value of the first entry whose key is contained in `text`; `None` when no key is. */
  function MatchCommand(text: string, table: seq<(string, int)>): (r: Option<int>)
    ensures r.None? <==> NoKeyIn(text, table)
    ensures r.Some? ==> exists k :: FirstKeyAt(text, table, k) && r.value == table[k].1
  {
    MatchCommandFrom(text, table, 0)
  }

  // --------------------------------------------------------- number words

  /** `re.search(r'\b(' + '|'.join(alts) + r')\b', text)` succeeds. */
  predicate PatternMatches(text: string, alts: seq<string>)
  {
    exists j | 0 <= j < |alts| :: ContainsWord(text, alts[j])
  }

  /** No pattern of `table` matches `text`. */
  predicate NoPatternIn(text: string, table: seq<(seq<string>, int)>)
  {
    forall j :: 0 <= j < |table| ==> !PatternMatches(text, table[j].0)
  }

  /** Pattern `k` is the first pattern of `table` that matches `text`. */
  ghost predicate FirstPatternAt(text: string, table: seq<(seq<string>, int)>, k: int)
  {
    0 <= k < |table| && PatternMatches(text, table[k].0)
    && forall j :: 0 <= j < k ==> !PatternMatches(text, table[j].0)
  }

  /** The `for pattern, number in self.NUMBER_PATTERNS.items()` loop, from entry `i` on. */
  function MatchPatternFrom(text: string, table: seq<(seq<string>, int)>, i: nat): (r: Option<int>)
    requires i <= |table|
    ensures r.None? <==> forall k :: i <= k < |table| ==> !PatternMatches(text, table[k].0)
    ensures r.Some? ==> exists k :: i <= k < |table| && PatternMatches(text, table[k].0)
                                    && (forall j :: i <= j < k ==> !PatternMatches(text, table[j].0))
                                    && r.value == table[k].1
    decreases |table| - i
  {
    if i == |table| then None
    else if PatternMatches(text, table[i].0) then Some(table[i].1)
    else MatchPatternFrom(text, table, i + 1)
  }

  /** The number of the first pattern that matches `text`; `None` when none does. */
  function MatchPattern(text: string, table: seq<(seq<string>, int)>): (r: Option<int>)
    ensures r.None? <==> NoPatternIn(text, table)
    ensures r.Some? ==> exists k :: FirstPatternAt(text, table, k) && r.value == table[k].1
  {
    MatchPatternFrom(text, table, 0)
  }

  // ------------------------------------------------------------ extractor

  /** The digit fallback: `min(int(re.findall(r'\d+', t)[0]), 180)`, or `None` without digits. */
  function DigitAngle(t: string): (r: Option<int>)
    ensures r.None? <==> NoDigits(t)
    ensures r.Some? ==> 0 <= r.value <= MaxAngle
  {
    match FirstDigitRun(t)
    case None => None
    case Some((a, b)) => Some(Min(ParseNat(t[a..b]), MaxAngle))
  }

  lemma CommandValuesInRange(k: int)
    requires 0 <= k < |Commands|
    ensures 0 <= Commands[k].1 <= MaxAngle
  {
  }

  lemma PatternValuesInRange(k: int)
    requires 0 <= k < |NumberPatterns|
    ensures 0 <= NumberPatterns[k].1 <= MaxAngle
  {
  }

  /** `extract_number(text)`: `None`, or an angle between 0 and 180. */
  function ExtractNumber(text: string): (r: Option<int>)
    ensures r.Some? ==> 0 <= r.value <= MaxAngle
  {
    var t := Lower(text);
    var c := MatchCommand(t, Commands);
    if c.Some? then
      assert 0 <= c.value <= MaxAngle by {
        var k :| FirstKeyAt(t, Commands, k) && c.value == Commands[k].1;
        CommandValuesInRange(k);
      }
      c
    else
      var p := MatchPattern(t, NumberPatterns);
      if p.Some? then
        assert 0 <= p.value <= MaxAngle by {
          var k :| FirstPatternAt(t, NumberPatterns, k) && p.value == NumberPatterns[k].1;
          PatternValuesInRange(k);
        }
        p
      else DigitAngle(t)
  }

  // ------------------------------------------------------------ priorities

  /** Text is lower-cased before any matching, so case never matters. */
  lemma ExtractCaseInsensitive(text: string)
    ensures ExtractNumber(Lower(text)) == ExtractNumber(text)
  {
    LowerIdempotent(text);
  }

  /** When some command key is contained, the first such key in table order decides; numbers are ignored. */
  lemma ExtractCommandWins(text: string, k: int)
    requires FirstKeyAt(Lower(text), Commands, k)
    ensures ExtractNumber(text) == Some(Commands[k].1)
  {
    var t := Lower(text);
    var c := MatchCommand(t, Commands);
    var k' :| FirstKeyAt(t, Commands, k') && c.value == Commands[k'].1;
    assert k' == k;
  }

  /** Without a command key, the first number pattern that matches decides. */
  lemma ExtractPatternWins(text: string, k: int)
    requires NoKeyIn(Lower(text), Commands)
    requires FirstPatternAt(Lower(text), NumberPatterns, k)
    ensures ExtractNumber(text) == Some(NumberPatterns[k].1)
  {
    var t := Lower(text);
    var p := MatchPattern(t, NumberPatterns);
    var k' :| FirstPatternAt(t, NumberPatterns, k') && p.value == NumberPatterns[k'].1;
    assert k' == k;
  }

  /** The digit fallback reads the leftmost maximal run of digits `t[a..b]`. */
  lemma DigitAngleAt(t: string, a: int, b: int)
    requires 0 <= a < b <= |t|
    requires forall k :: 0 <= k < a ==> !IsDigit(t[k])
    requires forall k :: a <= k < b ==> IsDigit(t[k])
    requires b == |t| || !IsDigit(t[b])
    ensures AllDigits(t[a..b])
    ensures DigitAngle(t) == Some(Min(ParseNat(t[a..b]), MaxAngle))
  {
    var run := FirstDigitRun(t);
    assert IsDigit(t[a]);
    assert run.Some?;
    var (a', b') := run.value;
    assert IsDigit(t[a']);
    assert a' == a;
    assert b' < |t| ==> !IsDigit(t[b']);
    assert b < |t| ==> !IsDigit(t[b]);
    assert b' == b;
  }

  /** Unfolding step of `ExtractNumber`: with neither table matching, it is the digit fallback. */
  lemma FallsThroughToDigits(text: string)
    requires MatchCommand(Lower(text), Commands).None? && MatchPattern(Lower(text), NumberPatterns).None?
    ensures ExtractNumber(text) == DigitAngle(Lower(text))
  {
  }

  /**
   * Only when neither table matches is the first maximal run of digits
   * read (see `DigitAngleAt` for what that run is), and capped at 180.
   */
  lemma ExtractDigitsFallback(text: string)
    requires NoKeyIn(Lower(text), Commands)
    requires NoPatternIn(Lower(text), NumberPatterns)
    requires !NoDigits(text)
    ensures FirstDigitRun(text).Some?
    ensures var (a, b) := FirstDigitRun(text).value;
      AllDigits(text[a..b]) && ExtractNumber(text) == Some(Min(ParseNat(text[a..b]), MaxAngle))
  {
    ExtractIsCaseFreeDigitAngle(text);
    DigitAngleOfFirstRun(text);
  }

  /** A text with a digit is read at its first run of digits. */
  lemma DigitAngleOfFirstRun(t: string)
    requires !NoDigits(t)
    ensures FirstDigitRun(t).Some?
    ensures var (a, b) := FirstDigitRun(t).value;
      AllDigits(t[a..b]) && DigitAngle(t) == Some(Min(ParseNat(t[a..b]), MaxAngle))
  {
  }

  /** With neither table matching, the extractor is the digit fallback on the text as given. */
  lemma ExtractIsCaseFreeDigitAngle(text: string)
    requires NoKeyIn(Lower(text), Commands)
    requires NoPatternIn(Lower(text), NumberPatterns)
    ensures ExtractNumber(text) == DigitAngle(text)
  {
    ExtractIsDigitAngle(text);
    DigitAngleIgnoresCase(text);
  }

  /** With neither table matching, the extractor is the digit fallback on the lower-cased text. */
  lemma ExtractIsDigitAngle(text: string)
    requires NoKeyIn(Lower(text), Commands)
    requires NoPatternIn(Lower(text), NumberPatterns)
    ensures ExtractNumber(text) == DigitAngle(Lower(text))
  {
    NoMatchNone(Lower(text), Commands, NumberPatterns);
    FallsThroughToDigits(text);
  }

  /** `t` has digits exactly where `s` has, and the same ones. */
  predicate SameDigits(s: string, t: string)
  {
    |s| == |t| && forall k :: 0 <= k < |s| ==> (IsDigit(s[k]) <==> IsDigit(t[k])) && (IsDigit(s[k]) ==> s[k] == t[k])
  }

  /** The digit fallback reads only the digits. */
  lemma SameDigitsSameAngle(s: string, t: string)
    requires SameDigits(s, t)
    ensures DigitAngle(t) == DigitAngle(s)
  {
    match FirstDigitRun(s)
    case None =>
      assert NoDigits(t);
    case Some((a, b)) =>
      assert t[a..b] == s[a..b];
      DigitAngleAt(t, a, b);
  }

  /** The digit fallback does not depend on case: lower-casing keeps every digit where it is. */
  lemma DigitAngleIgnoresCase(s: string)
    ensures DigitAngle(Lower(s)) == DigitAngle(s)
  {
    forall k | 0 <= k < |s| ensures IsDigit(s[k]) <==> IsDigit(Lower(s)[k]) {
      LowerKeepsDigits(s, k);
    }
    assert SameDigits(s, Lower(s));
    SameDigitsSameAngle(s, Lower(s));
  }

  /** Unfolding step: `MatchCommand` and `MatchPattern` fail when nothing occurs. */
  lemma NoMatchNone(t: string, cmds: seq<(string, int)>, pats: seq<(seq<string>, int)>)
    requires NoKeyIn(t, cmds)
    requires NoPatternIn(t, pats)
    ensures MatchCommand(t, cmds).None? && MatchPattern(t, pats).None?
  {
  }

  /** Unfolding step of `ExtractNumber`: its three stages fail together exactly when the result is `None`. */
  lemma ExtractNoneStages(text: string)
    ensures ExtractNumber(text).None? <==>
      MatchCommand(Lower(text), Commands).None? && MatchPattern(Lower(text), NumberPatterns).None?
      && DigitAngle(Lower(text)).None?
  {
  }

  lemma LowerNoDigits(text: string)
    ensures NoDigits(Lower(text)) <==> NoDigits(text)
  {
    forall k | 0 <= k < |text| ensures IsDigit(Lower(text)[k]) <==> IsDigit(text[k]) {
      LowerKeepsDigits(text, k);
    }
  }

  /** For any tables: the three stages fail together exactly when nothing in the text matches. */
  lemma StagesFailIff(text: string, cmds: seq<(string, int)>, pats: seq<(seq<string>, int)>)
    ensures MatchCommand(Lower(text), cmds).None? && MatchPattern(Lower(text), pats).None?
            && DigitAngle(Lower(text)).None? <==>
      NoKeyIn(Lower(text), cmds)
      && NoPatternIn(Lower(text), pats)
      && NoDigits(text)
  {
    LowerNoDigits(text);
  }

  /** The result is `None` exactly when no key, no pattern and no digit is found. */
  lemma ExtractNoneIff(text: string)
    ensures ExtractNumber(text).None? <==>
      NoKeyIn(Lower(text), Commands)
      && NoPatternIn(Lower(text), NumberPatterns)
      && NoDigits(text)
  {
    ExtractNoneStages(text);
    StagesFailIff(text, Commands, NumberPatterns);
  }
}
