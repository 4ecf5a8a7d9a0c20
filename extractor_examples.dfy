/**
 * What `extract_number` of voice_control.py returns on particular
 * utterances, and which table entries can never decide its result.
 */
module ExtractorExamples {
  import opened Wrappers
  import opened Text
  import opened AngleExtractor

  // ------------------------------------------------------------ helpers
  // Each concrete utterance is handled in two steps: small lemmas about the
  // literal alone (its lower-casing, which letters and letter pairs it
  // lacks, where a word occurs), and a lemma over any text with those
  // properties.

  /** No alternative of a pattern is even a substring, so the pattern does not match. */
  lemma NoAlternative(t: string, alts: seq<string>)
    requires forall j :: 0 <= j < |alts| ==> !Contains(t, alts[j])
    ensures !PatternMatches(t, alts)
  {
    forall j | 0 <= j < |alts| ensures !ContainsWord(t, alts[j]) {
      if ContainsWord(t, alts[j]) { WordImpliesContains(t, alts[j]); }
    }
  }

  /** Each alternative holds the matching character of `marks`, which `t` avoids: the pattern does not match. */
  lemma NoAlternativeByMarks(t: string, alts: seq<string>, marks: string)
    requires |marks| == |alts| && Avoids(t, marks)
    requires forall j :: 0 <= j < |alts| ==> marks[j] in alts[j]
    ensures !PatternMatches(t, alts)
  {
    forall j | 0 <= j < |alts| ensures !Contains(t, alts[j]) {
      AbsentByMark(t, alts[j], marks, marks[j]);
    }
    NoAlternative(t, alts);
  }

  /** The first `|marks|` keys each hold the matching character of `marks`, which `t` avoids. */
  lemma NoKeyByMarks(t: string, table: seq<(string, int)>, marks: string)
    requires |marks| <= |table| && Avoids(t, marks)
    requires forall k :: 0 <= k < |marks| ==> marks[k] in table[k].0
    ensures forall k :: 0 <= k < |marks| ==> !Contains(t, table[k].0)
  {
    forall k | 0 <= k < |marks| ensures !Contains(t, table[k].0) {
      AbsentByMark(t, table[k].0, marks, marks[k]);
    }
  }

  /** Key `k` occurs in `t` and no earlier key is contained: its value is the match. */
  lemma KeyHit(t: string, table: seq<(string, int)>, k: nat, i: int)
    requires k < |table|
    requires forall m :: 0 <= m < k ==> !Contains(t, table[m].0)
    requires OccursAt(t, table[k].0, i)
    ensures MatchCommand(t, table) == Some(table[k].1)
  {
    ContainsIff(t, table[k].0);
    assert FirstKeyAt(t, table, k);
    var r := MatchCommand(t, table);
    var k' :| FirstKeyAt(t, table, k') && r.value == table[k'].1;
    assert k' == k;
  }

  /** Alternative `j` of pattern `k` occurs as a word and no earlier pattern matches: its number is the match. */
  lemma PatternHit(t: string, table: seq<(seq<string>, int)>, k: nat, j: nat, i: nat)
    requires k < |table| && j < |table[k].0|
    requires forall m :: 0 <= m < k ==> !PatternMatches(t, table[m].0)
    requires WordOccursAt(t, table[k].0[j], i)
    ensures MatchPattern(t, table) == Some(table[k].1)
  {
    assert PatternMatches(t, table[k].0);
    assert FirstPatternAt(t, table, k);
    var r := MatchPattern(t, table);
    var k' :| FirstPatternAt(t, table, k') && r.value == table[k'].1;
    assert k' == k;
  }

  /** Unfolding step of `ExtractNumber`: a key match on the lower-cased text is its answer. */
  lemma ExtractByCommand(text: string, v: int)
    requires MatchCommand(Lower(text), Commands) == Some(v)
    ensures ExtractNumber(text) == Some(v)
  {
  }

  /** Unfolding step of `ExtractNumber`: without a key, a pattern match on the lower-cased text is its answer. */
  lemma ExtractByPattern(text: string, v: int)
    requires MatchCommand(Lower(text), Commands) == None
    requires MatchPattern(Lower(text), NumberPatterns) == Some(v)
    ensures ExtractNumber(text) == Some(v)
  {
  }

  // ------------------------------------------------------------ examples

  /** Any text that contains "open", in any case, commands angle 0: "open" is the first key. */
  lemma OpenWins(text: string)
    requires Contains(Lower(text), "open")
    ensures ExtractNumber(text) == Some(0)
  {
    ExtractCommandWins(text, 0);
  }

  lemma LowerOpenDoor() ensures Lower("please open the door") == "please open the door" {
    LowerNoUpper("please open the door");
  }

  lemma OpenInOpenDoor() ensures Contains("please open the door", "open") {
    assert OccursAt("please open the door", "open", 7);
    ContainsIff("please open the door", "open");
  }

  /** "please open the door" commands 0. */
  lemma ExampleOpenDoor() ensures ExtractNumber("please open the door") == Some(0) {
    LowerOpenDoor();
    OpenInOpenDoor();
    OpenWins("please open the door");
  }

  /** A text avoiding p, c, s and z in which "ninety" occurs commands 90. */
  lemma NinetyShape(t: string, i: int)
    requires Avoids(t, "pcsz")
    requires OccursAt(t, "ninety", i)
    ensures MatchCommand(t, Commands) == Some(90)
  {
    NoKeyByMarks(t, Commands, "pcsz");
    KeyHit(t, Commands, 4, i);
  }

  lemma LowerGoNinety() ensures Lower("go ninety") == "go ninety" { LowerNoUpper("go ninety"); }
  lemma GoNinetyAvoids() ensures Avoids("go ninety", "pcsz") {}
  lemma NinetyInGoNinety() ensures OccursAt("go ninety", "ninety", 3) {}

  /** "go ninety" commands 90 through the key "ninety". */
  lemma ExampleGoNinety() ensures ExtractNumber("go ninety") == Some(90) {
    LowerGoNinety();
    GoNinetyAvoids();
    NinetyInGoNinety();
    NinetyShape("go ninety", 3);
    ExtractByCommand("go ninety", 90);
  }

  /** The "zero" pattern misses a text without z, a and the pairs "oh", "no", "he", "er". */
  lemma ZeroPatternMisses(t: string)
    requires Avoids(t, "za")
    requires NoPair(t, 'o', 'h') && NoPair(t, 'n', 'o') && NoPair(t, 'h', 'e') && NoPair(t, 'e', 'r')
    ensures !PatternMatches(t, NumberPatterns[0].0)
  {
    AbsentByMark(t, "zero", "za", 'z');
    AbsentByPair(t, "oh", 0);
    AbsentByPair(t, "no", 0);
    AbsentByPair(t, "hero", 0);
    AbsentByPair(t, "nero", 1);
    AbsentByMark(t, "arrow", "za", 'a');
    AbsentByMark(t, "narrow", "za", 'a');
    AbsentByMark(t, "nora", "za", 'a');
    NoAlternative(t, NumberPatterns[0].0);
  }

  /**
   * A text shaped like "one hundred" matches no key and, first, the "one" pattern.
   * Key marks "pcszyyyff", one per `Commands` entry: p open, c close, s shut,
   * z zero, y ninety / one eighty / one hundred eighty, f forty five / forty-five.
   */
  lemma OneHundredShape(t: string)
    requires Avoids(t, "pcszyyyff") && Avoids(t, "za")
    requires NoPair(t, 'o', 'h') && NoPair(t, 'n', 'o') && NoPair(t, 'h', 'e') && NoPair(t, 'e', 'r')
    requires WordOccursAt(t, "one", 0)
    ensures MatchCommand(t, Commands) == None && MatchPattern(t, NumberPatterns) == Some(1)
  {
    NoKeyByMarks(t, Commands, "pcszyyyff");
    ZeroPatternMisses(t);
    assert NumberPatterns[1].0[0] == "one";
    PatternHit(t, NumberPatterns, 1, 0, 0);
  }

  lemma LowerOneHundred() ensures Lower("one hundred") == "one hundred" { LowerNoUpper("one hundred"); }
  lemma OneHundredAvoids() ensures Avoids("one hundred", "pcszyyyff") && Avoids("one hundred", "za") {}
  lemma OneHundredNoOh() ensures NoPair("one hundred", 'o', 'h') {}
  lemma OneHundredNoNo() ensures NoPair("one hundred", 'n', 'o') {}
  lemma OneHundredNoHe() ensures NoPair("one hundred", 'h', 'e') {}
  lemma OneHundredNoEr() ensures NoPair("one hundred", 'e', 'r') {}
  lemma OneAtStart() ensures WordOccursAt("one hundred", "one", 0) {}

  /** "one hundred" yields 1, not 100: the "one" pattern comes before the "hundred" ones. */
  lemma ExampleOneHundred() ensures ExtractNumber("one hundred") == Some(1) {
    LowerOneHundred();
    OneHundredAvoids();
    OneHundredNoOh();
    OneHundredNoNo();
    OneHundredNoHe();
    OneHundredNoEr();
    OneAtStart();
    OneHundredShape("one hundred");
    ExtractByPattern("one hundred", 1);
  }

  /**
   * A text avoiding p, c, h, z, n and f contains no key. Marks "pchznnnff",
   * one per `Commands` entry: p open, c close, h shut, z zero,
   * n ninety / one eighty / one hundred eighty, f forty five / forty-five.
   */
  lemma SetItToNoKey(t: string)
    requires Avoids(t, "pchznnnff")
    ensures MatchCommand(t, Commands) == None
  {
    NoKeyByMarks(t, Commands, "pchznnnff");
    assert NoKeyIn(t, Commands);
  }

  /**
   * A text avoiding z, h, n, a and w matches neither the "zero" nor the "one" pattern.
   * Marks "zhnhnaaa" for the 0 pattern: z zero, h oh, n no, h hero, n nero,
   * a arrow / narrow / nora. Marks "nwwwwwnn" for the 1 pattern: n one,
   * w won / when / wine / won't / want, n once / on.
   */
  lemma SetItToMissesZeroAndOne(t: string)
    requires Avoids(t, "zhnhnaaa") && Avoids(t, "nwwwwwnn")
    ensures forall m :: 0 <= m < 2 ==> !PatternMatches(t, NumberPatterns[m].0)
  {
    NoAlternativeByMarks(t, NumberPatterns[0].0, "zhnhnaaa");
    NoAlternativeByMarks(t, NumberPatterns[1].0, "nwwwwwnn");
  }

  /**
   * A text shaped like "set it to 45 degrees" matches no key and, first, the
   * "two" pattern; the three mark strings are those of `SetItToNoKey` and
   * `SetItToMissesZeroAndOne`.
   */
  lemma SetItToShape(t: string, i: int)
    requires Avoids(t, "pchznnnff") && Avoids(t, "zhnhnaaa") && Avoids(t, "nwwwwwnn")
    requires 0 <= i && WordOccursAt(t, "to", i)
    ensures MatchCommand(t, Commands) == None && MatchPattern(t, NumberPatterns) == Some(2)
  {
    SetItToNoKey(t);
    SetItToMissesZeroAndOne(t);
    assert NumberPatterns[2].0[1] == "to";
    PatternHit(t, NumberPatterns, 2, 1, i);
  }

  lemma LowerSetItTo45() ensures Lower("set it to 45 degrees") == "set it to 45 degrees" {
    LowerNoUpper("set it to 45 degrees");
  }
  lemma SetItTo45AvoidsKeys() ensures Avoids("set it to 45 degrees", "pchznnnff") {}
  lemma SetItTo45AvoidsZero() ensures Avoids("set it to 45 degrees", "zhnhnaaa") {}
  lemma SetItTo45AvoidsOne() ensures Avoids("set it to 45 degrees", "nwwwwwnn") {}
  lemma ToInSetItTo45() ensures WordOccursAt("set it to 45 degrees", "to", 7) {}

  /** "set it to 45 degrees" yields 2: the word "to" matches the "two" pattern before any digit is read. */
  lemma ExampleSetItTo45() ensures ExtractNumber("set it to 45 degrees") == Some(2) {
    LowerSetItTo45();
    SetItTo45AvoidsKeys();
    SetItTo45AvoidsZero();
    SetItTo45AvoidsOne();
    ToInSetItTo45();
    SetItToShape("set it to 45 degrees", 7);
    ExtractByPattern("set it to 45 degrees", 2);
  }

  lemma TwoHundredValue() ensures AllDigits("200") && ParseNat("200") == 200 {
    assert ParseNat("2") == 2;
    assert ParseNat("20") == 20;
  }
  lemma TwoHundredIsFirstRun() ensures
    && (forall k :: 0 <= k < 3 ==> !IsDigit("go 200 now"[k]))
    && (forall k :: 3 <= k < 6 ==> IsDigit("go 200 now"[k]))
    && !IsDigit("go 200 now"[6])
    && "go 200 now"[3..6] == "200"
  {}

  /** The digit fallback caps at 180. */
  lemma ExampleDigitsCapped() ensures DigitAngle("go 200 now") == Some(180) {
    TwoHundredIsFirstRun();
    TwoHundredValue();
    DigitAngleAt("go 200 now", 3, 6);
  }

  // ------------------------------------------------------------ shadowed entries

  /**
   * The pattern ("one hundred" | "100") for 100 never decides: whenever it
   * matches, the earlier "one" pattern or the "hundred" pattern (which also
   * lists "100") matches too.
   */
  lemma OneHundredPatternShadowed(t: string)
    ensures !FirstPatternAt(t, NumberPatterns, 20)
  {
    if PatternMatches(t, NumberPatterns[20].0) {
      ShadowedByOneOrHundred(t, NumberPatterns[20].0);
      assert NumberPatterns[1].0[0] == "one";
      assert NumberPatterns[19].0[1] == "100";
      if ContainsWord(t, "one") {
        assert PatternMatches(t, NumberPatterns[1].0);
      } else {
        assert PatternMatches(t, NumberPatterns[19].0);
      }
    }
  }

  /** A text matching the words "one hundred" or "100" contains the word "one" or the word "100". */
  lemma ShadowedByOneOrHundred(t: string, alts: seq<string>)
    requires alts == ["one hundred", "100"] && PatternMatches(t, alts)
    ensures ContainsWord(t, "one") || ContainsWord(t, "100")
  {
    var j :| 0 <= j < |alts| && ContainsWord(t, alts[j]);
    var i :| 0 <= i <= |t| && WordOccursAt(t, alts[j], i);
    if j == 0 {
      LeadingWord(t, alts[0], 3, i);
      assert alts[0][..3] == "one";
    }
  }

  /** A whole word `w` that has a word break after its first `n` characters starts with the whole word `w[..n]`. */
  lemma LeadingWord(t: string, w: string, n: int, i: int)
    requires WordOccursAt(t, w, i) && 0 < n < |w|
    requires IsWordChar(w[n - 1]) && !IsWordChar(w[n])
    ensures WordOccursAt(t, w[..n], i)
  {
    SliceOfSlice(t, i, i + |w|, 0, n);
    assert t[i + n - 1] == t[i..i + |w|][n - 1] && t[i + n] == t[i..i + |w|][n];
  }
}
