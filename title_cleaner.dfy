/**
 * The title and subtitle splitter: running the cleanup table over a title, deleting a
 * leading series name (`cleanTitle`), cutting a title before an embedded series name,
 * and splitting a title at its colon.
 */
module TitleCleaner {
  import opened Wrappers
  import opened JsStrings
  import opened TitlePatterns

  /**
   * `for (const pattern of patterns) s = s.replace(pattern, '')`, and the `forEach`
   * passes of `formatBookMetadata`: each rule in turn, on the result of the one before.
   */
  method ReplaceEach(rules: seq<Rule>, s: string) returns (r: string)
    ensures r == ApplyAll(rules, s)
    ensures IsFactor(r, s)
  {
    r := s;
    for i := 0 to |rules|
      invariant ApplyAll(rules[i..], r) == ApplyAll(rules, s)
    {
      assert rules[i..][1..] == rules[i + 1..];
      r := Apply(rules[i], r);
    }
    assert rules[|rules|..] == [];
    ApplyAllIsFactor(rules, s);
  }

  /**
   * The two `forEach` passes of `formatBookMetadata`, the prefix rules and then the suffix
   * rules: together one run of the whole table.
   */
  method CleanupPasses(s: string) returns (r: string)
    ensures r == ApplyAll(CLEANUP_TABLE, s)
    ensures IsFactor(r, s)
  {
    var prefixed := ReplaceEach(PREFIX_RULES, s);
    r := ReplaceEach(SUFFIX_RULES, prefixed);
    ApplyAllConcat(PREFIX_RULES, SUFFIX_RULES, s);
    FactorTransitive(r, prefixed, s);
  }

  /** The greedy `[\s,-]*` from `i`. */
  function SkipSeparators(s: string, i: nat): (j: nat)
    requires i <= |s|
    ensures i <= j <= |s|
    ensures forall k | i <= k < j :: IsSpace(s[k]) || s[k] == ',' || s[k] == '-'
    ensures j == |s| || !(IsSpace(s[j]) || s[j] == ',' || s[j] == '-')
    decreases |s| - i
  {
    if i < |s| && (IsSpace(s[i]) || s[i] == ',' || s[i] == '-') then SkipSeparators(s, i + 1) else i
  }

  /**
   * The series-name deletion of `cleanTitle`: the name at the front (case-insensitive),
   * then separators, digits, an optional colon and white space, all deleted.
   */
  function StripSeriesPrefix(s: string, name: string): (r: string)
    ensures |r| <= |s| && r == s[|s| - |r|..]
    ensures WordAt(s, 0, name) ==> |r| <= |s| - |name|
    ensures !WordAt(s, 0, name) ==> r == s
  {
    if WordAt(s, 0, name) then
      var a := SkipDigits(s, SkipSeparators(s, |name|));
      var b := if a < |s| && s[a] == ':' then a + 1 else a;
      s[SkipSpaces(s, b)..]
    else s
  }

  /** What `cleanTitle` returns for a non-empty title. */
  function CleanedTitle(title: string, seriesName: Option<string>): string {
    var cleaned := ApplyAll(CLEANUP_TABLE, title);
    if seriesName.Some? && seriesName.value != "" then Trim(StripSeriesPrefix(cleaned, seriesName.value))
    else Trim(cleaned)
  }

  /** Deleting the series prefix keeps a tail of the string. */
  lemma StripIsFactor(s: string, name: string)
    ensures IsFactor(StripSeriesPrefix(s, name), s)
  {
    var r := StripSeriesPrefix(s, name);
    assert r == s[|s| - |r|..|s|];
  }

  /** Every step of `cleanTitle` only deletes: its result is a trimmed piece of the title. */
  lemma CleanedTitleIsTrimmedPiece(title: string, seriesName: Option<string>)
    ensures IsTrimmed(CleanedTitle(title, seriesName))
    ensures IsFactor(CleanedTitle(title, seriesName), title)
    ensures |CleanedTitle(title, seriesName)| <= |title|
  {
    var cleaned := ApplyAll(CLEANUP_TABLE, title);
    ApplyAllIsFactor(CLEANUP_TABLE, title);
    var stripped := cleaned;
    if seriesName.Some? && seriesName.value != "" {
      stripped := StripSeriesPrefix(cleaned, seriesName.value);
      StripIsFactor(cleaned, seriesName.value);
      FactorTransitive(stripped, cleaned, title);
    }
    assert CleanedTitle(title, seriesName) == Trim(stripped);
    FactorTransitive(Trim(stripped), stripped, title);
    FactorShorter(Trim(stripped), title);
  }

  /**
   * `cleanTitle(title, seriesName)`; `None` stands for `null`/`undefined`. The table runs
   * in a loop over its rules; a non-empty series name is then deleted from the front.
   */
  method CleanTitle(title: Option<string>, seriesName: Option<string>) returns (r: string)
    ensures title.None? || title.value == "" ==> r == ""
    ensures title.Some? && title.value != "" ==> r == CleanedTitle(title.value, seriesName)
  {
    if title.None? || title.value == "" {
      return "";
    }
    var cleaned := ReplaceEach(CLEANUP_TABLE, title.value);
    if seriesName.Some? && seriesName.value != "" {
      cleaned := StripSeriesPrefix(cleaned, seriesName.value);
    }
    r := Trim(cleaned);
  }

  /** Without a series name `cleanTitle` is the table followed by `trim`. */
  lemma CleanedTitleWithoutSeries(title: string)
    ensures CleanedTitle(title, None) == Trim(ApplyAll(CLEANUP_TABLE, title))
    ensures CleanedTitle(title, Some("")) == Trim(ApplyAll(CLEANUP_TABLE, title))
  {
  }

  /**
   * The match `^(.+?)[-,]\s*<name>` can end its group at `k`: a hyphen or comma at `k`,
   * then after white space the name itself, case-sensitively.
   */
  predicate SeriesFollows(s: string, name: string, k: nat)
    requires k < |s|
  {
    (s[k] == '-' || s[k] == ',') &&
    exists m | k + 1 <= m <= SkipSpaces(s, k + 1) :: OccursAt(s, m, name)
  }

  /**
   * The lazy group `(.+?)`: the least `k >= 1` at which the separator and the series
   * name follow, with no line terminator in `s[..k]`.
   */
  function LeastCut(s: string, name: string, k: nat): (c: Option<nat>)
    requires 1 <= k && (k <= |s| ==> NoLineTerminator(s, 0, k - 1))
    ensures c.Some? ==> k <= c.value < |s| && NoLineTerminator(s, 0, c.value)
    ensures c.Some? ==> SeriesFollows(s, name, c.value)
    ensures c.Some? ==> forall j | k <= j < c.value :: !SeriesFollows(s, name, j)
    ensures c.None? ==> forall j | k <= j < |s| && NoLineTerminator(s, 0, j) :: !SeriesFollows(s, name, j)
    decreases |s| - k
  {
    if k >= |s| || IsLineTerminator(s[k - 1]) then None
    else if SeriesFollows(s, name, k) then Some(k)
    else LeastCut(s, name, k + 1)
  }

  /**
   * src/provider.js:128-134: when the title contains the series name, keep only the
   * shortest front part that is followed by `-` or `,` and the name, trimmed.
   */
  function CutBeforeSeries(s: string, name: string): string {
    if Contains(s, name) then
      match LeastCut(s, name, 1)
      case Some(k) => Trim(s[..k])
      case None => s
    else s
  }

  /** The cut only removes text. */
  lemma CutIsFactor(s: string, name: string)
    ensures IsFactor(CutBeforeSeries(s, name), s)
  {
    if Contains(s, name) && LeastCut(s, name, 1).Some? {
      var k := LeastCut(s, name, 1).value;
      assert s[..k] == s[0..k];
      FactorTransitive(Trim(s[..k]), s[..k], s);
    } else {
      assert s == s[0..|s|];
    }
  }

  /**
   * The cut of `formatBookMetadata`: when the title contains the series name and the lazy
   * match succeeds, the title becomes the trimmed group.
   */
  method CutTitle(title: string, seriesName: string) returns (r: string)
    ensures r == CutBeforeSeries(title, seriesName)
  {
    r := title;
    if Contains(title, seriesName) {
      var cut := LeastCut(title, seriesName, 1);
      if cut.Some? {
        r := Trim(title[..cut.value]);
      }
    }
  }

  /**
   * The cut keeps the shortest front part: it happens exactly when some `k >= 1` before
   * the first line end has the separator and the name after it, and then at the least
   * such `k`.
   */
  lemma CutKeepsShortestFront(s: string, name: string)
    ensures (exists k | 1 <= k < |s| :: NoLineTerminator(s, 0, k) && SeriesFollows(s, name, k)) <==>
      (Contains(s, name) && LeastCut(s, name, 1).Some?)
    ensures LeastCut(s, name, 1).Some? ==>
      var k := LeastCut(s, name, 1).value;
      CutBeforeSeries(s, name) == Trim(s[..k]) &&
      forall j | 1 <= j < k :: !SeriesFollows(s, name, j)
  {
    var c := LeastCut(s, name, 1);
    if c.Some? {
      var k := c.value;
      var m :| k + 1 <= m <= SkipSpaces(s, k + 1) && OccursAt(s, m, name);
      assert Contains(s, name);
    }
  }

  /** `title.split(':')`: the text before the first colon and the text between the first and second. */
  function ColonParts(s: string): (parts: (string, string))
    requires ':' in s
  {
    var i := IndexOf(s, ':');
    var rest := s[i + 1..];
    (s[..i], rest[..IndexOf(rest, ':')])
  }

  /**
   * The two pieces are the first two fields of the colon-separated title: `s` starts with
   * the first piece, a colon and the second piece, and goes on with nothing or another colon.
   */
  lemma ColonPartsSplit(s: string)
    requires ':' in s
    ensures var (a, b) := ColonParts(s);
      var j := |a| + 1 + |b|;
      ':' !in a && ':' !in b && j <= |s| &&
      s[..|a|] == a && s[|a|] == ':' && s[|a| + 1..j] == b && (j == |s| || s[j] == ':')
  {
    var i := IndexOf(s, ':');
    IndexOfSplits(s, ':');
    var rest := s[i + 1..];
    IndexOfSplits(rest, ':');
  }

  /** Conversely, any such decomposition is the one `split` finds. */
  lemma {:induction false} ColonPartsUnique(a: string, b: string, tail: string)
    requires ':' !in a && ':' !in b && (tail == [] || tail[0] == ':')
    ensures ColonParts(a + ":" + b + tail) == (a, b)
  {
    var s := a + ":" + b + tail;
    assert s[|a|] == ':';
    var i := IndexOf(s, ':');
    assert i == |a|;
    assert s[..i] == a;
    var rest := s[i + 1..];
    assert rest == b + tail;
    var j := IndexOf(rest, ':');
    assert tail != [] ==> rest[|b|] == ':';
    assert j == |b|;
    assert rest[..j] == b;
  }
}
