/**
 * The title-cleanup table: six rules that delete an episode, volume or part marker from
 * the front of a title and three that delete an "(un)abridged", "part" or "series n"
 * marker from its end. Each rule is one case-insensitive regular expression in the
 * source; here each is a hand-written matcher over the characters of the title.
 *
 * A prefix rule reads "anything, as little as possible, without crossing a line end,
 * then a marker"; its match starts at position 0 and the lazy part stops at the least
 * position where the marker matches. A suffix rule is anchored at the end of the
 * title; its match starts at the least position from which the rest of the title
 * matches. Once that position is fixed, every rule matches in exactly one way, because
 * each greedy run of white space or digits is followed by a character it cannot take.
 */
module TitlePatterns {
  import opened Wrappers
  import opened JsStrings

  /** Markers at the front: ", Folge n:", ", Band n:", " - n:", " n:", ", Teil n:", ", Volume n:". */
  datatype PrefixRule = Folge | Band | DashNumber | SpacedNumber | Teil | Volume

  /** Markers at the end: "(Ungekürzt)"/"(Gekürzt)", ", Teil n", "- … Reihe n"/"- … Serie n". */
  datatype SuffixRule = Abridged | TrailingTeil | SeriesNumber

  datatype Rule = Prefix(p: PrefixRule) | Suffix(q: SuffixRule)

  /** The prefix rules in table order (src/provider.js:30-35 and 101-106). */
  const PREFIX_RULES: seq<Rule> :=
    [Prefix(Folge), Prefix(Band), Prefix(DashNumber), Prefix(SpacedNumber), Prefix(Teil), Prefix(Volume)]

  /** The suffix rules in table order (src/provider.js:36-38 and 109-111). */
  const SUFFIX_RULES: seq<Rule> := [Suffix(Abridged), Suffix(TrailingTeil), Suffix(SeriesNumber)]

  /** The whole table, as `cleanTitle` applies it. */
  const CLEANUP_TABLE: seq<Rule> := PREFIX_RULES + SUFFIX_RULES

  /** `w` matches case-insensitively at position `i` of `s`. */
  predicate WordAt(s: string, i: nat, w: string) {
    i + |w| <= |s| && forall k | 0 <= k < |w| :: Canon(s[i + k]) == Canon(w[k])
  }

  /** No line terminator in `s[i..j]`: the piece can be matched by `.*`. */
  predicate NoLineTerminator(s: string, i: nat, j: nat)
    requires i <= j <= |s|
  {
    forall k | i <= k < j :: !IsLineTerminator(s[k])
  }

  /** Digits, a colon and optional white space (`\d+:\s*`) at `i`: the end of the match. */
  function NumberColonEnd(s: string, i: nat): (e: Option<nat>)
    requires i <= |s|
    ensures e.Some? ==> i < e.value <= |s|
  {
    var d := SkipDigits(s, i);
    if i < d < |s| && s[d] == ':' then Some(SkipSpaces(s, d + 1)) else None
  }

  /** A comma, optional white space, the word `w`, optional white space, then `\d+:\s*`, at `k`. */
  function CommaWordEnd(s: string, k: nat, w: string): (e: Option<nat>)
    requires k <= |s|
    ensures e.Some? ==> k < e.value <= |s|
  {
    if k < |s| && s[k] == ',' then
      var a := SkipSpaces(s, k + 1);
      if WordAt(s, a, w) then NumberColonEnd(s, SkipSpaces(s, a + |w|)) else None
    else None
  }

  /** Where the marker of a prefix rule ends when it starts at `k`, if it matches there. */
  function MarkerEnd(rule: PrefixRule, s: string, k: nat): (e: Option<nat>)
    requires k <= |s|
    ensures e.Some? ==> k < e.value <= |s|
  {
    match rule
    case Folge => CommaWordEnd(s, k, "folge")
    case Band => CommaWordEnd(s, k, "band")
    case Teil => CommaWordEnd(s, k, "teil")
    case Volume => CommaWordEnd(s, k, "volume")
    case DashNumber =>
      if k < |s| && IsSpace(s[k]) then
        var a := SkipSpaces(s, k);
        if a + 1 < |s| && s[a] == '-' && IsSpace(s[a + 1]) then NumberColonEnd(s, SkipSpaces(s, a + 1))
        else None
      else None
    case SpacedNumber =>
      if k < |s| && IsSpace(s[k]) then NumberColonEnd(s, SkipSpaces(s, k)) else None
  }

  /**
   * The scan a backtracking matcher makes for its least start: from `i`, the first
   * position at which `found` holds, moving on past a position only while `pass` holds
   * there, and never beyond `hi`.
   */
  function Scan(found: nat -> bool, pass: nat -> bool, i: nat, hi: nat): (m: Option<nat>)
    requires i <= hi
    ensures m.Some? ==> i <= m.value <= hi && found(m.value)
    decreases hi - i
  {
    if found(i) then Some(i)
    else if i < hi && pass(i) then Scan(found, pass, i + 1, hi)
    else None
  }

  /**
   * The scan stops at the least position it can reach where `found` holds: every position
   * before it was passed over, and when it finds nothing, `found` fails at every position
   * it could reach.
   */
  lemma {:induction false} ScanIsLeast(found: nat -> bool, pass: nat -> bool, i: nat, hi: nat)
    requires i <= hi
    ensures var m := Scan(found, pass, i, hi);
      m.Some? ==> forall j | i <= j < m.value :: !found(j) && pass(j)
    ensures Scan(found, pass, i, hi).None? ==>
      forall j | i <= j <= hi && (forall t | i <= t < j :: pass(t)) :: !found(j)
    decreases hi - i
  {
    if !found(i) && i < hi && pass(i) {
      ScanIsLeast(found, pass, i + 1, hi);
    }
  }

  /**
   * The lazy `^.*?` in front of a marker: the least position at or after `k`, reached
   * without crossing a line terminator, at which the marker matches (LazyStartIsLeast).
   */
  function LazyStart(rule: PrefixRule, s: string, k: nat): (m: Option<nat>)
    requires k <= |s|
    ensures m.Some? ==> k <= m.value <= |s| && MarkerEnd(rule, s, m.value).Some?
  {
    Scan((j: nat) => j <= |s| && MarkerEnd(rule, s, j).Some?, (t: nat) => t < |s| && !IsLineTerminator(s[t]), k, |s|)
  }

  /**
   * The position `LazyStart` finds is reached without crossing a line terminator, and no
   * marker starts before it; when it finds none, no marker starts anywhere before the first
   * line terminator.
   */
  lemma LazyStartIsLeast(rule: PrefixRule, s: string, k: nat)
    requires k <= |s| && NoLineTerminator(s, 0, k)
    ensures var m := LazyStart(rule, s, k);
      m.Some? ==> NoLineTerminator(s, 0, m.value) && forall j | k <= j < m.value :: MarkerEnd(rule, s, j).None?
    ensures LazyStart(rule, s, k).None? ==>
      forall j | k <= j <= |s| && NoLineTerminator(s, 0, j) :: MarkerEnd(rule, s, j).None?
  {
    var found := (j: nat) => j <= |s| && MarkerEnd(rule, s, j).Some?;
    var pass := (t: nat) => t < |s| && !IsLineTerminator(s[t]);
    ScanIsLeast(found, pass, k, |s|);
    var m := Scan(found, pass, k, |s|);
    if m.Some? {
      forall j | k <= j < m.value ensures MarkerEnd(rule, s, j).None? && !IsLineTerminator(s[j]) {
        assert !found(j) && pass(j);
      }
    } else {
      forall j | k <= j <= |s| && NoLineTerminator(s, 0, j) ensures MarkerEnd(rule, s, j).None? {
        assert forall t | k <= t < j :: pass(t);
        assert !found(j);
      }
    }
  }

  /** `(w)` followed by white space up to the end, with `w` starting at `p`. */
  predicate ClosedWordAtEnd(s: string, p: nat, w: string) {
    WordAt(s, p, w) && p + |w| < |s| && s[p + |w|] == ')' && SkipSpaces(s, p + |w| + 1) == |s|
  }

  /** One or more digits from `i` up to the end of `s` (`\d+$`). */
  predicate DigitsToEnd(s: string, i: nat)
    requires i <= |s|
  {
    i < |s| && SkipDigits(s, i) == |s|
  }

  /** "Reihe" or "Serie", white space, and digits up to the end, from `j`. */
  predicate SeriesWordTail(s: string, j: nat) {
    (WordAt(s, j, "reihe") || WordAt(s, j, "serie")) &&
    var b := SkipSpaces(s, j + 5);
    b > j + 5 && DigitsToEnd(s, b)
  }

  /**
   * `s[a..j]` can be matched by `\s*.*?`: white space, then anything without a line
   * terminator. Taking the white space greedily loses no match.
   */
  predicate FillerMatches(s: string, a: nat, j: nat)
    requires a <= j <= |s|
  {
    var m := SkipSpaces(s, a);
    m >= j || NoLineTerminator(s, m, j)
  }

  /** The suffix rule matches `s[i..]` in full. */
  predicate SuffixMatchesAt(rule: SuffixRule, s: string, i: nat)
    requires i <= |s|
  {
    match rule
    case Abridged =>
      var a := SkipSpaces(s, i);
      a < |s| && s[a] == '(' &&
      (ClosedWordAtEnd(s, a + 1, "ungek\U{FC}rzt") || ClosedWordAtEnd(s, a + 1, "gek\U{FC}rzt"))
    case TrailingTeil =>
      i < |s| && s[i] == ',' &&
      var a := SkipSpaces(s, i + 1);
      WordAt(s, a, "teil") &&
      var b := SkipSpaces(s, a + 4);
      b > a + 4 && DigitsToEnd(s, b)
    case SeriesNumber =>
      i < |s| && s[i] == '-' &&
      exists j | i + 1 <= j <= |s| :: FillerMatches(s, i + 1, j) && SeriesWordTail(s, j)
  }

  /** Every suffix match is non-empty. */
  lemma SuffixMatchNonEmpty(rule: SuffixRule, s: string, i: nat)
    requires i <= |s| && SuffixMatchesAt(rule, s, i)
    ensures i < |s|
  {
  }

  /** The least start position, at or after `i`, of a match of a suffix rule (FirstSuffixStartIsLeast). */
  function FirstSuffixStart(rule: SuffixRule, s: string, i: nat): (m: Option<nat>)
    requires i <= |s|
    ensures m.Some? ==> i <= m.value < |s| && SuffixMatchesAt(rule, s, m.value)
  {
    var m := Scan((j: nat) => j <= |s| && SuffixMatchesAt(rule, s, j), (t: nat) => true, i, |s|);
    if m.Some? then
      SuffixMatchNonEmpty(rule, s, m.value);
      m
    else m
  }

  /** No suffix match starts before the position `FirstSuffixStart` finds, and none at all when it finds none. */
  lemma FirstSuffixStartIsLeast(rule: SuffixRule, s: string, i: nat)
    requires i <= |s|
    ensures var m := FirstSuffixStart(rule, s, i);
      m.Some? ==> forall j | i <= j < m.value :: !SuffixMatchesAt(rule, s, j)
    ensures FirstSuffixStart(rule, s, i).None? ==> forall j | i <= j <= |s| :: !SuffixMatchesAt(rule, s, j)
  {
    var found := (j: nat) => j <= |s| && SuffixMatchesAt(rule, s, j);
    var pass := (t: nat) => true;
    ScanIsLeast(found, pass, i, |s|);
    forall j | i <= j <= |s| && !found(j) ensures !SuffixMatchesAt(rule, s, j) {
    }
  }

  /**
   * `s.replace(rule, '')`: a prefix rule deletes the front of `s` up to the end of its
   * first marker, a suffix rule deletes the end of `s` from the start of its match.
   */
  function Apply(rule: Rule, s: string): (r: string)
    ensures r == s || |r| < |s|
    ensures rule.Prefix? ==> r == s[|s| - |r|..]
    ensures rule.Suffix? ==> r == s[..|r|]
  {
    match rule
    case Prefix(p) =>
      (match LazyStart(p, s, 0)
       case Some(m) => s[MarkerEnd(p, s, m).value..]
       case None => s)
    case Suffix(q) =>
      (match FirstSuffixStart(q, s, 0)
       case Some(i) => s[..i]
       case None => s)
  }

  /** A prefix rule changes the title exactly when its marker occurs before the first line end. */
  lemma PrefixRuleChangesIff(p: PrefixRule, s: string)
    ensures Apply(Prefix(p), s) != s <==>
      exists k | 0 <= k <= |s| :: NoLineTerminator(s, 0, k) && MarkerEnd(p, s, k).Some?
  {
    var m := LazyStart(p, s, 0);
    LazyStartIsLeast(p, s, 0);
    if m.Some? {
      assert NoLineTerminator(s, 0, m.value) && MarkerEnd(p, s, m.value).Some?;
    }
  }

  /** A suffix rule changes the title exactly when some end of the title matches it. */
  lemma SuffixRuleChangesIff(q: SuffixRule, s: string)
    ensures Apply(Suffix(q), s) != s <==> exists i | 0 <= i <= |s| :: SuffixMatchesAt(q, s, i)
  {
    var m := FirstSuffixStart(q, s, 0);
    FirstSuffixStartIsLeast(q, s, 0);
    if m.Some? {
      assert SuffixMatchesAt(q, s, m.value);
    }
  }

  /** The rules applied one after the other, each to the result of the one before. */
  function ApplyAll(rules: seq<Rule>, s: string): (r: string)
    ensures |r| <= |s|
    decreases |rules|
  {
    if rules == [] then s else ApplyAll(rules[1..], Apply(rules[0], s))
  }

  /** Every pass only deletes: what is left is a contiguous piece of the input. */
  lemma {:induction false} ApplyAllIsFactor(rules: seq<Rule>, s: string)
    ensures IsFactor(ApplyAll(rules, s), s)
    decreases |rules|
  {
    if rules == [] {
      assert s == s[0..|s|];
    } else {
      var t := Apply(rules[0], s);
      ApplyAllIsFactor(rules[1..], t);
      if rules[0].Prefix? {
        assert t == s[|s| - |t|..|s|];
      } else {
        assert t == s[0..|t|];
      }
      FactorTransitive(ApplyAll(rules[1..], t), t, s);
    }
  }

  /** Running two lists of rules in turn is running their concatenation. */
  lemma {:induction false} ApplyAllConcat(a: seq<Rule>, b: seq<Rule>, s: string)
    ensures ApplyAll(a + b, s) == ApplyAll(b, ApplyAll(a, s))
    decreases |a|
  {
    if a == [] {
      assert a + b == b;
    } else {
      assert (a + b)[1..] == a[1..] + b;
      ApplyAllConcat(a[1..], b, Apply(a[0], s));
    }
  }

  /** A rule whose marker needs a comma, a hyphen or a parenthesis leaves a title without them alone. */
  lemma IdleWithoutPunctuation(rule: Rule, s: string)
    requires ',' !in s && '-' !in s && '(' !in s
    requires rule != Prefix(SpacedNumber)
    ensures Apply(rule, s) == s
  {
    match rule
    case Prefix(p) =>
      forall k | 0 <= k <= |s| ensures MarkerEnd(p, s, k).None? {
        if p == DashNumber && k < |s| && IsSpace(s[k]) {
          var a := SkipSpaces(s, k);
          assert a < |s| ==> s[a] in s;
        }
      }
    case Suffix(q) =>
      forall i | 0 <= i <= |s| ensures !SuffixMatchesAt(q, s, i) {
        var a := SkipSpaces(s, i);
        assert a < |s| ==> s[a] in s;
        assert i < |s| ==> s[i] in s;
      }
  }

  /** Rules other than " n:" leave a title without commas, hyphens and parentheses alone. */
  lemma {:induction false} IdleRules(rules: seq<Rule>, s: string)
    requires ',' !in s && '-' !in s && '(' !in s
    requires Prefix(SpacedNumber) !in rules
    ensures ApplyAll(rules, s) == s
    decreases |rules|
  {
    if rules != [] {
      assert rules[0] in rules;
      IdleWithoutPunctuation(rules[0], s);
      assert forall r | r in rules[1..] :: r in rules;
      IdleRules(rules[1..], s);
    }
  }

  /** A rule only deletes, so it never brings in a character. */
  lemma ApplyKeepsAbsent(rule: Rule, s: string, c: char)
    requires c !in s
    ensures c !in Apply(rule, s)
  {
  }

  /** Between rules that stay idle, only the " n:" rule acts. */
  lemma IdleAround(front: seq<Rule>, back: seq<Rule>, s: string)
    requires ',' !in s && '-' !in s && '(' !in s
    requires Prefix(SpacedNumber) !in front && Prefix(SpacedNumber) !in back
    ensures ApplyAll(front + ([Prefix(SpacedNumber)] + back), s) == Apply(Prefix(SpacedNumber), s)
  {
    var r := Apply(Prefix(SpacedNumber), s);
    calc {
      ApplyAll(front + ([Prefix(SpacedNumber)] + back), s);
      { ApplyAllConcat(front, [Prefix(SpacedNumber)] + back, s); }
      ApplyAll([Prefix(SpacedNumber)] + back, ApplyAll(front, s));
      { IdleRules(front, s); }
      ApplyAll([Prefix(SpacedNumber)] + back, s);
      { ApplyAllConcat([Prefix(SpacedNumber)], back, s); }
      ApplyAll(back, ApplyAll([Prefix(SpacedNumber)], s));
      ApplyAll(back, r);
      { ApplyKeepsAbsent(Prefix(SpacedNumber), s, ',');
        ApplyKeepsAbsent(Prefix(SpacedNumber), s, '-');
        ApplyKeepsAbsent(Prefix(SpacedNumber), s, '(');
        IdleRules(back, r); }
      r;
    }
  }

  /** On a title without commas, hyphens and parentheses only the " n:" rule can act. */
  lemma PlainTitlePass(s: string)
    requires ',' !in s && '-' !in s && '(' !in s
    ensures ApplyAll(CLEANUP_TABLE, s) == Apply(Prefix(SpacedNumber), s)
  {
    var front := [Prefix(Folge), Prefix(Band), Prefix(DashNumber)];
    var back := [Prefix(Teil), Prefix(Volume)] + SUFFIX_RULES;
    assert CLEANUP_TABLE == front + ([Prefix(SpacedNumber)] + back);
    IdleAround(front, back, s);
  }

  /** "x 1: y 2: z" loses "x 1: " to the " n:" rule. */
  lemma FirstPassExample()
    ensures Apply(Prefix(SpacedNumber), "x 1: y 2: z") == "y 2: z"
  {
    var s := "x 1: y 2: z";
    assert !IsSpace(s[0]);
    assert MarkerEnd(SpacedNumber, s, 0).None?;
    assert SkipSpaces(s, 1) == 2;
    assert SkipDigits(s, 2) == 3;
    assert SkipSpaces(s, 4) == 5;
    assert MarkerEnd(SpacedNumber, s, 1) == Some(5);
    assert LazyStart(SpacedNumber, s, 1) == Some(1);
    assert LazyStart(SpacedNumber, s, 0) == Some(1);
  }

  /** "y 2: z" loses "y 2: " to the " n:" rule. */
  lemma SecondPassExample()
    ensures Apply(Prefix(SpacedNumber), "y 2: z") == "z"
  {
    var s := "y 2: z";
    assert !IsSpace(s[0]);
    assert MarkerEnd(SpacedNumber, s, 0).None?;
    assert SkipSpaces(s, 1) == 2;
    assert SkipDigits(s, 2) == 3;
    assert SkipSpaces(s, 4) == 5;
    assert MarkerEnd(SpacedNumber, s, 1) == Some(5);
    assert LazyStart(SpacedNumber, s, 1) == Some(1);
    assert LazyStart(SpacedNumber, s, 0) == Some(1);
  }

  /**
   * A second pass of the table can delete more: the table is not idempotent. In
   * "x 1: y 2: z" the first pass removes "x 1: " and the second removes "y 2: ".
   */
  lemma TableNotIdempotent()
    ensures ApplyAll(CLEANUP_TABLE, "x 1: y 2: z") == "y 2: z"
    ensures ApplyAll(CLEANUP_TABLE, "y 2: z") == "z"
  {
    PlainTitlePass("x 1: y 2: z");
    FirstPassExample();
    PlainTitlePass("y 2: z");
    SecondPassExample();
  }
}
