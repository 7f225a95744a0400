/** Genre splitting (`splitGenre`) and age-range filtering (`cleanCategories`). */
module Genres {
  import opened Wrappers
  import opened JsStrings
  import opened TitlePatterns

  /** The fixed table of compound category names and the genres each stands for. */
  const COMPOUND_GENRES: map<string, seq<string>> := map[
    "Fantasy/Sci-Fi" := ["Fantasy", "Science-Fiction"],
    "Fantasy/Science-Fiction" := ["Fantasy", "Science-Fiction"],
    "Sci-Fi/Fantasy" := ["Science-Fiction", "Fantasy"],
    "Poesie/Lyrik" := ["Poesie", "Lyrik"]
  ]

  /**
   * `splitGenre`: a compound name from the table becomes its two genres; every other
   * name, the empty one included, stays a single genre. Nothing is split on `/` or `,`.
   */
  function SplitGenre(genre: string): (genres: seq<string>)
    ensures genres != []
    ensures genre in COMPOUND_GENRES ==> genres == COMPOUND_GENRES[genre]
    ensures genre !in COMPOUND_GENRES ==> genres == [genre]
  {
    if genre in COMPOUND_GENRES then COMPOUND_GENRES[genre] else [genre]
  }

  /**
   * A name is split only when it is a compound of the table, and then into exactly two
   * non-empty genres, each without a slash, while the compound itself has one.
   */
  lemma SplitGenreShape(genre: string)
    ensures SplitGenre(genre) == [genre] <==> genre !in COMPOUND_GENRES
    ensures genre in COMPOUND_GENRES ==>
      '/' in genre && |SplitGenre(genre)| == 2 &&
      forall g | g in SplitGenre(genre) :: g != "" && '/' !in g
  {
    if genre in COMPOUND_GENRES {
      assert genre == "Fantasy/Sci-Fi" || genre == "Fantasy/Science-Fiction"
          || genre == "Sci-Fi/Fantasy" || genre == "Poesie/Lyrik";
      assert genre[7] == '/' || genre[6] == '/';
    }
  }

  /** The names every plain JavaScript object inherits from `Object.prototype`; all are truthy. */
  const OBJECT_PROTOTYPE_MEMBERS: set<string> := {
    "constructor", "hasOwnProperty", "isPrototypeOf", "propertyIsEnumerable",
    "toString", "toLocaleString", "valueOf", "__proto__",
    "__defineGetter__", "__defineSetter__", "__lookupGetter__", "__lookupSetter__"
  }

  /** What `splits[genre]` yields on the object literal: an own entry, or an inherited member. */
  datatype GenreLookup = OwnEntry(genres: seq<string>) | Inherited(member: string)

  /**
   * `splitGenre` as written: the lookup on an object literal also finds the inherited
   * members, which are truthy and so win over `[genre]`.
   */
  function SplitGenreAsWritten(genre: string): (l: GenreLookup)
    ensures l.Inherited? <==> genre !in COMPOUND_GENRES && genre in OBJECT_PROTOTYPE_MEMBERS
  {
    if genre in COMPOUND_GENRES then OwnEntry(COMPOUND_GENRES[genre])
    else if genre in OBJECT_PROTOTYPE_MEMBERS then Inherited(genre)
    else OwnEntry([genre])
  }

  /**
   * `[...genres]` at src/provider.js:163: spreading a list copies it; spreading an
   * inherited member (a function, or `Object.prototype` itself) raises a TypeError,
   * shown as `None`.
   */
  function SpreadAsWritten(l: GenreLookup): (tags: Option<seq<string>>)
    ensures tags.None? <==> l.Inherited?
  {
    match l
    case OwnEntry(genres) => Some(genres)
    case Inherited(_) => None
  }

  /**
   * The as-written lookup goes wrong for a category titled "toString": the tags line
   * raises, so the record fails and, inside the search, every match of the query is lost.
   */
  lemma InheritedGenreRaises()
    ensures SplitGenreAsWritten("toString") == Inherited("toString")
    ensures SpreadAsWritten(SplitGenreAsWritten("toString")).None?
    ensures SplitGenre("toString") == ["toString"]
  {
  }

  /** Apart from the inherited names, the corrected lookup is the written one. */
  lemma SplitGenreAgreesAsWritten(genre: string)
    requires genre !in OBJECT_PROTOTYPE_MEMBERS
    ensures SplitGenreAsWritten(genre) == OwnEntry(SplitGenre(genre))
    ensures SpreadAsWritten(SplitGenreAsWritten(genre)) == Some(SplitGenre(genre))
  {
  }

  /**
   * The pattern `\d+\s*(bis|-)\s*\d+\s*(Jahre|Year|Age)`, case-insensitive, starting at
   * `p`: an age range such as "8 bis 12 Jahre" or "3-5 years".
   */
  predicate AgeRangeAt(c: string, p: nat)
    requires p <= |c|
  {
    var a := SkipDigits(c, p);
    a > p &&
    var b := SkipSpaces(c, a);
    var m := if WordAt(c, b, "bis") then b + 3 else if b < |c| && c[b] == '-' then b + 1 else b;
    m > b &&
    var d := SkipSpaces(c, m);
    var e := SkipDigits(c, d);
    e > d &&
    var f := SkipSpaces(c, e);
    WordAt(c, f, "jahre") || WordAt(c, f, "year") || WordAt(c, f, "age")
  }

  /** `cat.match(...)` finds the age range somewhere in the category. */
  predicate IsAgeCategory(c: string) {
    exists p | 0 <= p <= |c| :: AgeRangeAt(c, p)
  }

  /** `a` is `b` with some entries left out, the rest in their order. */
  predicate IsSubsequence<T(==)>(a: seq<T>, b: seq<T>)
    decreases |b|
  {
    a == [] || (b != [] && ((a[0] == b[0] && IsSubsequence(a[1..], b[1..])) || IsSubsequence(a, b[1..])))
  }

  /** The `filter` of `cleanCategories`: the categories that are not age ranges, in order. */
  function KeepNonAge(cats: seq<string>): (kept: seq<string>)
    ensures IsSubsequence(kept, cats)
    ensures forall c | c in kept :: !IsAgeCategory(c)
    ensures forall c | c in cats && !IsAgeCategory(c) :: c in kept
    ensures forall c :: multiset(kept)[c] == if IsAgeCategory(c) then 0 else multiset(cats)[c]
    decreases |cats|
  {
    if cats == [] then []
    else
      assert cats == [cats[0]] + cats[1..];
      if IsAgeCategory(cats[0]) then KeepNonAge(cats[1..])
      else [cats[0]] + KeepNonAge(cats[1..])
  }

  /**
   * `cleanCategories`: `None` stands for a missing or non-array argument, which gives
   * the empty list; otherwise the age-range categories are dropped.
   */
  function CleanCategories(categories: Option<seq<string>>): (kept: seq<string>)
    ensures categories.None? ==> kept == []
    ensures categories.Some? ==> IsSubsequence(kept, categories.value)
    ensures forall c | c in kept :: !IsAgeCategory(c)
    ensures categories.Some? ==> forall c | c in categories.value && !IsAgeCategory(c) :: c in kept
    ensures categories.Some? ==>
      forall c :: multiset(kept)[c] == if IsAgeCategory(c) then 0 else multiset(categories.value)[c]
  {
    match categories
    case None => []
    case Some(cats) => KeepNonAge(cats)
  }

  /** The number and the word of "8 bis 12 Jahre" that open the range. */
  lemma GermanRangeFrom(c: string)
    requires c == "8 bis 12 Jahre"
    ensures SkipDigits(c, 0) == 1 && SkipSpaces(c, 1) == 2 && WordAt(c, 2, "bis")
  {
    assert SkipDigits(c, 0) == 1;
    assert SkipSpaces(c, 1) == 2;
  }

  /** The number and the word of "8 bis 12 Jahre" that close the range. */
  lemma GermanRangeTo(c: string)
    requires c == "8 bis 12 Jahre"
    ensures SkipSpaces(c, 5) == 6 && SkipDigits(c, 6) == 8 && SkipSpaces(c, 8) == 9 && WordAt(c, 9, "jahre")
  {
    assert SkipSpaces(c, 5) == 6;
    assert SkipDigits(c, 7) == 8;
    assert SkipDigits(c, 6) == 8;
    assert SkipSpaces(c, 8) == 9;
  }

  lemma GermanAgeRange()
    ensures IsAgeCategory("8 bis 12 Jahre")
  {
    var c := "8 bis 12 Jahre";
    GermanRangeFrom(c);
    GermanRangeTo(c);
    assert AgeRangeAt(c, 0);
  }

  lemma NoDigitsNoAgeRange(c: string)
    requires forall i | 0 <= i < |c| :: !IsDigit(c[i])
    ensures !IsAgeCategory(c)
  {
    forall p | 0 <= p <= |c| ensures !AgeRangeAt(c, p) {
      assert SkipDigits(c, p) == p;
    }
  }

  lemma KeepsSingle(other: string)
    requires !IsAgeCategory(other)
    ensures KeepNonAge([other]) == [other]
  {
    assert [other][1..] == [];
  }

  lemma DropsLeadingAgeRange(age: string, other: string)
    requires IsAgeCategory(age)
    ensures KeepNonAge([age, other]) == KeepNonAge([other])
  {
    assert [age, other][1..] == [other];
  }

  lemma KrimiIsNoAgeRange()
    ensures !IsAgeCategory("Krimi")
  {
    var c := "Krimi";
    assert !IsDigit(c[0]) && !IsDigit(c[1]) && !IsDigit(c[2]) && !IsDigit(c[3]) && !IsDigit(c[4]);
    NoDigitsNoAgeRange(c);
  }

  /** "8 bis 12 Jahre" is an age range and is dropped; "Krimi" is kept. */
  lemma AgeCategoryExample()
    ensures CleanCategories(Some(["8 bis 12 Jahre", "Krimi"])) == ["Krimi"]
  {
    GermanAgeRange();
    KrimiIsNoAgeRange();
    KeepsSingle("Krimi");
    DropsLeadingAgeRange("8 bis 12 Jahre", "Krimi");
  }
}
