/**
 * `searchBooks` (src/provider.js:202-256): the query is normalised, the result cache is
 * consulted, and on a miss the search response's candidates are resolved one by one into
 * metadata records, the `null`s dropped and the result cached. The two HTTP requests are
 * parameters; `Promise.all` over the candidates becomes a loop in candidate order.
 */
module Search {
  import opened Wrappers
  import opened JsStrings
  import opened BookMetadata
  import opened ResultCache

  /** `query.split(':')[0].trim()`: the part before the first colon, trimmed. */
  function CleanQuery(query: string): (q: string)
    ensures IsTrimmed(q) && ':' !in q
    ensures exists i | 0 <= i <= |query| ::
      ':' !in query[..i] && (i == |query| || query[i] == ':') && q == Trim(query[..i])
  {
    var i := IndexOf(query, ':');
    var head := query[..i];
    IndexOfSplits(query, ':');
    FactorAvoids(Trim(head), head, ':');
    assert ':' !in query[..i] && (i == |query| || query[i] == ':');
    Trim(head)
  }

  /** `s.replace(/\s+/g, '+')`: every run of white space becomes a single `+`. */
  function PlusSpaces(s: string): (r: string)
    ensures forall i | 0 <= i < |r| :: !IsSpace(r[i])
    ensures forall i | 0 <= i < |r| :: r[i] == '+' || r[i] in s
    ensures |r| <= |s|
    decreases |s|
  {
    if s == [] then []
    else if IsSpace(s[0]) then "+" + PlusSpaces(s[SkipSpaces(s, 0)..])
    else [s[0]] + PlusSpaces(s[1..])
  }

  /** The query sent to the search and used in the cache key: no colon and no white space left. */
  function NormalizeQuery(query: string): (q: string)
    ensures ':' !in q
    ensures forall i | 0 <= i < |q| :: !IsSpace(q[i])
  {
    PlusSpaces(CleanQuery(query))
  }

  /** `${formattedQuery}-${author}-${locale}`. */
  function CacheKey(query: string, author: string, locale: string): string {
    query + "-" + author + "-" + locale
  }

  /** A string without white space passes through unchanged. */
  lemma {:induction false} PlusSpacesKeepsWords(s: string)
    requires forall i | 0 <= i < |s| :: !IsSpace(s[i])
    ensures PlusSpaces(s) == s
    decreases |s|
  {
    if s != [] {
      PlusSpacesKeepsWords(s[1..]);
      assert s == [s[0]] + s[1..];
    }
  }

  /**
   * A word, a run of white space and the rest: the word is kept, the whole run becomes one
   * `+`, and the rest is normalised in turn.
   */
  lemma {:induction false} PlusSpacesJoins(word: string, gap: string, rest: string)
    requires forall i | 0 <= i < |word| :: !IsSpace(word[i])
    requires gap != [] && AllSpace(gap)
    requires rest == [] || !IsSpace(rest[0])
    ensures PlusSpaces(word + gap + rest) == word + "+" + PlusSpaces(rest)
    decreases |word|
  {
    if word == [] {
      assert word + gap + rest == gap + rest;
      PlusSpacesGap(gap, rest);
    } else {
      var t := word[1..] + gap + rest;
      var p := PlusSpaces(rest);
      calc {
        PlusSpaces(word + gap + rest);
        { assert word + gap + rest == [word[0]] + t; }
        PlusSpaces([word[0]] + t);
        { PlusSpacesKeepsChar(word[0], t); }
        [word[0]] + PlusSpaces(t);
        { PlusSpacesJoins(word[1..], gap, rest); }
        [word[0]] + (word[1..] + "+" + p);
        { assert word == [word[0]] + word[1..]; }
        word + "+" + p;
      }
    }
  }

  /** A character that is not white space is copied as it is. */
  lemma PlusSpacesKeepsChar(c: char, t: string)
    requires !IsSpace(c)
    ensures PlusSpaces([c] + t) == [c] + PlusSpaces(t)
  {
    assert ([c] + t)[1..] == t;
  }

  /** A leading run of white space, up to a non-space character or the end, becomes one `+`. */
  lemma PlusSpacesGap(gap: string, rest: string)
    requires gap != [] && AllSpace(gap)
    requires rest == [] || !IsSpace(rest[0])
    ensures PlusSpaces(gap + rest) == "+" + PlusSpaces(rest)
  {
    var s := gap + rest;
    assert s[0] == gap[0];
    forall k | 0 <= k < |gap| ensures IsSpace(s[k]) {
      assert s[k] == gap[k];
    }
    assert |gap| == |s| || s[|gap|] == rest[0];
    SkipSpacesOverRun(s, |gap|);
    assert s[|gap|..] == rest;
  }

  /** `SkipSpaces` from the front stops exactly at the end of a leading run of spaces. */
  lemma SkipSpacesOverRun(s: string, n: nat)
    requires n <= |s|
    requires forall k | 0 <= k < n :: IsSpace(s[k])
    requires n == |s| || !IsSpace(s[n])
    ensures SkipSpaces(s, 0) == n
  {
  }

  /**
   * The cache key is not injective: a dash in the query or the author can make two
   * different searches share one key.
   */
  lemma CacheKeyCollision()
    ensures CacheKey("a", "b-c", "de") == CacheKey("a-b", "c", "de")
  {
    assert CacheKey("a", "b-c", "de") == "a-b-c-de";
    assert CacheKey("a-b", "c", "de") == "a-b-c-de";
  }

  /** `x-y` with no dash in `y` splits at its last dash. */
  lemma SplitAtLastDash(x1: string, y1: string, x2: string, y2: string)
    requires '-' !in y1 && '-' !in y2
    requires x1 + "-" + y1 == x2 + "-" + y2
    ensures x1 == x2 && y1 == y2
  {
    var s := x1 + "-" + y1;
    var t := x2 + "-" + y2;
    assert s[|x1|] == '-' && t[|x2|] == '-';
    assert forall k | |x1| < k < |s| :: s[k] != '-' by {
      forall k | |x1| < k < |s| ensures s[k] != '-' { assert s[k] == y1[k - |x1| - 1]; }
    }
    assert forall k | |x2| < k < |t| :: t[k] != '-' by {
      forall k | |x2| < k < |t| ensures t[k] != '-' { assert t[k] == y2[k - |x2| - 1]; }
    }
    assert |x1| == |x2|;
    assert x1 == s[..|x1|] == x2;
    assert y1 == s[|x1| + 1..] == y2;
  }

  /** With dash-free authors and locales, equal keys do mean equal searches. */
  lemma CacheKeyDistinguishes(q1: string, a1: string, l1: string, q2: string, a2: string, l2: string)
    requires '-' !in a1 && '-' !in l1 && '-' !in a2 && '-' !in l2
    requires CacheKey(q1, a1, l1) == CacheKey(q2, a2, l2)
    ensures q1 == q2 && a1 == a2 && l1 == l2
  {
    SplitAtLastDash(q1 + "-" + a1, l1, q2 + "-" + a2, l2);
    SplitAtLastDash(q1, a1, q2, a2);
  }

  /** One entry of `searchResponse.data.books`: `book.book` with its `id`. */
  datatype CandidateBook = CandidateBook(id: JsValue)
  datatype Candidate = Candidate(book: Option<CandidateBook>)

  /** `searchResponse.data` and its `books`, each possibly missing. */
  datatype SearchData = SearchData(books: Option<seq<Candidate>>)

  /** The search request: it throws, or answers with a possibly missing body. */
  datatype SearchResponse = SearchFailed | SearchAnswered(data: Option<SearchData>)

  /** `{ matches }`, the value `searchBooks` resolves to. */
  datatype SearchResult = SearchResult(matches: seq<Metadata>)

  /** What becomes of one candidate: `null`, a record, or a TypeError from formatting. */
  function Resolve(c: Candidate, locale: string, details: (JsValue, string) -> Option<BookData>): Formatted {
    if c.book.None? || !Truthy(c.book.value.id) then NoMatch
    else match details(c.book.value.id, locale)
      case None => NoMatch
      case Some(bookData) => Format(bookData)
  }

  /** The outcome of every candidate, in search order. */
  function Outcomes(cands: seq<Candidate>, locale: string, details: (JsValue, string) -> Option<BookData>): seq<Formatted> {
    seq(|cands|, i requires 0 <= i < |cands| => Resolve(cands[i], locale, details))
  }

  /** `matches.filter(match => match !== null)`: the records, in order. */
  function KeptMatches(os: seq<Formatted>): (ms: seq<Metadata>)
    ensures |ms| <= |os|
    decreases |os|
  {
    if os == [] then []
    else
      var last := os[|os| - 1];
      KeptMatches(os[..|os| - 1]) + (if last.Match? then [last.metadata] else [])
  }

  /** Filtering runs piece by piece: the records of `a + b` are those of `a`, then those of `b`. */
  lemma {:induction false} KeptMatchesAppend(a: seq<Formatted>, b: seq<Formatted>)
    ensures KeptMatches(a + b) == KeptMatches(a) + KeptMatches(b)
    decreases |b|
  {
    if b == [] {
      assert a + b == a;
    } else {
      var b' := b[..|b| - 1];
      assert (a + b)[..|a + b| - 1] == a + b';
      KeptMatchesAppend(a, b');
    }
  }

  /** A record is kept exactly when some candidate produced it. */
  lemma {:induction false} KeptMatchesMembers(os: seq<Formatted>, m: Metadata)
    ensures m in KeptMatches(os) <==> Match(m) in os
    decreases |os|
  {
    if os != [] {
      var init := os[..|os| - 1];
      KeptMatchesMembers(init, m);
      assert os == init + [os[|os| - 1]];
    }
  }

  /** There is no cap: when every candidate gives a record, all of them are returned, in order. */
  lemma {:induction false} KeptMatchesAll(os: seq<Formatted>)
    requires forall i | 0 <= i < |os| :: os[i].Match?
    ensures |KeptMatches(os)| == |os|
    ensures forall i | 0 <= i < |os| :: KeptMatches(os)[i] == os[i].metadata
    decreases |os|
  {
    if os != [] {
      KeptMatchesAll(os[..|os| - 1]);
    }
  }

  /** The result of a search that missed the cache, and whether it is stored. */
  function Fresh(query: string, locale: string, search: (string, string) -> SearchResponse,
                 details: (JsValue, string) -> Option<BookData>): (SearchResult, bool) {
    match search(query, locale)
    case SearchFailed => (SearchResult([]), false)
    case SearchAnswered(data) =>
      if data.None? || data.value.books.None? then (SearchResult([]), false)
      else
        var os := Outcomes(data.value.books.value, locale, details);
        if Threw in os then (SearchResult([]), false) else (SearchResult(KeptMatches(os)), true)
  }

  /**
   * A fresh result is stored exactly when the search answered with books and no candidate
   * failed to format; every other path (a thrown request, no books, a TypeError) yields
   * `{matches: []}`, which is not stored.
   */
  lemma FreshStoredExactly(query: string, locale: string, search: (string, string) -> SearchResponse,
                           details: (JsValue, string) -> Option<BookData>)
    ensures var r := search(query, locale);
      var answered := r.SearchAnswered? && r.data.Some? && r.data.value.books.Some?;
      (Fresh(query, locale, search, details).1 <==>
        answered && Threw !in Outcomes(r.data.value.books.value, locale, details)) &&
      (!Fresh(query, locale, search, details).1 ==> Fresh(query, locale, search, details).0.matches == [])
  {
  }

  /** Every candidate that resolves to a record is in the stored result, and nothing else is. */
  lemma FreshMatchesAreCandidates(query: string, locale: string, search: (string, string) -> SearchResponse,
                                  details: (JsValue, string) -> Option<BookData>, m: Metadata)
    requires Fresh(query, locale, search, details).1
    ensures var cands := search(query, locale).data.value.books.value;
      m in Fresh(query, locale, search, details).0.matches <==>
        exists i | 0 <= i < |cands| :: Resolve(cands[i], locale, details) == Match(m)
  {
    var cands := search(query, locale).data.value.books.value;
    var os := Outcomes(cands, locale, details);
    KeptMatchesMembers(os, m);
    assert |os| == |cands|;
    if Match(m) in os {
      var i :| 0 <= i < |os| && os[i] == Match(m);
      assert Resolve(cands[i], locale, details) == Match(m);
    }
    if exists i | 0 <= i < |cands| :: Resolve(cands[i], locale, details) == Match(m) {
      var i :| 0 <= i < |cands| && Resolve(cands[i], locale, details) == Match(m);
      assert os[i] == Match(m);
    }
  }

  /**
   * `StorytelProvider`: its locale and the result cache. The cache is a field the
   * constructor creates; in the source it is one module-level cache for every instance.
   */
  class StorytelProvider {
    const locale: string
    const cache: Cache<SearchResult>

    /** The locale stands for `process.env.STORYTEL_LOCALE || 'de'`. */
    constructor(locale: string)
      ensures this.locale == locale
      ensures fresh(cache) && cache.entries == map[] && cache.ttlSeconds == STD_TTL
    {
      this.locale := locale;
      cache := new Cache(STD_TTL);
    }

    /** One candidate of the `books.map` callback: `null`, or the details formatted. */
    method ResolveCandidate(candidate: Candidate, details: (JsValue, string) -> Option<BookData>) returns (outcome: Formatted)
      ensures outcome == Resolve(candidate, locale, details)
    {
      outcome := NoMatch;
      if candidate.book.Some? && Truthy(candidate.book.value.id) {
        var bookData := details(candidate.book.value.id, locale);
        if bookData.Some? {
          outcome := FormatBookMetadata(bookData.value);
        }
      }
    }

    /**
     * `Promise.all(books.map(...))`, candidate by candidate: the outcome of each candidate,
     * in search order.
     */
    method ResolveAll(books: seq<Candidate>, details: (JsValue, string) -> Option<BookData>)
      returns (outcomes: seq<Formatted>)
      ensures outcomes == Outcomes(books, locale, details)
    {
      ghost var all := Outcomes(books, locale, details);
      outcomes := [];
      for i := 0 to |books|
        invariant outcomes == all[..i]
      {
        var outcome := ResolveCandidate(books[i], details);
        assert all[..i + 1] == all[..i] + [all[i]];
        outcomes := outcomes + [outcome];
      }
      assert all[..|books|] == all;
    }

    /**
     * The `try` block of `searchBooks` after a cache miss: the search request, the
     * candidates, and the `null` filter. It gives the result and whether `searchBooks`
     * stores it; every raise lands in the `catch` as an unstored `{matches: []}`.
     */
    method SearchFresh(q: string, search: (string, string) -> SearchResponse,
                       details: (JsValue, string) -> Option<BookData>) returns (result: SearchResult, stored: bool)
      ensures (result, stored) == Fresh(q, locale, search, details)
    {
      var response := search(q, locale);
      if response.SearchFailed? || response.data.None? || response.data.value.books.None? {
        return SearchResult([]), false;
      }
      var outcomes := ResolveAll(response.data.value.books.value, details);
      if Threw in outcomes {
        // the rejected `Promise.all` lands in the `catch`
        return SearchResult([]), false;
      }
      return SearchResult(KeptMatches(outcomes)), true;
    }

    /** The normalised query of `searchBooks` and its cache key under this provider's locale. */
    method QueryKey(query: string, author: string) returns (q: string, key: string)
      ensures q == NormalizeQuery(query) && key == CacheKey(q, author, locale)
    {
      q := NormalizeQuery(query);
      key := CacheKey(q, author, locale);
    }

    /**
     * `searchBooks(query, author)`: the cache is read at time `now`, when the call starts.
     * A live cached result is returned as it is, without searching; otherwise the fresh
     * result is returned and, when it is stored, it is cached under the key at time
     * `doneAt`, when the awaited requests have finished, for ten minutes from then.
     */
    method SearchBooks(query: string, author: string, now: nat, doneAt: nat,
                       search: (string, string) -> SearchResponse,
                       details: (JsValue, string) -> Option<BookData>) returns (result: SearchResult)
      modifies cache
      ensures var q := NormalizeQuery(query);
        var key := CacheKey(q, author, locale);
        var hit := Answer(old(cache.entries), key, now);
        var miss := Fresh(q, locale, search, details);
        (hit.Some? ==> result == hit.value && cache.entries == old(cache.entries)) &&
        (hit.None? && miss.1 ==>
          result == miss.0 && cache.entries == old(cache.entries)[key := Entry(result, ExpiryAt(doneAt, cache.ttlSeconds))]) &&
        (hit.None? && !miss.1 ==> result == miss.0 && cache.entries == AfterGet(old(cache.entries), key, now))
    {
      var q, key := QueryKey(query, author);
      var cached := cache.Get(key, now);
      if cached.Some? {
        return cached.value;
      }
      var stored;
      result, stored := SearchFresh(q, search, details);
      if stored {
        ghost var before := cache.entries;
        cache.Set(key, result, doneAt);
        assert cache.entries == old(cache.entries)[key := Entry(result, ExpiryAt(doneAt, cache.ttlSeconds))] by {
          assert before == AfterGet(old(cache.entries), key, now);
        }
      }
    }
  }

  /** A result stored by a search at `doneAt` is served for ten minutes from then to any search with the same key. */
  lemma StoredResultServed(entries: map<string, Entry<SearchResult>>, key: string, result: SearchResult, doneAt: nat, later: int)
    requires doneAt <= later <= doneAt + 600000
    ensures Answer(entries[key := Entry(result, ExpiryAt(doneAt, STD_TTL))], key, later) == Some(result)
  {
    StoredValueLivesForTtl(entries, key, result, doneAt, STD_TTL, later);
  }
}
