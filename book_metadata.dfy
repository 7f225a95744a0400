/**
 * The metadata assembler, `formatBookMetadata`: a catalog detail record in, a clean
 * metadata record out. The output object is a map from key to value; a JavaScript
 * `undefined` is the value `VUndefined`, and the final clean-up deletes every key that
 * maps to it.
 */
module BookMetadata {
  import opened Wrappers
  import opened JsStrings
  import opened TitlePatterns
  import opened TitleCleaner
  import opened Genres

  /** An entry of `book.series`; only its name is read. */
  datatype SeriesRef = SeriesRef(name: JsValue)

  /**
   * `slb.book`. `name` is `None` when the title is missing; `languageIso` is
   * `book.language?.isoValue`; `category` holds `book.category.title` when the category
   * object is present; a missing series list reads as the empty one.
   */
  datatype Book = Book(
    name: Option<string>,
    authorsAsString: JsValue,
    languageIso: JsValue,
    category: Option<JsValue>,
    series: seq<SeriesRef>,
    seriesOrder: JsValue,
    largeCover: Option<string>)

  /**
   * `slb.abook` (audio edition) or `slb.ebook` (text edition). `length` is in
   * milliseconds; `publisherName` is `publisher?.name`.
   */
  datatype Edition = Edition(
    length: Option<int>,
    narratorAsString: Option<string>,
    description: JsValue,
    publisherName: JsValue,
    releaseDateFormat: Option<string>,
    isbn: JsValue)

  datatype Slb = Slb(book: Option<Book>, abook: Option<Edition>, ebook: Option<Edition>)

  /** The detail response: `{ slb: ... }`. */
  datatype BookData = BookData(slb: Option<Slb>)

  /** `{series, sequence}` of the output's `series` list. */
  datatype SeriesEntry = SeriesEntry(series: string, sequence: string)

  /** A value of the output object. */
  datatype Value =
    | VUndefined
    | VNull
    | VText(text: string)
    | VNumber(number: int)
    | VList(items: seq<string>)
    | VSeries(entries: seq<SeriesEntry>)

  /** The properties of the output object. */
  datatype Key =
    | TitleKey | SubtitleKey | AuthorKey | LanguageKey | GenresKey | TagsKey | SeriesKey | CoverKey
    | DurationKey | NarratorKey | DescriptionKey | PublisherKey | PublishedYearKey | IsbnKey
  {
    /** The property name in the output object. */
    function Name(): string {
      match this
      case TitleKey => "title"
      case SubtitleKey => "subtitle"
      case AuthorKey => "author"
      case LanguageKey => "language"
      case GenresKey => "genres"
      case TagsKey => "tags"
      case SeriesKey => "series"
      case CoverKey => "cover"
      case DurationKey => "duration"
      case NarratorKey => "narrator"
      case DescriptionKey => "description"
      case PublisherKey => "publisher"
      case PublishedYearKey => "publishedYear"
      case IsbnKey => "isbn"
    }
  }

  type Metadata = map<Key, Value>

  /** What `formatBookMetadata` does: raise a TypeError, return `null`, or return a record. */
  datatype Formatted = Threw | NoMatch | Match(metadata: Metadata)

  const COVER_ORIGIN: string := "https://storytel.com"

  /** `upgradeCoverUrl`: `undefined` for a falsy path, else the 640x640 variant under the origin. */
  function UpgradeCoverUrl(url: Option<string>): (r: Option<string>)
    ensures r.None? <==> url.None? || url.value == ""
    ensures r.Some? ==> |COVER_ORIGIN| <= |r.value| && r.value[..|COVER_ORIGIN|] == COVER_ORIGIN
  {
    if url.None? || url.value == "" then None
    else Some(COVER_ORIGIN + ReplaceFirst(url.value, "320x320", "640x640"))
  }

  /**
   * Only the first "320x320" becomes "640x640"; a path without one is only prefixed
   * with the origin.
   */
  lemma CoverUrlReplacesFirstSize(url: string)
    requires url != ""
    ensures !Contains(url, "320x320") ==> UpgradeCoverUrl(Some(url)) == Some(COVER_ORIGIN + url)
    ensures Contains(url, "320x320") ==>
      exists i | 0 <= i && i + 7 <= |url| ::
        OccursAt(url, i, "320x320") && (forall j | 0 <= j < i :: !OccursAt(url, j, "320x320")) &&
        UpgradeCoverUrl(Some(url)) == Some(COVER_ORIGIN + url[..i] + "640x640" + url[i + 7..])
  {
    var m := FindFrom(url, "320x320", 0);
    if m.Some? {
      var i := m.value;
      assert OccursAt(url, i, "320x320");
      assert |"320x320"| == 7;
      var replaced := ReplaceFirst(url, "320x320", "640x640");
      assert replaced == url[..i] + "640x640" + url[i + 7..];
      assert UpgradeCoverUrl(Some(url)) == Some(COVER_ORIGIN + replaced);
      assert COVER_ORIGIN + replaced == COVER_ORIGIN + url[..i] + "640x640" + url[i + 7..];
    }
  }

  /** `book.series && book.series.length > 0 && book.seriesOrder`. */
  predicate HasSeries(book: Book) {
    |book.series| > 0 && Truthy(book.seriesOrder)
  }

  /** The genres: split from the category title, or none without a category. */
  function BookGenres(book: Book): seq<string> {
    match book.category
    case Some(title) => SplitGenre(EnsureString(title))
    case None => []
  }

  /** `list.length > 0 ? list : undefined`. */
  function ListOrUndefined(items: seq<string>): Value {
    if |items| > 0 then VList(items) else VUndefined
  }

  /**
   * The title and subtitle (src/provider.js:95-155). The table runs over the raw title;
   * with a series, the subtitle is "<name>, <order>", the title is cut before an
   * embedded series name and the table runs again; without one, a colon splits the
   * title into title and subtitle.
   */
  function TitleAndSubtitle(book: Book, name: string): (string, Value) {
    var cleaned := ApplyAll(CLEANUP_TABLE, name);
    if HasSeries(book) then
      var seriesName := ToStr(book.series[0].name);
      var cut := CutBeforeSeries(cleaned, seriesName);
      (Trim(ApplyAll(CLEANUP_TABLE, cut)), VText(Trim(seriesName + ", " + ToStr(book.seriesOrder))))
    else if ':' in cleaned then
      var (first, second) := ColonParts(cleaned);
      (Trim(first), VText(Trim(second)))
    else (Trim(cleaned), VNull)
  }

  /**
   * The settled title only ever loses text: it is a trimmed piece of the book's name, in
   * every branch (table passes, series cut, colon split, trims).
   */
  lemma SettledTitleIsPiece(book: Book, name: string)
    ensures IsTrimmed(TitleAndSubtitle(book, name).0)
    ensures IsFactor(TitleAndSubtitle(book, name).0, name)
  {
    var cleaned := ApplyAll(CLEANUP_TABLE, name);
    ApplyAllIsFactor(CLEANUP_TABLE, name);
    var piece: string;
    if HasSeries(book) {
      var cut := CutBeforeSeries(cleaned, ToStr(book.series[0].name));
      CutIsFactor(cleaned, ToStr(book.series[0].name));
      FactorTransitive(cut, cleaned, name);
      piece := ApplyAll(CLEANUP_TABLE, cut);
      ApplyAllIsFactor(CLEANUP_TABLE, cut);
      FactorTransitive(piece, cut, name);
    } else if ':' in cleaned {
      piece := ColonParts(cleaned).0;
      ColonPartsSplit(cleaned);
      assert piece == cleaned[0..|piece|];
      FactorTransitive(piece, cleaned, name);
    } else {
      piece := cleaned;
    }
    assert TitleAndSubtitle(book, name).0 == Trim(piece);
    FactorTransitive(Trim(piece), piece, name);
  }

  /**
   * Without a series the subtitle is `null` exactly when the cleaned title has no colon;
   * otherwise the colon split leaves no colon in either half, and the subtitle is trimmed.
   */
  lemma ColonSubtitle(book: Book, name: string)
    requires !HasSeries(book)
    ensures var cleaned := ApplyAll(CLEANUP_TABLE, name);
      var (title, subtitle) := TitleAndSubtitle(book, name);
      (subtitle == VNull <==> ':' !in cleaned) &&
      (subtitle != VNull ==> subtitle.VText? && ':' !in title && ':' !in subtitle.text && IsTrimmed(subtitle.text))
  {
    var cleaned := ApplyAll(CLEANUP_TABLE, name);
    if ':' in cleaned {
      var (first, second) := ColonParts(cleaned);
      ColonPartsSplit(cleaned);
      FactorAvoids(Trim(first), first, ':');
      FactorAvoids(Trim(second), second, ':');
    }
  }

  /**
   * The colon split gives back the two fields around the first colon: a cleaned title
   * `a:b` or `a:b:...` with neither field holding a colon has title `trim(a)` and
   * subtitle `trim(b)`.
   */
  lemma ColonSubtitleFields(book: Book, name: string, a: string, b: string, tail: string)
    requires !HasSeries(book)
    requires ApplyAll(CLEANUP_TABLE, name) == a + ":" + b + tail
    requires ':' !in a && ':' !in b && (tail == [] || tail[0] == ':')
    ensures TitleAndSubtitle(book, name) == (Trim(a), VText(Trim(b)))
  {
    ColonPartsUnique(a, b, tail);
    assert (a + ":" + b + tail)[|a|] == ':';
  }

  /** With a series the subtitle is "<name>, <order>", whatever the title says. */
  lemma SeriesSubtitle(book: Book, name: string)
    requires HasSeries(book)
    ensures TitleAndSubtitle(book, name).1 ==
      VText(Trim(ToStr(book.series[0].name) + ", " + ToStr(book.seriesOrder)))
    ensures TitleAndSubtitle(book, name).1.text != ""
  {
    var text := ToStr(book.series[0].name) + ", " + ToStr(book.seriesOrder);
    assert text[|ToStr(book.series[0].name)|] == ',';
    TrimKeepsNonSpace(text, |ToStr(book.series[0].name)|);
  }

  /** The values of the object literal at src/provider.js:166-175. */
  datatype Fields = Fields(
    title: Value, subtitle: Value, author: Value, language: Value,
    genres: Value, tags: Value, series: Value, cover: Value)

  /** The object literal built from its values. */
  function ObjectLiteral(f: Fields): Metadata {
    map[
      TitleKey := f.title,
      SubtitleKey := f.subtitle,
      AuthorKey := f.author,
      LanguageKey := f.language,
      GenresKey := f.genres,
      TagsKey := f.tags,
      SeriesKey := f.series,
      CoverKey := f.cover
    ]
  }

  /**
   * The value of each property of the object literal, for a settled title and subtitle.
   * The title is already trimmed, so `ensureString` gives it back unchanged (`TrimOfTrimmed`).
   */
  function BookFields(book: Book, title: string, subtitle: Value): Fields {
    var genres := BookGenres(book);
    Fields(
      VText(title),
      subtitle,
      VText(EnsureString(book.authorsAsString)),
      VText(EnsureString(if Truthy(book.languageIso) then book.languageIso else Str("de"))),
      ListOrUndefined(genres),
      ListOrUndefined(genres),
      if HasSeries(book)
        then VSeries([SeriesEntry(EnsureString(book.series[0].name), EnsureString(book.seriesOrder))])
        else VNull,
      match UpgradeCoverUrl(book.largeCover)
        case Some(u) => VText(u)
        case None => VUndefined)
  }


  /** `releaseDateFormat?.substring(0, 4)`. */
  function Year(date: Option<string>): Value {
    match date
    case Some(d) => VText(if |d| <= 4 then d else d[..4])
    case None => VUndefined
  }

  /** `length ? Math.floor(length / 60000) : undefined`; `/` here rounds down, as `Math.floor` does. */
  function Minutes(length: Option<int>): Value {
    match length
    case Some(ms) => if ms != 0 then VNumber(ms / 60000) else VUndefined
    case None => VUndefined
  }

  /** `narratorAsString || undefined`. */
  function Narrator(n: Option<string>): Value {
    match n
    case Some(name) => if name != "" then VText(name) else VUndefined
    case None => VUndefined
  }

  /** The values src/provider.js:178-192 assigns from one edition. */
  datatype EditionValues = EditionValues(
    duration: Value, narrator: Value, description: Value, publisher: Value, publishedYear: Value, isbn: Value)

  function ValuesOf(e: Edition): EditionValues {
    EditionValues(
      Minutes(e.length),
      Narrator(e.narratorAsString),
      VText(EnsureString(e.description)),
      VText(EnsureString(e.publisherName)),
      Year(e.releaseDateFormat),
      VText(EnsureString(e.isbn)))
  }

  /** The assignments onto the record: an audio edition also sets `duration` and `narrator`. */
  function Assign(m: Metadata, v: EditionValues, audio: bool): Metadata {
    var m' := if audio then m[DurationKey := v.duration][NarratorKey := v.narrator] else m;
    m'[DescriptionKey := v.description][PublisherKey := v.publisher][PublishedYearKey := v.publishedYear][IsbnKey := v.isbn]
  }


  /** The object after every key mapping to `undefined` is deleted. */
  function Defined(m: Metadata): Metadata {
    map k | k in m && m[k] != VUndefined :: m[k]
  }

  /** The record has a book and at least one edition. */
  predicate Usable(slb: Slb) {
    slb.book.Some? && (slb.abook.Some? || slb.ebook.Some?)
  }

  /** The edition the fields come from: the audio one when there is one. */
  function ChosenEdition(slb: Slb): Edition
    requires Usable(slb)
  {
    if slb.abook.Some? then slb.abook.value else slb.ebook.value
  }

  /**
   * The record: the object literal of fields `f`, with the edition values `v` assigned
   * (as an audio edition when `audio`), after the clean-up.
   */
  function RecordOf(f: Fields, v: EditionValues, audio: bool): Metadata {
    Defined(Assign(ObjectLiteral(f), v, audio))
  }

  /** The result of `formatBookMetadata(bookData)`. */
  function Format(bookData: BookData): Formatted {
    match bookData.slb
    case None => NoMatch
    case Some(slb) =>
      if !Usable(slb) then NoMatch
      else if slb.book.value.name.None? then Threw
      else
        var book := slb.book.value;
        var settled := TitleAndSubtitle(book, book.name.value);
        Match(RecordOf(BookFields(book, settled.0, settled.1), ValuesOf(ChosenEdition(slb)), slb.abook.Some?))
  }

  /** The clean-up loop of src/provider.js:195-197, deleting in place. */
  method DropUndefined(m: Metadata) returns (r: Metadata)
    ensures r == Defined(m)
  {
    r := m;
    var keys := m.Keys;
    while keys != {}
      invariant keys <= m.Keys
      invariant r.Keys == set k | k in m && (k in keys || m[k] != VUndefined)
      invariant forall k | k in r :: r[k] == m[k]
      decreases keys
    {
      var k :| k in keys;
      if r[k] == VUndefined {
        r := r - {k};
      }
      keys := keys - {k};
    }
  }

  /**
   * The title passes of `formatBookMetadata` (src/provider.js:95-155), reassigning the
   * title and subtitle step by step.
   */
  method SettleTitle(book: Book, name: string) returns (title: string, subtitle: Value)
    ensures (title, subtitle) == TitleAndSubtitle(book, name)
    ensures IsTrimmed(title)
  {
    title := name;
    subtitle := VNull;
    title := CleanupPasses(title);
    ghost var cleaned := title;
    if HasSeries(book) {
      var seriesName := ToStr(book.series[0].name);
      subtitle := VText(seriesName + ", " + ToStr(book.seriesOrder));
      title := CutTitle(title, seriesName);
      title := CleanupPasses(title);
      assert subtitle.text != "" by { assert subtitle.text[|seriesName|] == ','; }
      TrimIdempotent(subtitle.text);
    } else if ':' in title {
      var parts := ColonParts(title);
      title := Trim(parts.0);
      subtitle := VText(Trim(parts.1));
      TrimOfTrimmed(title);
      TrimOfTrimmed(subtitle.text);
    }
    title := Trim(title);
    if subtitle.VText? && subtitle.text != "" {
      subtitle := VText(Trim(subtitle.text));
    }
  }

  /** The assignments of src/provider.js:178-192 from edition `e`, an audio one when `audio`. */
  method AssignEdition(metadata: Metadata, e: Edition, audio: bool) returns (r: Metadata)
    ensures r == Assign(metadata, ValuesOf(e), audio)
  {
    r := metadata;
    var duration := if e.length.Some? && e.length.value != 0 then VNumber(e.length.value / 60000) else VUndefined;
    var narrator := if e.narratorAsString.Some? && e.narratorAsString.value != "" then VText(e.narratorAsString.value)
      else VUndefined;
    if audio {
      r := r[DurationKey := duration];
      r := r[NarratorKey := narrator];
    }
    var description := VText(EnsureString(e.description));
    var publisher := VText(EnsureString(e.publisherName));
    var year := Year(e.releaseDateFormat);
    var isbn := VText(EnsureString(e.isbn));
    r := r[DescriptionKey := description];
    r := r[PublisherKey := publisher];
    r := r[PublishedYearKey := year];
    r := r[IsbnKey := isbn];
    assert EditionValues(duration, narrator, description, publisher, year, isbn) == ValuesOf(e);
  }

  /**
   * `formatBookMetadata`: the title is rewritten pass by pass, the record is built and
   * extended field by field, and the undefined fields are deleted at the end.
   */
  method FormatBookMetadata(bookData: BookData) returns (result: Formatted)
    ensures result == Format(bookData)
  {
    if bookData.slb.None? || bookData.slb.value.book.None? {
      return NoMatch;
    }
    var slb := bookData.slb.value;
    var book := slb.book.value;
    if slb.abook.None? && slb.ebook.None? {
      return NoMatch;
    }
    if book.name.None? {
      // `title.replace` on a missing title raises a TypeError
      return Threw;
    }
    var title, subtitle := SettleTitle(book, book.name.value);
    var metadata := ObjectLiteral(BookFields(book, title, subtitle));
    if slb.abook.Some? {
      metadata := AssignEdition(metadata, slb.abook.value, true);
    } else {
      metadata := AssignEdition(metadata, slb.ebook.value, false);
    }
    metadata := DropUndefined(metadata);
    return Match(metadata);
  }

  /** The value under `k`, with a missing key read as `undefined`, as JavaScript reads it. */
  function Lookup(m: Metadata, k: Key): Value {
    if k in m then m[k] else VUndefined
  }

  /** The clean-up keeps each defined value as it is and drops each undefined one. */
  lemma DefinedAt(m: Metadata, k: Key)
    ensures Lookup(m, k) != VUndefined ==> k in Defined(m) && Defined(m)[k] == m[k]
    ensures Lookup(m, k) == VUndefined ==> k !in Defined(m)
  {
  }

  /** After the clean-up, `k` holds `v`, or is gone when `v` is `undefined`. */
  predicate Holds(m: Metadata, k: Key, v: Value) {
    if v == VUndefined then k !in m else k in m && m[k] == v
  }

  /** The value the record is given under `k`: from the object literal or from the edition. */
  function Written(f: Fields, v: EditionValues, audio: bool, k: Key): Value {
    match k
    case TitleKey => f.title
    case SubtitleKey => f.subtitle
    case AuthorKey => f.author
    case LanguageKey => f.language
    case GenresKey => f.genres
    case TagsKey => f.tags
    case SeriesKey => f.series
    case CoverKey => f.cover
    case DurationKey => if audio then v.duration else VUndefined
    case NarratorKey => if audio then v.narrator else VUndefined
    case DescriptionKey => v.description
    case PublisherKey => v.publisher
    case PublishedYearKey => v.publishedYear
    case IsbnKey => v.isbn
  }

  /**
   * The record keeps exactly the properties whose written value is not `undefined`, each
   * with that value; `null` and `''` are kept.
   */
  lemma RecordAt(f: Fields, v: EditionValues, audio: bool, k: Key)
    ensures Holds(RecordOf(f, v, audio), k, Written(f, v, audio, k))
  {
    var w := Assign(ObjectLiteral(f), v, audio);
    assert Lookup(w, k) == Written(f, v, audio, k);
    DefinedAt(w, k);
  }

  /** The record holds no `undefined`. */
  lemma RecordHasNoUndefined(f: Fields, v: EditionValues, audio: bool)
    ensures forall k | k in RecordOf(f, v, audio) :: RecordOf(f, v, audio)[k] != VUndefined
  {
    var w := Assign(ObjectLiteral(f), v, audio);
    assert forall k | k in Defined(w) :: Defined(w)[k] != VUndefined;
  }

  /**
   * `null` exactly when the book or both editions are missing; a TypeError exactly when
   * they are there but the title is not; otherwise the record built from the settled
   * title and the chosen edition.
   */
  lemma FormatOutcome(bookData: BookData)
    ensures Format(bookData) == NoMatch <==> bookData.slb.None? || !Usable(bookData.slb.value)
    ensures Format(bookData) == Threw <==>
      bookData.slb.Some? && Usable(bookData.slb.value) && bookData.slb.value.book.value.name.None?
  {
  }

  /** The audio edition wins: when there is one, the text edition does not matter. */
  lemma AudioTakesPrecedence(book: Book, abook: Edition, ebook1: Option<Edition>, ebook2: Option<Edition>)
    ensures Format(BookData(Some(Slb(Some(book), Some(abook), ebook1)))) ==
      Format(BookData(Some(Slb(Some(book), Some(abook), ebook2))))
  {
  }

  /** The title, and a subtitle that is not `undefined`, are kept as settled. */
  lemma RecordTitle(book: Book, title: string, subtitle: Value, v: EditionValues, audio: bool)
    ensures var m := RecordOf(BookFields(book, title, subtitle), v, audio);
      TitleKey in m && m[TitleKey] == VText(title) &&
      (subtitle != VUndefined ==> SubtitleKey in m && m[SubtitleKey] == subtitle)
  {
    var f := BookFields(book, title, subtitle);
    RecordAt(f, v, audio, TitleKey);
    RecordAt(f, v, audio, SubtitleKey);
  }

  /** The author is always present, as a string: `''` is kept, not dropped. */
  lemma RecordAuthor(book: Book, title: string, subtitle: Value, v: EditionValues, audio: bool)
    ensures var m := RecordOf(BookFields(book, title, subtitle), v, audio);
      AuthorKey in m && m[AuthorKey] == VText(EnsureString(book.authorsAsString))
  {
    RecordAt(BookFields(book, title, subtitle), v, audio, AuthorKey);
  }

  /** With a series and a truthy order the series list holds the trimmed name and order; otherwise it is `null`. */
  lemma RecordSeries(book: Book, title: string, subtitle: Value, v: EditionValues, audio: bool)
    ensures var m := RecordOf(BookFields(book, title, subtitle), v, audio);
      SeriesKey in m &&
      (HasSeries(book) ==>
        m[SeriesKey] == VSeries([SeriesEntry(EnsureString(book.series[0].name), EnsureString(book.seriesOrder))])) &&
      (!HasSeries(book) ==> m[SeriesKey] == VNull)
  {
    RecordAt(BookFields(book, title, subtitle), v, audio, SeriesKey);
  }

  lemma GermanIsTrimmed()
    ensures EnsureString(Str("de")) == "de"
  {
    var de := "de";
    assert IsTrimmed(de) by { assert de[0] == 'd' && de[1] == 'e'; }
    TrimOfTrimmed(de);
  }

  /** The language falls back to "de" when the ISO value is missing or empty. */
  lemma RecordLanguage(book: Book, title: string, subtitle: Value, v: EditionValues, audio: bool)
    ensures var m := RecordOf(BookFields(book, title, subtitle), v, audio);
      LanguageKey in m &&
      (!Truthy(book.languageIso) ==> m[LanguageKey] == VText("de")) &&
      (Truthy(book.languageIso) ==> m[LanguageKey] == VText(EnsureString(book.languageIso)))
  {
    RecordAt(BookFields(book, title, subtitle), v, audio, LanguageKey);
    GermanIsTrimmed();
  }

  /** A book has genres exactly when it has a category: the split of its trimmed title. */
  lemma BookGenresPresent(book: Book)
    ensures |BookGenres(book)| > 0 <==> book.category.Some?
    ensures book.category.Some? ==> BookGenres(book) == SplitGenre(EnsureString(book.category.value))
  {
  }

  /** The genres and tags of the record are those of the object literal, when defined. */
  lemma RecordLists(f: Fields, v: EditionValues, audio: bool)
    ensures var m := RecordOf(f, v, audio);
      (GenresKey in m <==> f.genres != VUndefined) && (GenresKey in m ==> m[GenresKey] == f.genres) &&
      (TagsKey in m <==> f.tags != VUndefined) && (TagsKey in m ==> m[TagsKey] == f.tags)
  {
    RecordAt(f, v, audio, GenresKey);
    RecordAt(f, v, audio, TagsKey);
  }

  /**
   * Genres and tags are present together, exactly when the book has a category, and hold
   * the same list: the split of the category title.
   */
  lemma RecordGenresAndTags(book: Book, title: string, subtitle: Value, v: EditionValues, audio: bool)
    ensures var m := RecordOf(BookFields(book, title, subtitle), v, audio);
      (GenresKey in m <==> book.category.Some?) &&
      (TagsKey in m <==> GenresKey in m) &&
      (GenresKey in m ==> m[GenresKey] == m[TagsKey] == VList(BookGenres(book)))
  {
    var f := BookFields(book, title, subtitle);
    RecordLists(f, v, audio);
    BookGenresPresent(book);
  }

  /** A cover is present exactly when the book has a non-empty cover path, and is its upgraded URL. */
  lemma RecordCover(book: Book, title: string, subtitle: Value, v: EditionValues, audio: bool)
    ensures var m := RecordOf(BookFields(book, title, subtitle), v, audio);
      (CoverKey in m <==> book.largeCover.Some? && book.largeCover.value != "") &&
      (CoverKey in m ==> m[CoverKey] == VText(UpgradeCoverUrl(book.largeCover).value))
  {
    RecordAt(BookFields(book, title, subtitle), v, audio, CoverKey);
  }

  /** The description, publisher and isbn come from the edition, as strings. */
  lemma RecordEditionFields(f: Fields, e: Edition, audio: bool)
    ensures var m := RecordOf(f, ValuesOf(e), audio);
      DescriptionKey in m && m[DescriptionKey] == VText(EnsureString(e.description)) &&
      PublisherKey in m && m[PublisherKey] == VText(EnsureString(e.publisherName)) &&
      IsbnKey in m && m[IsbnKey] == VText(EnsureString(e.isbn))
  {
    var v := ValuesOf(e);
    RecordAt(f, v, audio, DescriptionKey);
    RecordAt(f, v, audio, PublisherKey);
    RecordAt(f, v, audio, IsbnKey);
  }

  /**
   * The duration only comes from an audio edition: it is present exactly when the length
   * is non-zero, and is the length in whole minutes, rounded down.
   */
  lemma RecordDuration(f: Fields, e: Edition, audio: bool)
    ensures var m := RecordOf(f, ValuesOf(e), audio);
      (DurationKey in m <==> audio && e.length.Some? && e.length.value != 0) &&
      (DurationKey in m ==>
        m[DurationKey].VNumber? &&
        m[DurationKey].number * 60000 <= e.length.value < m[DurationKey].number * 60000 + 60000)
  {
    RecordAt(f, ValuesOf(e), audio, DurationKey);
  }

  /** The narrator is present exactly for an audio edition with a non-empty narrator. */
  lemma RecordNarrator(f: Fields, e: Edition, audio: bool)
    ensures var m := RecordOf(f, ValuesOf(e), audio);
      (NarratorKey in m <==> audio && e.narratorAsString.Some? && e.narratorAsString.value != "") &&
      (NarratorKey in m ==> m[NarratorKey] == VText(e.narratorAsString.value))
  {
    RecordAt(f, ValuesOf(e), audio, NarratorKey);
  }

  /** 5 430 000 ms is 90.5 minutes, reported as 90. */
  lemma DurationExample()
    ensures Minutes(Some(5430000)) == VNumber(90)
  {
  }

  /** The published year is the first four characters of the release date, when there is one. */
  lemma RecordPublishedYear(f: Fields, e: Edition, audio: bool)
    ensures var m := RecordOf(f, ValuesOf(e), audio);
      (PublishedYearKey in m <==> e.releaseDateFormat.Some?) &&
      (PublishedYearKey in m ==>
        var date := e.releaseDateFormat.value;
        m[PublishedYearKey].VText? &&
        |m[PublishedYearKey].text| == (if |date| < 4 then |date| else 4) &&
        m[PublishedYearKey].text == date[..|m[PublishedYearKey].text|])
  {
    RecordAt(f, ValuesOf(e), audio, PublishedYearKey);
  }
}
