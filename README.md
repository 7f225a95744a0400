# Storytel metadata provider — a verified model of its normalisation engine

The provider answers a book search with metadata records that a media manager can use.
It takes the search query and an author, asks the Storytel catalog for candidate books,
fetches each candidate's details and turns each record into a clean metadata record.
The record has a title with its episode and volume markers removed, a subtitle, the
series and its position, genres and tags, the cover, the duration, the narrator, the
publisher, the year and the ISBN. Results are cached for ten minutes under a key built
from the query, the author and the locale.

This project models `src/provider.js`, the `StorytelProvider`, in Dafny:

- `js_strings.dfy` (`JsStrings`) holds the JavaScript semantics the provider leans on:
  - truthiness and `String(v)`;
  - `trim` over the ECMAScript white-space set;
  - `indexOf`, `includes` and `replace` with a string pattern;
  - `ensureString`.
- `title_patterns.dfy` (`TitlePatterns`) holds the nine-rule title cleanup table.
  - Each case-insensitive regular expression is a hand-written matcher.
  - A lazy `.*?` takes the least position and does not cross a line terminator.
  - A `$`-anchored rule matches from its least start position.
- `title_cleaner.dfy` (`TitleCleaner`) holds the step-by-step title rewriting:
  - `cleanTitle`;
  - the two `forEach` passes of `formatBookMetadata`;
  - the cut before an embedded series name;
  - the colon split.
- `genres.dfy` (`Genres`) holds `splitGenre` and `cleanCategories`.
- `book_metadata.dfy` (`BookMetadata`) holds `upgradeCoverUrl` and `formatBookMetadata`.
  - The record is built as a map that the method extends key by key.
  - It is then cleaned of `undefined` values in place.
  - The method is proved equal to a specification function, `Format`.
  - Lemmas about `Format` state what each field holds.
- `result_cache.dfy` (`ResultCache`) models the NodeCache with its 600-second time-to-live.
- `search.dfy` (`Search`) holds `searchBooks`, with the cache as a field of the provider object:
  - query normalisation and the cache key;
  - cache hit and miss;
  - resolving the candidates in order and dropping the `null`s;
  - collapsing errors to `{matches: []}`;
  - caching only real answers.

The model follows the code as written:
- There is no cap on the number of candidates; `Search.KeptMatchesAll` states that all of them are kept.
- `splitGenre` is a lookup in a fixed four-entry table, not a split on `/` or `,`.
- The colon split has no minimum length. It keeps the text between the first and second colons as the subtitle.
- The series cut keeps the shortest front part, not the longest. Its lazy match is case-sensitive.
- The series subtitle is `"<name>, <order>"`.
- Running the cleanup table is not idempotent; `TitlePatterns.TableNotIdempotent` gives a title that a second pass shortens again.
- Only the colon is a subtitle separator, not `-`.

The one exception is the genre lookup (see "## Findings"). There the model uses the corrected lookup, and "## Left out" names the members this affects.

Time (`Date.now()`), the locale (`process.env.STORYTEL_LOCALE`) and the two HTTP requests are parameters:
- The search request is a function from query and locale to a response, which may be a thrown error.
- `getBookDetails` is a function from book id and locale to optional details; its own `catch` returns `null`, which is `None` here.

## Model

| member | source | states |
|---|---|---|
| `JsStrings.Trim` | src/provider.js:17 | `trim` gives a string with no white space at either end, and it is a contiguous piece of the input |
| `JsStrings.TrimStripsSpace` | src/provider.js:17 | `trim` removes only white space, and only from the two ends |
| `JsStrings.TrimUnique` | src/provider.js:17 | white space around a trimmed string is exactly what `trim` removes |
| `JsStrings.TrimOfTrimmed` | src/provider.js:152 | trimming an already trimmed string changes nothing |
| `JsStrings.TrimKeepsNonSpace` | src/provider.js:153-154 | a string holding a non-space character never trims to `''` |
| `JsStrings.TrimIdempotent` | src/provider.js:152-155 | trimming twice is trimming once |
| `JsStrings.Truthy` | src/provider.js:72-83 | JavaScript truthiness: `undefined`, `null`, `''` and `0` are falsy, everything else modelled is truthy |
| `JsStrings.ToStr` | src/provider.js:17 | `String(v)`: `"undefined"`, `"null"`, the string itself, or the decimal numeral with a `-` for a negative number |
| `JsStrings.Canon` | src/provider.js:30-38 | the `i` flag's case folding: an upper-case result comes from an ASCII letter |
| `JsStrings.ReplaceFirst` | src/provider.js:22 | `replace` with a string pattern: its first occurrence is replaced, or the string is left as it is |
| `JsStrings.EnsureString` | src/provider.js:15-18 | `''` for `null`/`undefined`, otherwise the trimmed `String(value)`; the result is always trimmed |
| `JsStrings.EnsureStringIdempotent` | src/provider.js:15-18 | applying `ensureString` to its own result gives the same string |
| `JsStrings.NatToString` | src/provider.js:87 | the decimal form of a number is a non-empty run of digits that reads back as the number, with no leading zero |
| `JsStrings.IndexOf` | src/provider.js:146 | the first index of the character, with nothing equal to it before |
| `JsStrings.IndexOfSplits` | src/provider.js:146 | the text before the first occurrence holds no occurrence, and one is found when present |
| `JsStrings.FindFrom` | src/provider.js:22 | the first occurrence of a string pattern, or none anywhere |
| `BookMetadata.UpgradeCoverUrl` | src/provider.js:20-23 | `undefined` exactly for a missing or empty path; otherwise the URL starts with `https://storytel.com` |
| `BookMetadata.CoverUrlReplacesFirstSize` | src/provider.js:20-23 | without `320x320` the path is only prefixed; otherwise exactly its first `320x320` becomes `640x640` |
| `TitlePatterns.MarkerEnd` | src/provider.js:30-35 | where the marker of a front rule, starting at `k`, ends. The markers are `,\s*Folge\s*\d+:\s*`, `,\s*Band\s*\d+:\s*`, `\s+-\s+\d+:\s*`, `\s+\d+:\s*`, `,\s*Teil\s*\d+:\s*` and `,\s*Volume\s*\d+:\s*`. A match is never empty |
| `TitlePatterns.SuffixMatchesAt` | src/provider.js:36-38 | an end rule matches the rest of the title from `i`: `\s*\((Ungekürzt\|Gekürzt)\)\s*$`, `,\s*Teil\s+\d+$`, or `-\s*.*?(Reihe\|Serie)\s+\d+$` |
| `TitlePatterns.ScanIsLeast` | src/provider.js:30-38 | the search for a match start stops at the least reachable position where the pattern matches, and finds none only when it matches at no reachable position |
| `TitlePatterns.LazyStart` | src/provider.js:30-35 | the lazy `^.*?` in front of a marker ends at a position where the marker matches |
| `TitlePatterns.LazyStartIsLeast` | src/provider.js:30-35 | that position is the least one before the first line end; with none found, no marker starts before the first line end |
| `TitlePatterns.FirstSuffixStart` | src/provider.js:36-38 | a position from which a `$`-anchored rule matches the rest of the title, removing at least one character |
| `TitlePatterns.FirstSuffixStartIsLeast` | src/provider.js:36-38 | that position is the least one; with none found, the rule matches no end of the title |
| `TitlePatterns.SuffixMatchNonEmpty` | src/provider.js:36-38 | every match of an end rule removes at least one character |
| `TitlePatterns.Apply` | src/provider.js:29-39 | one `replace(rule, '')` leaves the title unchanged or shorter: the tail of it for a front rule, the head for an end rule |
| `TitlePatterns.PrefixRuleChangesIff` | src/provider.js:30-35 | a front rule changes the title exactly when its marker occurs before the first line end |
| `TitlePatterns.SuffixRuleChangesIff` | src/provider.js:36-38 | an end rule changes the title exactly when some end of it matches |
| `TitlePatterns.ApplyAll` | src/provider.js:41-43 | running rules in turn never lengthens the title |
| `TitlePatterns.ApplyAllIsFactor` | src/provider.js:41-43 | running the table only deletes: the result is a contiguous piece of the title |
| `TitlePatterns.ApplyAllConcat` | src/provider.js:115-121 | the prefix pass followed by the suffix pass is one run of the whole table |
| `TitlePatterns.IdleWithoutPunctuation` | src/provider.js:29-39 | every rule but `\s+\d+:` needs a comma, hyphen or parenthesis, so it leaves a title without them alone |
| `TitlePatterns.IdleRules` | src/provider.js:29-39 | a list of such rules leaves such a title alone |
| `TitlePatterns.ApplyKeepsAbsent` | src/provider.js:29-39 | a rule never brings in a character |
| `TitlePatterns.IdleAround` | src/provider.js:29-39 | with the rules around it idle, only the `\s+\d+:` rule acts |
| `TitlePatterns.PlainTitlePass` | src/provider.js:29-43 | on a title without commas, hyphens and parentheses, the table is just the `\s+\d+:` rule |
| `TitlePatterns.FirstPassExample` | src/provider.js:33 | `"x 1: y 2: z"` loses `"x 1: "` |
| `TitlePatterns.SecondPassExample` | src/provider.js:33 | `"y 2: z"` loses `"y 2: "` |
| `TitlePatterns.TableNotIdempotent` | src/provider.js:137-142 | the second pass over the table can delete more than the first left |
| `TitleCleaner.ReplaceEach` | src/provider.js:41-43 | the loop over the rules computes the table run, and the result is a piece of the title |
| `TitleCleaner.CleanupPasses` | src/provider.js:115-121 | the prefix `forEach` and then the suffix `forEach` compute one run of the whole table |
| `TitleCleaner.SkipSeparators` | src/provider.js:46 | the greedy `[\s,-]*`: everything skipped is white space, a comma or a hyphen, and the run stops only at the end or at another character |
| `TitleCleaner.StripSeriesPrefix` | src/provider.js:45-48 | the series-name deletion removes a front part; when the name leads the title at least the name goes, otherwise nothing |
| `TitleCleaner.CleanedTitle` | src/provider.js:28-50 | the table run, then the leading series name deleted when one is given, then `trim` |
| `TitleCleaner.CleanTitle` | src/provider.js:25-51 | `''` for a falsy title, otherwise the table run, the series-name deletion and `trim` |
| `TitleCleaner.CleanedTitleIsTrimmedPiece` | src/provider.js:25-51 | `cleanTitle` returns a trimmed, contiguous piece of the title, never longer |
| `TitleCleaner.CleanedTitleWithoutSeries` | src/provider.js:45-50 | without a series name, or with an empty one, `cleanTitle` is the table followed by `trim` |
| `TitleCleaner.LeastCut` | src/provider.js:130 | the lazy `(.+?)` ends at the least position before a line end where `-` or `,`, white space and the series name follow |
| `TitleCleaner.CutBeforeSeries` | src/provider.js:128-134 | the title cut before an embedded series name: the trimmed lazy group when the title contains the name and the match succeeds, otherwise the title |
| `TitleCleaner.CutIsFactor` | src/provider.js:128-134 | the series cut only removes text |
| `TitleCleaner.CutTitle` | src/provider.js:128-134 | the cut of `formatBookMetadata` computes the shortest matching front part, trimmed, or leaves the title |
| `TitleCleaner.CutKeepsShortestFront` | src/provider.js:128-134 | the cut happens exactly when some separator followed by the name exists, and then at the least one |
| `TitleCleaner.ColonPartsSplit` | src/provider.js:145-148 | the title is the first piece, a colon, the second piece, then the end or another colon; neither piece holds a colon |
| `TitleCleaner.ColonPartsUnique` | src/provider.js:145-148 | any such decomposition is the one `split(':')` finds |
| `Genres.SplitGenre` | src/provider.js:59-68 | a table compound gives its fixed list, any other name `g` gives `[g]`; never empty |
| `Genres.SplitGenreShape` | src/provider.js:59-68 | a name is split exactly when it is a table compound, and then into two non-empty slash-free genres |
| `Genres.SplitGenreAsWritten` | src/provider.js:67 | the lookup on a plain object also finds inherited `Object.prototype` names |
| `Genres.SpreadAsWritten` | src/provider.js:163 | spreading an inherited member raises, and spreading a list copies it |
| `Genres.InheritedGenreRaises` | src/provider.js:67 | the category `"toString"` makes the tags line raise, where the corrected split gives `["toString"]` |
| `Genres.SplitGenreAgreesAsWritten` | src/provider.js:67 | apart from inherited names, the corrected split is the written one |
| `Genres.AgeRangeAt` | src/provider.js:56 | `\d+\s*(bis\|-)\s*\d+\s*(Jahre\|Year\|Age)` matches, case-insensitively, starting at `p` |
| `Genres.IsAgeCategory` | src/provider.js:56 | `cat.match` finds an age range at some position of the category |
| `Genres.KeepNonAge` | src/provider.js:56 | the kept categories are an in-order subsequence with no age range, and each non-age category occurs as often as in the input |
| `Genres.CleanCategories` | src/provider.js:54-57 | `[]` for a missing input; otherwise the non-age categories in order, each as often as in the input |
| `Genres.GermanAgeRange` | src/provider.js:56 | `"8 bis 12 Jahre"` matches the age-range pattern |
| `Genres.NoDigitsNoAgeRange` | src/provider.js:56 | a category without digits is never an age range |
| `Genres.KeepsSingle` | src/provider.js:56 | a non-age category survives the filter |
| `Genres.DropsLeadingAgeRange` | src/provider.js:56 | an age-range category is dropped |
| `Genres.KrimiIsNoAgeRange` | src/provider.js:56 | `"Krimi"` is not an age range |
| `Genres.AgeCategoryExample` | src/provider.js:54-57 | `["8 bis 12 Jahre", "Krimi"]` cleans to `["Krimi"]` |
| `BookMetadata.TitleAndSubtitle` | src/provider.js:93-155 | the settled title and subtitle. With a series: the cut and a second table run, and the subtitle `"<name>, <order>"`. Otherwise the colon split when there is a colon, else a `null` subtitle. Title and subtitle are trimmed at the end |
| `BookMetadata.SettledTitleIsPiece` | src/provider.js:93-155 | the settled title is trimmed and is a contiguous piece of the book's name, in every branch |
| `BookMetadata.ColonSubtitle` | src/provider.js:145-155 | without a series, the subtitle is `null` exactly when the cleaned title has no colon; otherwise title and subtitle hold no colon and the subtitle is trimmed |
| `BookMetadata.ColonSubtitleFields` | src/provider.js:145-148 | a cleaned title `a:b` or `a:b:…` gives title `trim(a)` and subtitle `trim(b)` |
| `BookMetadata.SeriesSubtitle` | src/provider.js:123-125 | with a series the subtitle is the trimmed `"<name>, <order>"`, never empty, whatever the title |
| `BookMetadata.SettleTitle` | src/provider.js:93-155 | the title reassignments compute the title and subtitle of the specification, and the title ends trimmed |
| `BookMetadata.AssignEdition` | src/provider.js:178-192 | the assignments from an audio edition write duration, narrator and four more keys; from an e-book only the four |
| `BookMetadata.DropUndefined` | src/provider.js:195-197 | the delete loop leaves exactly the keys whose value is not `undefined`, with their values |
| `BookMetadata.Format` | src/provider.js:70-199 | `null` without a book or an edition, a TypeError without a title, otherwise the record of the settled fields and the chosen edition, cleaned |
| `BookMetadata.FormatBookMetadata` | src/provider.js:70-199 | the method computes `Format`: `null`, a TypeError, or the cleaned record |
| `BookMetadata.DefinedAt` | src/provider.js:195-197 | after the clean-up a key keeps its defined value, or is gone when it was `undefined` |
| `BookMetadata.RecordAt` | src/provider.js:166-197 | every key of the record holds the value written last, or is absent when that was `undefined` |
| `BookMetadata.RecordHasNoUndefined` | src/provider.js:195-197 | no key of the record maps to `undefined` |
| `BookMetadata.FormatOutcome` | src/provider.js:71-78 | `null` exactly when the book or both editions are missing; a TypeError exactly when they are present but the title is not |
| `BookMetadata.AudioTakesPrecedence` | src/provider.js:178-192 | with an audio edition, the e-book edition does not affect the result |
| `BookMetadata.RecordTitle` | src/provider.js:167-168 | the record holds the settled title, and the subtitle unless it is `undefined` |
| `BookMetadata.RecordAuthor` | src/provider.js:169 | the author is always present as a string; `''` is kept |
| `BookMetadata.RecordSeries` | src/provider.js:81-89 | with a series and a truthy order, the series is one entry of trimmed name and order; otherwise `null` is kept |
| `BookMetadata.RecordLanguage` | src/provider.js:170 | the language falls back to `"de"` when the ISO value is falsy |
| `BookMetadata.BookGenresPresent` | src/provider.js:158-160 | a book has genres exactly when it has a category, split from its trimmed title |
| `BookMetadata.RecordLists` | src/provider.js:171-172 | genres and tags are present exactly when they are defined in the literal |
| `BookMetadata.RecordGenresAndTags` | src/provider.js:158-173 | genres and tags are present together, exactly with a category, and hold the same list |
| `BookMetadata.RecordCover` | src/provider.js:174 | the cover is present exactly for a non-empty cover path, as its upgraded URL |
| `BookMetadata.RecordEditionFields` | src/provider.js:181-191 | description, publisher and ISBN come from the chosen edition, as strings |
| `BookMetadata.RecordDuration` | src/provider.js:179 | the duration is present exactly for an audio edition with a non-zero length, as whole minutes rounded down |
| `BookMetadata.RecordNarrator` | src/provider.js:180 | the narrator is present exactly for an audio edition with a non-empty narrator |
| `BookMetadata.Minutes` | src/provider.js:179 | `Math.floor(length / 60000)` for a non-zero length, otherwise `undefined` |
| `BookMetadata.DurationExample` | src/provider.js:179 | 5 430 000 ms is reported as 90 minutes |
| `BookMetadata.Year` | src/provider.js:183 | `substring(0, 4)` of a release date, `undefined` without one |
| `BookMetadata.RecordPublishedYear` | src/provider.js:183 | the year is present exactly with a release date, and is its first four characters or all of a shorter one |
| `ResultCache.ExpiryAt` | src/provider.js:4-6 | an entry stored with a non-zero ttl expires after the time it was stored; a zero ttl never expires |
| `ResultCache.AfterGet` | src/provider.js:214 | `get` deletes the key's entry when it has expired, and nothing else |
| `ResultCache.Cache.constructor` | src/provider.js:4-6 | a new cache is empty with the given ttl |
| `ResultCache.Cache.Get` | src/provider.js:214 | `get` answers as `Answer` and leaves the entries as `AfterGet` |
| `ResultCache.Cache.Set` | src/provider.js:252 | `set` replaces the key's entry with one that expires after the ttl, and leaves the rest |
| `ResultCache.StoredValueLivesForTtl` | src/provider.js:4-6 | a stored value is returned up to the ttl after storing, and not after |
| `ResultCache.OtherKeysUnaffected` | src/provider.js:214 | storing or getting one key leaves every other key's answer alone |
| `ResultCache.GetKeepsAnswer` | src/provider.js:214 | a `get` does not change what any `get` at the same time answers |
| `ResultCache.StandardTtlIsTenMinutes` | src/provider.js:5 | the standard ttl keeps results for 600 000 ms |
| `Search.CleanQuery` | src/provider.js:204 | the trimmed text of the query up to its first colon, or all of it when it has none; the result holds no colon and no surrounding space |
| `Search.PlusSpaces` | src/provider.js:206 | after `replace(/\s+/g, '+')` there is no white space, and every character is `+` or one of the input |
| `Search.NormalizeQuery` | src/provider.js:204-206 | the formatted query holds neither a colon nor white space |
| `Search.PlusSpacesKeepsWords` | src/provider.js:206 | a query without white space is left as it is |
| `Search.PlusSpacesJoins` | src/provider.js:206 | a whole run of white space between words becomes a single `+` |
| `Search.CacheKey` | src/provider.js:209 | the key `<query>-<author>-<locale>` |
| `Search.CacheKeyCollision` | src/provider.js:209 | the key is not injective: `a`/`b-c` and `a-b`/`c` share a key |
| `Search.CacheKeyDistinguishes` | src/provider.js:209 | with dash-free authors and locales, equal keys mean equal query, author and locale |
| `Search.Resolve` | src/provider.js:241-245 | the `books.map` callback: `null` without a book or a truthy id, `null` without details, otherwise `formatBookMetadata` of the details |
| `Search.KeptMatches` | src/provider.js:248 | dropping the `null`s never lengthens the list |
| `Search.KeptMatchesAppend` | src/provider.js:248 | the filter keeps order: the records of `a + b` are those of `a`, then those of `b` |
| `Search.KeptMatchesMembers` | src/provider.js:248 | a record is kept exactly when some candidate produced it |
| `Search.KeptMatchesAll` | src/provider.js:240-248 | no cap: when every candidate gives a record, all are returned, in order |
| `Search.Fresh` | src/provider.js:224-257 | the result of a search that missed the cache: `{matches: []}` for a raised request, no books or a raised candidate, each unstored; otherwise the records, to be stored |
| `Search.FreshStoredExactly` | src/provider.js:232-257 | a result is stored exactly when the search answered with books and nothing raised; every other path gives `{matches: []}` |
| `Search.FreshMatchesAreCandidates` | src/provider.js:240-252 | a stored result holds exactly the records some candidate resolved to |
| `Search.StorytelProvider.constructor` | src/provider.js:9-13 | the provider starts with its locale and an empty cache with the standard ttl |
| `Search.StorytelProvider.ResolveCandidate` | src/provider.js:241-245 | `null` without a book id or details, otherwise the formatted details |
| `Search.StorytelProvider.ResolveAll` | src/provider.js:240-244 | the mapped candidates yield, in search order, exactly the outcome of formatting each candidate's details |
| `Search.StorytelProvider.SearchFresh` | src/provider.js:219-257 | the `try` block after a cache miss gives exactly the fresh result of `Search.Fresh`, and whether it is to be stored |
| `Search.StorytelProvider.SearchBooks` | src/provider.js:202-258 | a result cached and live when the call starts is returned without searching. Otherwise the fresh result is returned. It is cached, expiring ten minutes after the requests finish, exactly when the search answered with books and nothing raised |
| `Search.StoredResultServed` | src/provider.js:214-216 | a stored result is served for ten minutes from the time it was stored to any search with the same key |

## Left out

- Network I/O: the two `axios.get` calls and `getBookDetails` are parameters. Their errors are the `SearchFailed` response and a `None` detail.
- `Promise.all` concurrency: the candidates are resolved one after another. The order of the results and the error collapse do not depend on timing.
- `console.log`/`console.error`, and reading `STORYTEL_LOCALE` from the environment: the locale is a constructor parameter.
- NodeCache internals: cloning of stored values, eviction timers, statistics and key limits. Values here are immutable, so cloning changes nothing visible.
- A general regular-expression engine. The series name is matched as a literal string in both `new RegExp` uses, so a name holding metacharacters is not modelled.
- The case-insensitive flag folds only ASCII letters and the Latin-1 letters à–þ (not ÷). Other letters such as ÿ (U+00FF) and µ (U+00B5) are not case-folded, and there is no Unicode normalisation.
- JavaScript values outside strings, integers, `null` and `undefined`:
  - a non-string title, category title or cover path;
  - a non-array `series` or `books`;
  - a `NaN` or fractional length;
  - `Number`-to-string conversion of fractions.
  In the source these raise a TypeError or convert in ways not modelled.
- `JsStrings.ToStr`: a JavaScript number is a double, but `Num` holds an integer. The model is faithful only for integers below 10^21 in magnitude that a double holds exactly. From 10^21 up `String(n)` gives exponent form, and integers above 2^53 are not all JavaScript values; neither is modelled.
- `Search.StorytelProvider.SearchBooks`: the `author = ''` default argument is not modelled. `author` is a required string, and a caller that omits it passes `""`.
- `Search.StorytelProvider.SearchBooks`: a non-string `query` makes `split` raise outside the `try`; the model takes the query as a string.
- `Search.StorytelProvider.SearchBooks`: the call runs as one step. Another search that changes the cache between this call's `get` and `set` is not modelled.
- `Search.StorytelProvider`: each provider object owns its cache, where the source has one module-level cache for all instances. With one provider per server the difference is not visible.
- `BookMetadata.Format`: genres and tags come from the corrected `Genres.SplitGenre`. A category named like an inherited `Object.prototype` member (`"toString"`, ...) gives a record here, where the code raises a TypeError at src/provider.js:163 (see "## Findings").
- `BookMetadata.FormatBookMetadata`: computes `Format`, so it has the same corrected genre lookup.
- `BookMetadata.FormatOutcome`: its TypeError case is the missing title only. The raise of the written code for an inherited category name is left to `Genres.InheritedGenreRaises`.
- `Search.Fresh`: built on `Format`, so a search whose candidate has an inherited category name keeps and stores that record. The code returns `{matches: []}` unstored.
- `BookMetadata.Minutes`: the length is an integer. Dafny's `/` by a positive divisor rounds down like `Math.floor`.

## Findings

| source | as written | input that shows it | evidently intended | confidence | as-written member | corrected member |
|---|---|---|---|---|---|---|
| src/provider.js:59-68, 163 | `splits[genre] \|\| [genre]` looks the category up on a plain object literal. Inherited `Object.prototype` members such as `toString` are truthy and win, and `[...genres]` then raises a TypeError. Inside `searchBooks` that empties the whole result. | a book whose category title is `"toString"` (or `"constructor"`, `"valueOf"`, `"__proto__"`) | only the four listed compounds are split; any other name `g` gives `[g]` | not executed | `Genres.InheritedGenreRaises` | `Genres.SplitGenre` |
