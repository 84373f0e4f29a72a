# Multi-API dashboard: the pure data paths, in Dafny

The dashboard is a browser app with three panels: GitHub profiles and
repositories, Open-Meteo weather, and Hacker News headlines. Each panel calls
a small service module, which builds a request and hands it to a shared
fetch-and-cache helper, then reshapes the JSON it gets back. This project
models what those modules and panels compute once the network is taken away:

- **GitHub** (`github.dfy`, `repo_view.dfy`): the profile and repository
  requests with their cache keys; `collectLanguages`, which turns a repository
  list into the sorted list of its distinct languages; and the panel's
  language choices and its filtered, sorted repository list.
- **News** (`news.dfy`, `markup.dfy`): the Hacker News search request
  (endpoint, keyword, page size, creation-time filter built from optional
  dates) and the mapping of search hits to articles. This includes the
  regular-expression replacement that strips HTML tags from highlighted titles.
- **Weather** (`weather.dfy`): the geocoding and forecast requests with their
  cache keys and temperature unit, and the icon and description of a WMO
  weather code. Open-Meteo reports a subset of code table 4677 of the WMO
  Manual on Codes. The file also holds the panel's pairing of the daily
  forecast arrays into one entry per day.
- **Shell** (`app.dfy`): the theme toggle, and a lemma that the four kinds of
  cache key never collide in the one browser storage they share.
- Support modules: `js.dfy` holds JavaScript's absent values and truthiness.
  `strings.dfy` holds `trim`, ASCII `toLowerCase`, `includes`, `join`, and a
  code-point lexicographic order, proved to be a total order. `decimal.dfy`
  holds integer-to-text conversion and its parser. `requests.dfy` models a
  request as data: a URL plus a cache key.

A request is data: the model says which URL and cache key each service passes
on, not what happens to them afterwards. Everything is a pure function over
immutable datatypes, so the panel's copy-before-sort (`[...repos]`) has no
counterpart. The input list cannot be reordered.

## Model

| member | source | states |
|---|---|---|
| GitHub.GetUser | multi-api-dashboard/src/services/github.ts:13-15 | the profile URL carries the encoded user name; the cache key is `gh:user:` followed by the raw name |
| GitHub.GetRepos | multi-api-dashboard/src/services/github.ts:17-19 | without a page size, both the URL and the cache key use 12; with one, the URL's `per_page` and the key `gh:repos:<user>:<size>` carry its decimal text |
| GitHub.UserKeyInjective | multi-api-dashboard/src/services/github.ts:14 | different user names never share a profile cache key |
| GitHub.ReposKeyInjective | multi-api-dashboard/src/services/github.ts:18 | different (user, page size) pairs never share a repository cache key, even when the user name contains a colon |
| GitHub.UserAndReposKeysDisjoint | multi-api-dashboard/src/services/github.ts:13-18 | a profile key never equals a repository key |
| GitHub.LanguagesSeen | multi-api-dashboard/src/services/github.ts:23-24 | the Set holds each truthy language once: no duplicates, at most one per repository, and a string is in it exactly when some repository has it as a non-empty language |
| GitHub.CollectLanguages | multi-api-dashboard/src/services/github.ts:22-26 | the result is strictly ascending, so it has no duplicates; it holds exactly the non-null, non-empty languages of the repositories; it is no longer than the repository list |
| GitHub.SortAscendingSorted | multi-api-dashboard/src/services/github.ts:25 | the sort yields a list ascending in the string order |
| GitHub.CollectLanguagesUnique | multi-api-dashboard/src/services/github.ts:25 | any strictly ascending list of exactly those languages equals the result, so the result depends only on the set of languages |
| Strings.StrLeTotal | multi-api-dashboard/src/services/github.ts:25 | any two strings are comparable in the order the language list is sorted by |
| Strings.StrLeAntisymmetric | multi-api-dashboard/src/services/github.ts:25 | strings ordered both ways are equal |
| Strings.StrLeTransitive | multi-api-dashboard/src/services/github.ts:25 | the sort order is transitive |
| RepoView.Langs | multi-api-dashboard/src/App.tsx:63 | the language choices always start with `all`; they are exactly `['all']` before repositories load, and otherwise `all` followed by the collected languages |
| RepoView.FilterStagesSelect | multi-api-dashboard/src/App.tsx:66-71 | applying the language filter and then the text filter keeps exactly what one combined test keeps; each filter is skipped when it is off |
| RepoView.FilteredSortedContents | multi-api-dashboard/src/App.tsx:65-78 | each repository occurs in the result as often as in the input if it is selected, and not at all otherwise; the result is empty before repositories load; with `all` and a blank search it is a permutation of the input |
| RepoView.FilteredSortedOrder | multi-api-dashboard/src/App.tsx:72-76 | the result is non-increasing in stars for `stars`, in forks for `forks`, and in update time for any other setting; repositories with equal keys keep their input order |
| RepoView.FilteredSortedLanguage | multi-api-dashboard/src/App.tsx:67 | with a language other than `all`, every shown repository has exactly that language |
| RepoView.FilteredSortedQuery | multi-api-dashboard/src/App.tsx:68-71 | with a non-blank search, every shown repository's lower-cased name or description (a missing one reads as empty) contains the trimmed, lower-cased search |
| RepoView.SortDescendingStable | multi-api-dashboard/src/App.tsx:73-75 | for every key value, the sort keeps the input order of the repositories with that key |
| RepoView.SortDescendingSorted | multi-api-dashboard/src/App.tsx:73-75 | the sort yields a list non-increasing in the chosen key |
| Strings.Trim | multi-api-dashboard/src/App.tsx:68-69 | trimming cuts only whitespace, and only from the two ends; what remains neither starts nor ends with whitespace |
| Strings.TrimEmptyIffBlank | multi-api-dashboard/src/App.tsx:68 | the trimmed search is empty exactly when the search is all whitespace |
| Strings.ContainsIffInfix | multi-api-dashboard/src/App.tsx:70 | `includes` is true exactly when the text occurs as a contiguous piece |
| News.ToUnix | multi-api-dashboard/src/services/news.ts:13-17 | a missing or empty date gives no bound; an unreadable date gives none; otherwise the bound is the millisecond time floored to whole seconds |
| News.Endpoint | multi-api-dashboard/src/services/news.ts:33-36 | the request goes to `search_by_date` exactly when the ordering is `publishedAt`, and to `search` otherwise |
| News.SearchParams | multi-api-dashboard/src/services/news.ts:38-52 | the query is the keyword, or `technology` for an empty keyword; `tags=story` and `hitsPerPage=20` are always set; `numericFilters` is set exactly when there is a filter |
| News.NumericFilters | multi-api-dashboard/src/services/news.ts:45-53 | a filter is produced exactly when at least one bound is truthy, so a bound of 0 counts as absent |
| News.NumericFiltersRoundTrip | multi-api-dashboard/src/services/news.ts:47-52 | reading the filter string back yields the lower bound exactly when it was truthy and the upper bound exactly when it was truthy; the `>=` part comes first and the parts are joined by a comma |
| News.HeadlinesUrl | multi-api-dashboard/src/services/news.ts:25-55 | the endpoint is `search_by_date` exactly when the ordering, defaulting to `publishedAt`, is `publishedAt`; the query string is built from the keyword and the date bounds |
| News.HeadlinesUrlFilter | multi-api-dashboard/src/services/news.ts:45-53 | the request has a date filter exactly when a date bound is truthy, and the filter decodes to the truthy bounds |
| Decimal.IntToStringRoundTrip | multi-api-dashboard/src/services/news.ts:49-50 | the decimal text of an integer reads back as that integer |
| Markup.StripTags | multi-api-dashboard/src/services/news.ts:63 | the replacement never lengthens the text and keeps only characters of the input |
| Markup.StripTagsTagFree | multi-api-dashboard/src/services/news.ts:63 | after the replacement, no piece of the text matches `<[^>]+>` |
| Markup.StripTagsKeepsPlainPrefix | multi-api-dashboard/src/services/news.ts:63 | text before the first `<` is kept unchanged, and the rest is scanned on its own |
| Markup.StripTagsCutsTag | multi-api-dashboard/src/services/news.ts:63 | a tag at the front is removed whole, and the replacement continues right after it |
| Markup.StripTagsSplice | multi-api-dashboard/src/services/news.ts:63 | text without `<` in front of a tag is kept, the tag is removed, and the rest is scanned on |
| Markup.StripTagsEmphasis | multi-api-dashboard/src/services/news.ts:63 | a highlight `a<em>w</em>b` without other `<` becomes `awb`: the text survives and the emphasis tags go |
| Markup.StripTagsKeepsEmptyBrackets | multi-api-dashboard/src/services/news.ts:63 | `<>` is no tag: its `<` is kept and the replacement continues at the `>` |
| Markup.StripTagsKeepsUnclosedBracket | multi-api-dashboard/src/services/news.ts:63 | a `<` with no `>` after it is kept |
| Markup.StripTagsIdentity | multi-api-dashboard/src/services/news.ts:63 | text without tags passes through unchanged |
| Markup.StripTagsIdempotent | multi-api-dashboard/src/services/news.ts:63 | stripping twice is stripping once |
| News.Description | multi-api-dashboard/src/services/news.ts:63 | the description is the highlight with every tag removed, so it is tag-free; it is empty when there is no highlight and is the highlight itself when that has no tags |
| News.ToArticle | multi-api-dashboard/src/services/news.ts:61-67 | the title is never empty: the hit's title, else the story title, else `(no title)`; the description is the highlight with its tags removed; the link is the hit's URL, else the story URL, else the item page followed by `objectID` (`undefined` when missing); the source is always `Hacker News`; the date is passed through |
| News.ToHeadlines | multi-api-dashboard/src/services/news.ts:61-69 | one article per hit, in hit order, and none when hits are missing; every article has a title, a tag-free description and the `Hacker News` source; the total is `nbHits` when present (zero included), else the article count |
| Weather.GeocodeMany | multi-api-dashboard/src/services/weather.ts:36-39 | the search URL carries the encoded city, and the cache key is `geo5:` with the lower-cased city |
| Weather.GeoKeySharedIff | multi-api-dashboard/src/services/weather.ts:38 | two city searches share a cache key exactly when the names differ only in letter case |
| Strings.LowerEqualIff | multi-api-dashboard/src/services/weather.ts:38 | lower-casing makes two strings equal exactly when they differ only in letter case |
| Weather.TempUnit | multi-api-dashboard/src/services/weather.ts:42 | the unit asked for is `fahrenheit` exactly when the unit is `f`, and `celsius` otherwise |
| Weather.GetWeather | multi-api-dashboard/src/services/weather.ts:41-62 | the forecast asks for `fahrenheit` exactly when the unit is `f`, with the unit defaulting to `c`; the cache key ends with that unit |
| Weather.WeatherKey | multi-api-dashboard/src/services/weather.ts:61 | the forecast cache key ends with a comma followed by the unit |
| Weather.WeatherKeyUnitsNeverShared | multi-api-dashboard/src/services/weather.ts:61 | a Celsius and a Fahrenheit forecast never share a cache key, whatever their coordinates |
| Weather.CodeToIcon | multi-api-dashboard/src/services/weather.ts:65-80 | a listed code gives its entry's description and its day or night picture; an unlisted code gives the question-mark picture and `-`, by day and by night |
| Weather.CodeToIconKnownCodes | multi-api-dashboard/src/services/weather.ts:66-78 | the table lists exactly codes 0, 1, 2, 3, 45, 48, 51, 53, 55, 61, 63, 65, 71, 73, 75, 80, 81, 82, 95, 96 and 99; the description is `-` exactly for a code not listed |
| Weather.CodeToIconDayNight | multi-api-dashboard/src/services/weather.ts:67-79 | the description never depends on day or night; the picture differs between day and night exactly for codes 0, 51, 53, 61 and 80 |
| Weather.DescriptionRecoversCode | multi-api-dashboard/src/services/weather.ts:67-76 | the description names the code it came from, except that 53 reads back as 51 |
| Weather.DescriptionsDistinguishCodes | multi-api-dashboard/src/services/weather.ts:72 | two different listed codes share a description only when they are 51 and 53 |
| Weather.Days | multi-api-dashboard/src/App.tsx:211-215 | one entry per date of `daily.time`; entry i pairs date i with maximum i and minimum i, and a temperature is missing past the end of its array; there are no entries without a daily forecast |
| App.ToggleTheme | multi-api-dashboard/src/App.tsx:26 | the new theme is `dark` or `light` and always differs from the old one; it is `light` exactly when the old theme was `dark` |
| App.ToggleThemeInvolution | multi-api-dashboard/src/App.tsx:17-26 | two presses restore a stored theme, and each press flips whether the light style is applied |
| App.CacheNamespacesDisjoint | multi-api-dashboard/src/services/github.ts:13-18 | profile, repository, city-search and forecast cache keys are pairwise distinct, since each kind has its own prefix (the weather prefixes are at weather.ts lines 38 and 61) |

## Left out

- The fetch-and-cache helper (`utils/fetcher`) is not part of this model. So
  are its time-to-live cache, the `fetch` call in `getHeadlines`, and the
  `HN API <status>` error raised on a failed response. A request is modelled
  only as the URL and cache key handed on; a response is an input.
- React rendering, hooks, `useLocalStorage` persistence, `Promise.all` and the
  async sequencing of the panels are UI plumbing and are not modelled.
- The CSV export (`utils/csv`) is not part of this model.
- `encodeURIComponent` is a function parameter. `URLSearchParams`
  serialisation is left opaque: a URL is a base plus name/value pairs.
- Float formatting is not modelled: `String(lat)`, `toFixed(2)`, and the
  `split(',').map(Number)` of the city selector. Coordinates arrive as text.
- `Date.parse`, `new Date(...)` and locale date formatting are not modelled.
  Parsing is a parameter that returns milliseconds. `updated_at` is an
  integer timestamp.
- News.ToUnix: the model floors the millisecond time exactly, while JavaScript
  divides as a float first. The two agree on every value `Date.parse` can
  return, which is at most 8.64e15 ms either side of 1970. The model allows any
  integer, and does not model the bound on that range.
- GitHub.CollectLanguages: `localeCompare` is a locale's collation. It is
  modelled as lexicographic order on code points, which is a total order.
- Strings: a character is a Unicode scalar value. JavaScript strings are
  UTF-16, so lengths and order differ from JavaScript for characters outside
  the Basic Multilingual Plane.
- News.ToArticle: a `null` `objectID` prints as `null` in JavaScript. The
  model has one absent value, which prints as `undefined`.
- Strings.Lower: `toLowerCase` is modelled on ASCII letters only; other
  characters are kept.
- Decimal.IntToString: JavaScript writes integers of 10^21 and above in
  exponent form. The model always writes plain digits.
- Weather.CodeToIcon: `code` is a JavaScript number. Only integer codes are
  modelled; a fractional code would miss the table just as an unknown one does.
  The pictures and descriptions are encoding-damaged text in the source. They
  are modelled as distinct enumerated constants named after their meaning.
  Codes that Open-Meteo documents but the table lacks fall back to the
  question mark and `-`: 56, 57, 66, 67, 77, 85 and 86.
- The unused `_lang` argument of `getHeadlines` is not modelled.
- `sortBy`, `unit` and the repository sort option are typed as unions in the
  source. They are modelled as arbitrary strings and follow the code's
  comparisons.
