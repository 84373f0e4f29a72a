/**
 The news service module: the Hacker News search request built from a
 keyword, an ordering and an optional date range, and the mapping of the
 search hits to articles. The network call and its status check are not
 part of this model; the decoded response body is an input.
 */
module News {

  import opened Js
  import opened Strings
  import opened Decimal
  import opened Requests
  import opened Markup

  const SearchByDateEndpoint := "https://hn.algolia.com/api/v1/search_by_date"
  const SearchEndpoint := "https://hn.algolia.com/api/v1/search"
  const DefaultKeyword := "technology"
  const DefaultSortBy := "publishedAt"
  const GePrefix := "created_at_i>="
  const LePrefix := "created_at_i<="
  const NoTitle := "(no title)"
  const ItemUrlPrefix := "https://news.ycombinator.com/item?id="
  const SourceName := "Hacker News"

  /** `toUnix`: a `YYYY-MM-DD` date to whole seconds since the epoch. A
      missing or empty date gives nothing; otherwise the date is read by
      `dateParse` (milliseconds, nothing for an unreadable date) and the
      milliseconds are floored to seconds. */
  function ToUnix(d: Option<string>, dateParse: string -> Option<int>): (r: Option<int>)
    ensures !Truthy(d) ==> r.None?
    ensures Truthy(d) ==> (r.Some? <==> dateParse(d.value).Some?)
    ensures r.Some? ==> r.value * 1000 <= dateParse(d.value).value < r.value * 1000 + 1000
  {
    if !Truthy(d) then None
    else match dateParse(d.value)
      case None => None
      case Some(t) => Some(t / 1000)
  }

  /** The search endpoint: newest first for `publishedAt`, relevance otherwise. */
  function Endpoint(sortBy: string): (r: string)
    ensures r == SearchByDateEndpoint <==> sortBy == DefaultSortBy
    ensures r == SearchEndpoint <==> sortBy != DefaultSortBy
  {
    if sortBy == DefaultSortBy then SearchByDateEndpoint else SearchEndpoint
  }

  /** A bound as the code keeps it: only a truthy (present, non-zero) number. */
  function Kept(n: Option<int>): Option<int> {
    if TruthyNumber(n) then n else None
  }

  /** The `numericFilters` value for the creation-time bounds, if any: the
      lower bound first, then the upper bound, joined by a comma. A bound of
      zero counts as absent, as it is falsy. */
  function NumericFilters(gte: Option<int>, lte: Option<int>): (r: Option<string>)
    ensures r.Some? <==> TruthyNumber(gte) || TruthyNumber(lte)
  {
    if TruthyNumber(gte) || TruthyNumber(lte) then
      var parts :=
        (if TruthyNumber(gte) then [GePrefix + IntToString(gte.value)] else [])
        + (if TruthyNumber(lte) then [LePrefix + IntToString(lte.value)] else []);
      var filters := Join(parts, ",");
      if filters != "" then Some(filters) else None
    else None
  }

  /** The two creation-time bounds a filter string asks for. */
  datatype Bounds = Bounds(gte: Option<int>, lte: Option<int>)

  /** Reads one comparison `created_at_i>=n` or `created_at_i<=n`. */
  function ParseComparison(c: string): Option<Bounds> {
    if |c| >= |GePrefix| && c[..|GePrefix|] == GePrefix then
      match ParseInt(c[|GePrefix|..])
      case Some(n) => Some(Bounds(Some(n), None))
      case None => None
    else if |c| >= |LePrefix| && c[..|LePrefix|] == LePrefix then
      match ParseInt(c[|LePrefix|..])
      case Some(n) => Some(Bounds(None, Some(n)))
      case None => None
    else None
  }

  /** This model's reader of the strings `NumericFilters` writes: one
      comparison, or a lower bound and an upper bound separated by a comma.
      It is the partner of the writer, not the search service's own parser. */
  function ParseFilters(s: string): Option<Bounds> {
    match IndexOf(s, ',')
    case None => ParseComparison(s)
    case Some(k) =>
      match (ParseComparison(s[..k]), ParseComparison(s[k + 1..]))
      case (Some(Bounds(Some(g), None)), Some(Bounds(None, Some(l)))) => Some(Bounds(Some(g), Some(l)))
      case _ => None
  }

  lemma ParseComparisonGe(n: int)
    ensures ParseComparison(GePrefix + IntToString(n)) == Some(Bounds(Some(n), None))
  {
    var c := GePrefix + IntToString(n);
    assert c[..|GePrefix|] == GePrefix;
    assert c[|GePrefix|..] == IntToString(n);
    IntToStringRoundTrip(n);
  }

  lemma ParseComparisonLe(n: int)
    ensures ParseComparison(LePrefix + IntToString(n)) == Some(Bounds(None, Some(n)))
  {
    var c := LePrefix + IntToString(n);
    assert c[..|GePrefix|] != GePrefix by {
      assert c[12] == '<' && GePrefix[12] == '>';
    }
    assert c[..|LePrefix|] == LePrefix;
    assert c[|LePrefix|..] == IntToString(n);
    IntToStringRoundTrip(n);
  }

  /** The filter string says exactly which bounds were kept: reading it back
      gives each truthy bound and no other. */
  lemma NumericFiltersRoundTrip(gte: Option<int>, lte: Option<int>)
    requires TruthyNumber(gte) || TruthyNumber(lte)
    ensures ParseFilters(NumericFilters(gte, lte).value) == Some(Bounds(Kept(gte), Kept(lte)))
  {
    var s := NumericFilters(gte, lte).value;
    if TruthyNumber(gte) && TruthyNumber(lte) {
      var a := GePrefix + IntToString(gte.value);
      var b := LePrefix + IntToString(lte.value);
      assert s == a + "," + b;
      assert ',' !in a;
      IndexOfAfterFreePrefix(a, ',', b);
      assert s[..|a|] == a;
      assert s[|a| + 1..] == b;
      ParseComparisonGe(gte.value);
      ParseComparisonLe(lte.value);
    } else if TruthyNumber(gte) {
      assert ',' !in s;
      ParseComparisonGe(gte.value);
    } else {
      assert ',' !in s;
      ParseComparisonLe(lte.value);
    }
  }

  /** The query string of the search: the keyword (or `technology` for an
      empty one), stories only, 20 hits per page, then the creation-time
      filter when there is one. */
  function SearchParams(q: string, filters: Option<string>): (r: seq<Param>)
    ensures Lookup(r, "query") == Some(if q == "" then DefaultKeyword else q)
    ensures Lookup(r, "tags") == Some("story")
    ensures Lookup(r, "hitsPerPage") == Some("20")
    ensures Lookup(r, "numericFilters") == filters
  {
    var fixed := [
      Param("query", if q != "" then q else DefaultKeyword),
      Param("tags", "story"),
      Param("hitsPerPage", "20")
    ];
    var r := if filters.Some? then fixed + [Param("numericFilters", filters.value)] else fixed;
    LookupFirst(r, 0, "query");
    LookupFirst(r, 1, "tags");
    LookupFirst(r, 2, "hitsPerPage");
    NumericFiltersLookup(r, filters);
    r
  }

  lemma NumericFiltersLookup(r: seq<Param>, filters: Option<string>)
    requires |r| == if filters.Some? then 4 else 3
    requires forall i :: 0 <= i < 3 ==> r[i].name != "numericFilters"
    requires filters.Some? ==> r[3] == Param("numericFilters", filters.value)
    ensures Lookup(r, "numericFilters") == filters
  {
    if filters.Some? {
      LookupFirst(r, 3, "numericFilters");
    } else {
      LookupAbsent(r, "numericFilters");
    }
  }

  /** `getHeadlines`' request: the endpoint by ordering (`publishedAt` when
      none is given), and the query string with the creation-time filter of
      the kept date bounds. The unused language argument of JavaScript's
      `getHeadlines` signature is left out. */
  function HeadlinesUrl(q: string, sortBy: Option<string>, from: Option<string>, to: Option<string>,
                        dateParse: string -> Option<int>): (r: Url)
    ensures r.WithParams?
    ensures r.base == SearchByDateEndpoint <==> sortBy.GetOr(DefaultSortBy) == DefaultSortBy
    ensures r.params == SearchParams(q, NumericFilters(ToUnix(from, dateParse), ToUnix(to, dateParse)))
  {
    var gte := ToUnix(from, dateParse);
    var lte := ToUnix(to, dateParse);
    WithParams(Endpoint(sortBy.GetOr(DefaultSortBy)), SearchParams(q, NumericFilters(gte, lte)))
  }

  /** The date-range filter of the request is present exactly when a date
      bound is kept, and reading it back gives the kept bounds. */
  lemma HeadlinesUrlFilter(q: string, sortBy: Option<string>, from: Option<string>, to: Option<string>,
                           dateParse: string -> Option<int>)
    ensures
      var r := HeadlinesUrl(q, sortBy, from, to, dateParse);
      var gte := ToUnix(from, dateParse);
      var lte := ToUnix(to, dateParse);
      && (Lookup(r.params, "numericFilters").Some? <==> TruthyNumber(gte) || TruthyNumber(lte))
      && (Lookup(r.params, "numericFilters").Some? ==>
            ParseFilters(Lookup(r.params, "numericFilters").value) == Some(Bounds(Kept(gte), Kept(lte))))
  {
    var gte := ToUnix(from, dateParse);
    var lte := ToUnix(to, dateParse);
    if TruthyNumber(gte) || TruthyNumber(lte) {
      NumericFiltersRoundTrip(gte, lte);
    }
  }

  /** One search hit. `highlightedTitle` is `_highlightResult.title.value`. */
  datatype Hit = Hit(
    title: Option<string>,
    storyTitle: Option<string>,
    url: Option<string>,
    storyUrl: Option<string>,
    objectId: Option<string>,
    highlightedTitle: Option<string>,
    createdAt: Option<string>)

  /** An article as the news panel shows it. */
  datatype Article = Article(
    title: string,
    description: string,
    url: string,
    sourceName: string,
    publishedAt: Option<string>)

  /** The decoded response body: the hits and the total hit count, either may be missing. */
  datatype SearchResponse = SearchResponse(hits: Option<seq<Hit>>, nbHits: Option<int>)

  /** What `getHeadlines` returns. */
  datatype Headlines = Headlines(totalResults: int, articles: seq<Article>)

  /** The first truthy candidate, else the fallback: `a || b || fallback`. */
  function FirstTruthy(a: Option<string>, b: Option<string>, fallback: string): string {
    OrElse(a, OrElse(b, fallback))
  }

  /** The highlighted title with every tag removed, empty when there is none. */
  function Description(highlighted: Option<string>): (d: string)
    ensures TagFree(d)
    ensures highlighted.None? ==> d == ""
    ensures highlighted.Some? && TagFree(highlighted.value) ==> d == highlighted.value
    ensures highlighted.Some? ==> d == StripTags(highlighted.value)
  {
    StripTagsFacts(highlighted.GetOr(""));
    match highlighted
    case None => ""
    case Some(v) => StripTags(v)
  }

  /** The mapping of one hit to an article. The title is the hit's title,
      else the story title, else `(no title)`, so it is never empty; the
      description is the highlighted title with its tags removed (empty when
      there is none); the link is the hit's URL, else the story URL, else the
      discussion page of the item, whose id a missing `objectID` prints as
      `undefined`. */
  function ToArticle(h: Hit): (a: Article)
    ensures a.title != ""
    ensures a.title == h.title.GetOr("") || a.title == h.storyTitle.GetOr("") || a.title == NoTitle
    ensures Truthy(h.title) ==> a.title == h.title.value
    ensures !Truthy(h.title) && Truthy(h.storyTitle) ==> a.title == h.storyTitle.value
    ensures TagFree(a.description)
    ensures h.highlightedTitle.None? ==> a.description == ""
    ensures h.highlightedTitle.Some? && TagFree(h.highlightedTitle.value)
            ==> a.description == h.highlightedTitle.value
    ensures h.highlightedTitle.Some? ==> a.description == StripTags(h.highlightedTitle.value)
    ensures Truthy(h.url) ==> a.url == h.url.value
    ensures !Truthy(h.url) && Truthy(h.storyUrl) ==> a.url == h.storyUrl.value
    ensures !Truthy(h.url) && !Truthy(h.storyUrl)
            ==> a.url == ItemUrlPrefix + h.objectId.GetOr("undefined")
    ensures a.sourceName == SourceName
    ensures a.publishedAt == h.createdAt
  {
    var description := Description(h.highlightedTitle);
    Article(
      FirstTruthy(h.title, h.storyTitle, NoTitle),
      description,
      FirstTruthy(h.url, h.storyUrl, ItemUrlPrefix + h.objectId.GetOr("undefined")),
      SourceName,
      h.createdAt)
  }

  /** The articles of a response, one per hit and in hit order (none when the
      hits are missing), and the total: the reported hit count when present,
      else the number of articles. */
  function ToHeadlines(j: SearchResponse): (r: Headlines)
    ensures |r.articles| == |j.hits.GetOr([])|
    ensures forall i :: 0 <= i < |r.articles| ==> r.articles[i] == ToArticle(j.hits.value[i])
    ensures j.nbHits.Some? ==> r.totalResults == j.nbHits.value
    ensures j.nbHits.None? ==> r.totalResults == |r.articles|
    ensures forall a :: a in r.articles ==>
      a.title != "" && TagFree(a.description) && a.sourceName == SourceName
  {
    var hits := j.hits.GetOr([]);
    var articles := seq(|hits|, i requires 0 <= i < |hits| => ToArticle(hits[i]));
    Headlines(j.nbHits.GetOr(|articles|), articles)
  }
}
