/**
 The repository panel's derived lists: the language choices of the language
 selector and the filtered, sorted repository list it shows and exports.
 */
module RepoView {

  import opened Js
  import opened Strings
  import opened GitHub

  /** The option that turns the language filter off. */
  const AllLanguages := "all"

  /** The language selector's choices: `all`, then the collected languages. */
  function Langs(repos: Option<seq<Repo>>): (r: seq<string>)
    ensures |r| >= 1 && r[0] == AllLanguages
    ensures repos.None? ==> r == [AllLanguages]
    ensures repos.Some? ==> r[1..] == CollectLanguages(repos.value)
  {
    match repos
    case None => [AllLanguages]
    case Some(rs) => [AllLanguages] + CollectLanguages(rs)
  }

  /** The sort options of the panel; any unknown setting sorts by update time. */
  datatype SortField = ByStars | ByForks | ByUpdated

  function SortFieldOf(sort: string): SortField {
    if sort == "stars" then ByStars
    else if sort == "forks" then ByForks
    else ByUpdated
  }

  /** The number a sort option compares, larger first. */
  function Key(f: SortField, r: Repo): int {
    match f
    case ByStars => r.stars
    case ByForks => r.forks
    case ByUpdated => r.updatedAt
  }

  /** `Array.prototype.filter`: the elements that `keep` accepts, in order. */
  function Filter(xs: seq<Repo>, keep: Repo -> bool): (r: seq<Repo>)
    ensures forall x :: x in r ==> keep(x)
    ensures forall x :: multiset(r)[x] == if keep(x) then multiset(xs)[x] else 0
  {
    if |xs| == 0 then []
    else
      assert xs == [xs[0]] + xs[1..];
      if keep(xs[0]) then [xs[0]] + Filter(xs[1..], keep) else Filter(xs[1..], keep)
  }

  /** Filtering twice keeps what both tests accept. */
  lemma {:induction false} FilterFilter(xs: seq<Repo>, p: Repo -> bool, q: Repo -> bool)
    ensures Filter(Filter(xs, p), q) == Filter(xs, x => p(x) && q(x))
  {
    if |xs| > 0 {
      FilterFilter(xs[1..], p, q);
    }
  }

  /** Filtering with a test that accepts everything changes nothing. */
  lemma {:induction false} FilterAll(xs: seq<Repo>, p: Repo -> bool)
    requires forall x :: p(x)
    ensures Filter(xs, p) == xs
  {
    if |xs| > 0 {
      FilterAll(xs[1..], p);
    }
  }

  /** A repository matches a lower-cased query when its lower-cased name or
      description (a missing description reads as empty) contains it. */
  predicate MatchesQuery(r: Repo, t: string) {
    Contains(Lower(r.name), t) || Contains(Lower(r.description.GetOr("")), t)
  }

  /** The repositories the panel shows for a language and a search text: the
      language filter is off for `all`, the text filter is off for blank text. */
  predicate Selected(r: Repo, lang: string, query: string) {
    && (lang == AllLanguages || r.language == Some(lang))
    && (Trim(query) == "" || MatchesQuery(r, Lower(Trim(query))))
  }

  /** Non-increasing in the sort key. */
  predicate Descending(xs: seq<Repo>, f: SortField) {
    forall i, j :: 0 <= i < j < |xs| ==> Key(f, xs[i]) >= Key(f, xs[j])
  }

  /** The elements whose key is `k`, in order. */
  function WithKey(xs: seq<Repo>, f: SortField, k: int): seq<Repo> {
    if |xs| == 0 then []
    else if Key(f, xs[0]) == k then [xs[0]] + WithKey(xs[1..], f, k)
    else WithKey(xs[1..], f, k)
  }

  /** Inserts `x` before the first element whose key is not larger: an
      element placed this way stays ahead of the equal-keyed ones behind it. */
  function InsertDescending(x: Repo, xs: seq<Repo>, f: SortField): (r: seq<Repo>)
    ensures multiset(r) == multiset(xs) + multiset{x}
  {
    if |xs| == 0 then [x]
    else if Key(f, xs[0]) > Key(f, x) then
      assert xs == [xs[0]] + xs[1..];
      [xs[0]] + InsertDescending(x, xs[1..], f)
    else [x] + xs
  }

  /** `arr.sort((a, b) => key(b) - key(a))`, a stable sort on the key, larger first. */
  function SortDescending(xs: seq<Repo>, f: SortField): (r: seq<Repo>)
    ensures multiset(r) == multiset(xs)
  {
    if |xs| == 0 then []
    else
      assert xs == [xs[0]] + xs[1..];
      InsertDescending(xs[0], SortDescending(xs[1..], f), f)
  }

  lemma {:induction false} InsertDescendingSorted(x: Repo, xs: seq<Repo>, f: SortField)
    requires Descending(xs, f)
    ensures Descending(InsertDescending(x, xs, f), f)
  {
    if |xs| > 0 && Key(f, xs[0]) > Key(f, x) {
      InsertDescendingSorted(x, xs[1..], f);
      var t := InsertDescending(x, xs[1..], f);
      forall j | 0 <= j < |t|
        ensures Key(f, xs[0]) >= Key(f, t[j])
      {
        assert t[j] in multiset(t);
        if t[j] != x {
          assert t[j] in xs[1..];
        }
      }
    }
  }

  lemma {:induction false} SortDescendingSorted(xs: seq<Repo>, f: SortField)
    ensures Descending(SortDescending(xs, f), f)
  {
    if |xs| > 0 {
      SortDescendingSorted(xs[1..], f);
      InsertDescendingSorted(xs[0], SortDescending(xs[1..], f), f);
    }
  }

  lemma WithKeyCons(y: Repo, ys: seq<Repo>, f: SortField, k: int)
    ensures WithKey([y] + ys, f, k) == (if Key(f, y) == k then [y] else []) + WithKey(ys, f, k)
  {
    assert ([y] + ys)[0] == y;
    assert ([y] + ys)[1..] == ys;
  }

  lemma PassLarger(x: Repo, y: Repo, t: seq<Repo>, rest: seq<Repo>, f: SortField, k: int)
    requires Key(f, y) > Key(f, x)
    requires WithKey(t, f, k) == (if Key(f, x) == k then [x] else []) + WithKey(rest, f, k)
    ensures WithKey([y] + t, f, k) == (if Key(f, x) == k then [x] else []) + WithKey([y] + rest, f, k)
  {
    WithKeyCons(y, t, f, k);
    WithKeyCons(y, rest, f, k);
  }

  lemma {:induction false} InsertDescendingWithKey(x: Repo, xs: seq<Repo>, f: SortField, k: int)
    ensures WithKey(InsertDescending(x, xs, f), f, k)
            == (if Key(f, x) == k then [x] else []) + WithKey(xs, f, k)
  {
    if |xs| == 0 {
      WithKeyCons(x, [], f, k);
    } else if Key(f, xs[0]) > Key(f, x) {
      var t := InsertDescending(x, xs[1..], f);
      assert InsertDescending(x, xs, f) == [xs[0]] + t;
      InsertDescendingWithKey(x, xs[1..], f, k);
      PassLarger(x, xs[0], t, xs[1..], f, k);
      assert xs == [xs[0]] + xs[1..];
    } else {
      assert InsertDescending(x, xs, f) == [x] + xs;
      WithKeyCons(x, xs, f, k);
    }
  }

  /** The sort is stable: for every key value, the repositories with that key
      keep the order they had before sorting. */
  lemma {:induction false} SortDescendingStable(xs: seq<Repo>, f: SortField, k: int)
    ensures WithKey(SortDescending(xs, f), f, k) == WithKey(xs, f, k)
  {
    if |xs| > 0 {
      SortDescendingStable(xs[1..], f, k);
      InsertDescendingWithKey(xs[0], SortDescending(xs[1..], f), f, k);
    }
  }

  /** The panel's `filteredSorted` list: a copy of the repositories (none when
      they are not loaded), narrowed to the selected language, then to the
      search text, then sorted by the chosen field, larger first. */
  function FilteredSorted(repos: Option<seq<Repo>>, sort: string, lang: string, query: string): seq<Repo> {
    var arr := repos.GetOr([]);
    var byLang := if lang != AllLanguages then Filter(arr, (r: Repo) => r.language == Some(lang)) else arr;
    var q := Trim(query);
    var t := Lower(q);
    var byText := if q != "" then Filter(byLang, (r: Repo) => MatchesQuery(r, t)) else byLang;
    SortDescending(byText, SortFieldOf(sort))
  }

  /** What the two filters keep, as one test applied in one pass. */
  function SelectedRepos(xs: seq<Repo>, lang: string, query: string): seq<Repo> {
    Filter(xs, r => Selected(r, lang, query))
  }

  lemma FilterStagesSelect(xs: seq<Repo>, lang: string, query: string)
    ensures
      var byLang := if lang != AllLanguages then Filter(xs, (r: Repo) => r.language == Some(lang)) else xs;
      var q := Trim(query);
      var t := Lower(q);
      (if q != "" then Filter(byLang, (r: Repo) => MatchesQuery(r, t)) else byLang) == SelectedRepos(xs, lang, query)
  {
    var q := Trim(query);
    var t := Lower(q);
    var langOk := (r: Repo) => r.language == Some(lang);
    var textOk := (r: Repo) => MatchesQuery(r, t);
    if lang != AllLanguages && q != "" {
      FilterFilter(xs, langOk, textOk);
      FilterSame(xs, x => langOk(x) && textOk(x), r => Selected(r, lang, query));
    } else if lang != AllLanguages {
      FilterSame(xs, langOk, r => Selected(r, lang, query));
    } else if q != "" {
      FilterSame(xs, textOk, r => Selected(r, lang, query));
    } else {
      FilterAll(xs, r => Selected(r, lang, query));
    }
  }

  /** Filters with tests that agree on every element give the same result. */
  lemma {:induction false} FilterSame(xs: seq<Repo>, p: Repo -> bool, q: Repo -> bool)
    requires forall x :: p(x) == q(x)
    ensures Filter(xs, p) == Filter(xs, q)
  {
    if |xs| > 0 {
      FilterSame(xs[1..], p, q);
    }
  }

  /** The panel's two filter stages select what `Selected` accepts, then sort. */
  lemma FilteredSortedSortsSelection(repos: Option<seq<Repo>>, sort: string, lang: string, query: string)
    ensures FilteredSorted(repos, sort, lang, query)
            == SortDescending(SelectedRepos(repos.GetOr([]), lang, query), SortFieldOf(sort))
  {
    FilterStagesSelect(repos.GetOr([]), lang, query);
  }

  /** Each repository occurs in the shown list as often as in the input when
      it is selected, and not at all otherwise. */
  lemma FilteredSortedCounts(repos: Option<seq<Repo>>, sort: string, lang: string, query: string)
    ensures forall x :: multiset(FilteredSorted(repos, sort, lang, query))[x]
                        == if Selected(x, lang, query) then multiset(repos.GetOr([]))[x] else 0
  {
    FilteredSortedSortsSelection(repos, sort, lang, query);
  }

  /** The shown list holds exactly the selected repositories, each as often as
      in the input: nothing selected is dropped and nothing else is added.
      Without repositories the list is empty; with the `all` language and a
      blank search it is a permutation of all repositories. */
  lemma FilteredSortedContents(repos: Option<seq<Repo>>, sort: string, lang: string, query: string)
    ensures
      var r := FilteredSorted(repos, sort, lang, query);
      var xs := repos.GetOr([]);
      && (repos.None? ==> r == [])
      && (forall x :: multiset(r)[x] == if Selected(x, lang, query) then multiset(xs)[x] else 0)
      && multiset(r) <= multiset(xs)
      && (forall x :: x in r <==> x in xs && Selected(x, lang, query))
      && (lang == AllLanguages && IsBlank(query) ==> multiset(r) == multiset(xs))
  {
    var xs := repos.GetOr([]);
    var r := FilteredSorted(repos, sort, lang, query);
    FilteredSortedCounts(repos, sort, lang, query);
    assert multiset(r) <= multiset(xs) by {
      forall x
        ensures multiset(r)[x] <= multiset(xs)[x]
      {
      }
    }
    assert repos.None? ==> r == [] by {
      assert |r| == |multiset(r)|;
      assert repos.None? ==> multiset(xs) == multiset{};
    }
    forall x
      ensures x in r <==> x in xs && Selected(x, lang, query)
    {
      assert x in r <==> x in multiset(r);
      assert x in xs <==> x in multiset(xs);
    }
    TrimEmptyIffBlank(query);
    assert lang == AllLanguages && IsBlank(query) ==> forall x :: Selected(x, lang, query);
  }

  /** The shown list is sorted by the chosen field, larger first, and
      repositories with equal keys keep their input order. */
  lemma FilteredSortedOrder(repos: Option<seq<Repo>>, sort: string, lang: string, query: string)
    ensures
      var r := FilteredSorted(repos, sort, lang, query);
      var f := SortFieldOf(sort);
      && Descending(r, f)
      && (forall k :: WithKey(r, f, k) == WithKey(SelectedRepos(repos.GetOr([]), lang, query), f, k))
  {
    var sel := SelectedRepos(repos.GetOr([]), lang, query);
    var f := SortFieldOf(sort);
    FilteredSortedSortsSelection(repos, sort, lang, query);
    SortDescendingSorted(sel, f);
    forall k
      ensures WithKey(SortDescending(sel, f), f, k) == WithKey(sel, f, k)
    {
      SortDescendingStable(sel, f, k);
    }
  }

  /** When the language filter is on, every shown repository has that language. */
  lemma FilteredSortedLanguage(repos: Option<seq<Repo>>, sort: string, lang: string, query: string)
    requires lang != AllLanguages
    ensures forall x :: x in FilteredSorted(repos, sort, lang, query) ==> x.language == Some(lang)
  {
    FilteredSortedContents(repos, sort, lang, query);
  }

  /** When the search text is not blank, every shown repository's lower-cased
      name or description contains the trimmed, lower-cased text. */
  lemma FilteredSortedQuery(repos: Option<seq<Repo>>, sort: string, lang: string, query: string)
    requires !IsBlank(query)
    ensures forall x :: x in FilteredSorted(repos, sort, lang, query) ==>
      IsInfix(Lower(Trim(query)), Lower(x.name))
      || IsInfix(Lower(Trim(query)), Lower(x.description.GetOr("")))
  {
    FilteredSortedContents(repos, sort, lang, query);
    TrimEmptyIffBlank(query);
    forall x | x in FilteredSorted(repos, sort, lang, query)
      ensures IsInfix(Lower(Trim(query)), Lower(x.name))
              || IsInfix(Lower(Trim(query)), Lower(x.description.GetOr("")))
    {
      ContainsIffInfix(Lower(x.name), Lower(Trim(query)));
      ContainsIffInfix(Lower(x.description.GetOr("")), Lower(Trim(query)));
    }
  }
}
