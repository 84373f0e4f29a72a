/**
 The GitHub service module: the user and repository requests, and the sorted
 list of distinct languages of a repository list.
 */
module GitHub {

  import opened Js
  import opened Strings
  import opened Decimal
  import opened Requests

  /** A repository as the repository-list endpoint returns it. `updatedAt` is
      the `updated_at` timestamp, already read as milliseconds. */
  datatype Repo = Repo(
    id: int,
    name: string,
    htmlUrl: string,
    stars: int,
    forks: int,
    watchers: int,
    language: Option<string>,
    description: Option<string>,
    updatedAt: int)

  const UsersEndpoint := "https://api.github.com/users/"
  const UserKeyPrefix := "gh:user:"
  const ReposKeyPrefix := "gh:repos:"

  /** Page size used when the caller gives none. */
  const DefaultPerPage := 12

  /** Cache key of a user profile: the raw, unencoded user name. */
  function UserKey(username: string): string {
    UserKeyPrefix + username
  }

  /** Cache key of a repository page: user name and page size, colon-separated. */
  function ReposKey(username: string, perPage: int): string {
    ReposKeyPrefix + username + ":" + IntToString(perPage)
  }

  /** `getUser`: the profile URL carries the encoded name, the cache key the raw one. */
  function GetUser(username: string, encode: string -> string): (r: CachedGet)
    ensures r.url == Literal(UsersEndpoint + encode(username))
    ensures r.cacheKey == "gh:user:" + username
  {
    CachedGet(Literal(UsersEndpoint + encode(username)), UserKey(username))
  }

  /** `getRepos`: a page of the user's repositories, most recently updated
      first; the page size defaults to 12. */
  function GetRepos(username: string, perPage: Option<int>, encode: string -> string): (r: CachedGet)
    ensures perPage.None? ==> r.cacheKey == "gh:repos:" + username + ":12"
    ensures perPage.None? ==> r.url == Literal(UsersEndpoint + encode(username) + "/repos?sort=updated&per_page=12")
    ensures perPage.Some? ==> r.cacheKey == ReposKey(username, perPage.value)
    ensures perPage.Some? ==> r.url == Literal(UsersEndpoint + encode(username)
                                               + "/repos?sort=updated&per_page=" + IntToString(perPage.value))
  {
    var n := perPage.GetOr(DefaultPerPage);
    assert IntToString(DefaultPerPage) == "12" by {
      assert NatToString(12) == NatToString(1) + [DigitChar(2)];
    }
    var head := UsersEndpoint + encode(username);
    assert head + "/repos?sort=updated&per_page=" + "12" == head + "/repos?sort=updated&per_page=12";
    assert ":" + "12" == ":12";
    CachedGet(
      Literal(UsersEndpoint + encode(username) + "/repos?sort=updated&per_page=" + IntToString(n)),
      ReposKey(username, n))
  }

  /** Different user names never share a profile cache slot. */
  lemma UserKeyInjective(a: string, b: string)
    requires UserKey(a) == UserKey(b)
    ensures a == b
  {
    assert a == UserKey(a)[|UserKeyPrefix|..];
  }

  /** Different (user, page size) pairs never share a repository cache slot,
      even for user names that contain a colon. */
  lemma ReposKeyInjective(u1: string, n1: int, u2: string, n2: int)
    requires ReposKey(u1, n1) == ReposKey(u2, n2)
    ensures u1 == u2 && n1 == n2
  {
    var k1 := ReposKey(u1, n1);
    var p := |ReposKeyPrefix|;
    assert k1[p..] == u1 + [':'] + IntToString(n1);
    assert ReposKey(u2, n2)[p..] == u2 + [':'] + IntToString(n2);
    SplitAtLastUnique(u1, IntToString(n1), u2, IntToString(n2), ':');
    IntToStringInjective(n1, n2);
  }

  /** A profile key and a repository key are never equal. */
  lemma UserAndReposKeysDisjoint(a: string, b: string, n: int)
    ensures UserKey(a) != ReposKey(b, n)
  {
    assert UserKey(a)[3] == 'u';
    assert ReposKey(b, n)[3] == 'r';
  }

  /** Repository `r` names language `l`: its language is set and non-empty. */
  predicate HasLanguage(r: Repo, l: string) {
    r.language == Some(l) && l != ""
  }

  /** No element occurs twice. */
  predicate NoDuplicates(xs: seq<string>) {
    forall i, j :: 0 <= i < j < |xs| ==> xs[i] != xs[j]
  }

  /** Non-decreasing in the string order. */
  predicate Ascending(xs: seq<string>) {
    forall i, j :: 0 <= i < j < |xs| ==> StrLe(xs[i], xs[j])
  }

  /** Increasing in the string order, which also rules out duplicates. */
  predicate StrictlyAscending(xs: seq<string>) {
    forall i, j :: 0 <= i < j < |xs| ==> StrLt(xs[i], xs[j])
  }

  /** The contents of the `Set` that `collectLanguages` fills, in its insertion
      order: each truthy language, the first time it is seen. */
  function LanguagesSeen(repos: seq<Repo>): (s: seq<string>)
    ensures NoDuplicates(s)
    ensures |s| <= |repos|
    ensures forall l :: l in s <==> exists k :: 0 <= k < |repos| && HasLanguage(repos[k], l)
  {
    if |repos| == 0 then []
    else
      var init := repos[..|repos| - 1];
      var s := LanguagesSeen(init);
      var r := repos[|repos| - 1];
      assert forall k :: 0 <= k < |init| ==> repos[k] == init[k];
      if Truthy(r.language) && r.language.value !in s then s + [r.language.value] else s
  }

  /** Inserts `x` into an ascending list before the first element not below it. */
  function InsertAscending(x: string, xs: seq<string>): (r: seq<string>)
    ensures multiset(r) == multiset(xs) + multiset{x}
  {
    if |xs| == 0 then [x]
    else if StrLe(x, xs[0]) then [x] + xs
    else
      assert xs == [xs[0]] + xs[1..];
      [xs[0]] + InsertAscending(x, xs[1..])
  }

  /** Insertion sort by the string order, standing for `sort` with `localeCompare`. */
  function SortAscending(xs: seq<string>): (r: seq<string>)
    ensures multiset(r) == multiset(xs)
  {
    if |xs| == 0 then []
    else
      assert xs == [xs[0]] + xs[1..];
      InsertAscending(xs[0], SortAscending(xs[1..]))
  }

  lemma {:induction false} InsertAscendingSorted(x: string, xs: seq<string>)
    requires Ascending(xs)
    ensures Ascending(InsertAscending(x, xs))
  {
    if |xs| > 0 && !StrLe(x, xs[0]) {
      InsertAscendingSorted(x, xs[1..]);
      var t := InsertAscending(x, xs[1..]);
      StrLeTotal(x, xs[0]);
      forall j | 0 <= j < |t|
        ensures StrLe(xs[0], t[j])
      {
        assert t[j] in multiset(t);
        if t[j] != x {
          assert t[j] in xs[1..];
        }
      }
    } else if |xs| > 0 {
      forall j | 0 < j < |xs|
        ensures StrLe(x, xs[j])
      {
        StrLeTransitive(x, xs[0], xs[j]);
      }
    }
  }

  lemma {:induction false} SortAscendingSorted(xs: seq<string>)
    ensures Ascending(SortAscending(xs))
  {
    if |xs| > 0 {
      SortAscendingSorted(xs[1..]);
      InsertAscendingSorted(xs[0], SortAscending(xs[1..]));
    }
  }

  /** An ascending list without duplicates is strictly ascending. */
  lemma AscendingDistinctIsStrict(xs: seq<string>)
    requires Ascending(xs) && NoDuplicates(xs)
    ensures StrictlyAscending(xs)
  {
  }

  /** A sequence with the multiset of a duplicate-free one has no duplicates either. */
  lemma {:induction false} PermutationKeepsNoDuplicates(xs: seq<string>, ys: seq<string>)
    requires NoDuplicates(xs) && multiset(xs) == multiset(ys)
    ensures NoDuplicates(ys)
  {
    forall x | x in multiset(xs)
      ensures multiset(xs)[x] == 1
    {
      DistinctCountOne(xs, x);
    }
    forall i, j | 0 <= i < j < |ys|
      ensures ys[i] != ys[j]
    {
      if ys[i] == ys[j] {
        TwoPositionsCountTwo(ys, i, j);
        assert false;
      }
    }
  }

  lemma {:induction false} DistinctCountOne(xs: seq<string>, x: string)
    requires NoDuplicates(xs) && x in xs
    ensures multiset(xs)[x] == 1
  {
    if xs[0] == x {
      assert x !in xs[1..];
      assert xs == [xs[0]] + xs[1..];
    } else {
      DistinctCountOne(xs[1..], x);
      assert xs == [xs[0]] + xs[1..];
    }
  }

  lemma {:induction false} TwoPositionsCountTwo(ys: seq<string>, i: int, j: int)
    requires 0 <= i < j < |ys| && ys[i] == ys[j]
    ensures multiset(ys)[ys[i]] >= 2
  {
    assert ys == ys[..j] + [ys[j]] + ys[j + 1..];
    assert ys[i] in ys[..j];
  }

  /** `collectLanguages`: the distinct non-empty languages of the repositories,
      in ascending order. Every language listed is some repository's language,
      every repository's non-empty language is listed, and no language twice. */
  function CollectLanguages(repos: seq<Repo>): (r: seq<string>)
    ensures StrictlyAscending(r)
    ensures forall l :: l in r <==> exists k :: 0 <= k < |repos| && HasLanguage(repos[k], l)
    ensures |r| <= |repos|
  {
    var seen := LanguagesSeen(repos);
    var r := SortAscending(seen);
    SortAscendingSorted(seen);
    PermutationKeepsNoDuplicates(seen, r);
    AscendingDistinctIsStrict(r);
    assert |r| == |multiset(r)| == |seen|;
    assert forall l :: l in r <==> l in multiset(r);
    assert forall l :: l in seen <==> l in multiset(seen);
    r
  }

  lemma FirstIsLeast(xs: seq<string>, x: string)
    requires StrictlyAscending(xs) && x in xs
    ensures StrLe(xs[0], x)
  {
    var i :| 0 <= i < |xs| && xs[i] == x;
    if i == 0 {
      StrLeReflexive(x);
    }
  }

  lemma TailExcludesHead(xs: seq<string>, x: string)
    requires StrictlyAscending(xs) && |xs| > 0 && x in xs[1..]
    ensures x in xs && x != xs[0]
  {
    var k :| 0 <= k < |xs[1..]| && xs[1..][k] == x;
    assert xs[k + 1] == x;
  }

  /** Two strictly ascending lists with the same elements are the same list. */
  lemma {:induction false} StrictlyAscendingUnique(xs: seq<string>, ys: seq<string>)
    requires StrictlyAscending(xs) && StrictlyAscending(ys)
    requires forall l :: l in xs <==> l in ys
    ensures xs == ys
  {
    if |xs| > 0 {
      assert xs[0] in xs;
    }
    if |ys| > 0 {
      assert ys[0] in ys;
    }
    if |xs| > 0 && |ys| > 0 {
      FirstIsLeast(xs, ys[0]);
      FirstIsLeast(ys, xs[0]);
      StrLeAntisymmetric(xs[0], ys[0]);
      forall l
        ensures l in xs[1..] <==> l in ys[1..]
      {
        if l in xs[1..] {
          TailExcludesHead(xs, l);
        }
        if l in ys[1..] {
          TailExcludesHead(ys, l);
        }
      }
      StrictlyAscendingUnique(xs[1..], ys[1..]);
      assert xs == [xs[0]] + xs[1..];
      assert ys == [ys[0]] + ys[1..];
    }
  }

  /** The language list is determined by the set of languages alone: it is the
      only strictly ascending list of exactly the repositories' languages, so
      any sort by the same order yields it and reordering the repositories
      does not change it. */
  lemma CollectLanguagesUnique(repos: seq<Repo>, s: seq<string>)
    requires StrictlyAscending(s)
    requires forall l :: l in s <==> exists k :: 0 <= k < |repos| && HasLanguage(repos[k], l)
    ensures s == CollectLanguages(repos)
  {
    StrictlyAscendingUnique(s, CollectLanguages(repos));
  }
}
