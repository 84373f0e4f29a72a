/**
 The shape of a request as the service modules hand it on. The shared
 fetch-and-cache helper that performs it is not part of this model; a request
 here is only the data passed to it: the URL and the cache key.
 */
module Requests {

  import opened Js

  /** One `name=value` pair of a query string, before percent-encoding. */
  datatype Param = Param(name: string, value: string)

  /** A URL either written out as a template literal (with any user text
      already passed through `encodeURIComponent`), or a base plus the pairs of
      a `URLSearchParams`, whose serialisation is left opaque. */
  datatype Url =
    | Literal(text: string)
    | WithParams(base: string, params: seq<Param>)

  /** A call of the fetch-and-cache helper: where to fetch, and under which key to cache. */
  datatype CachedGet = CachedGet(url: Url, cacheKey: string)

  /** `params.get(name)`: the value of the first pair with that name. */
  function Lookup(params: seq<Param>, name: string): (r: Option<string>)
    ensures r.Some? <==> exists k :: 0 <= k < |params| && params[k].name == name
    ensures r.Some? ==> exists k :: 0 <= k < |params| && params[k] == Param(name, r.value)
  {
    if |params| == 0 then None
    else if params[0].name == name then Some(params[0].value)
    else
      var r := Lookup(params[1..], name);
      assert forall k :: 1 <= k < |params| ==> params[k] == params[1..][k - 1];
      r
  }

  /** The first pair with a name decides its lookup. */
  lemma {:induction false} LookupFirst(params: seq<Param>, k: nat, name: string)
    requires k < |params| && params[k].name == name
    requires forall i :: 0 <= i < k ==> params[i].name != name
    ensures Lookup(params, name) == Some(params[k].value)
  {
    if k > 0 {
      LookupFirst(params[1..], k - 1, name);
    }
  }

  /** A name no pair carries is not found. */
  lemma LookupAbsent(params: seq<Param>, name: string)
    requires forall i :: 0 <= i < |params| ==> params[i].name != name
    ensures Lookup(params, name).None?
  {
  }
}
