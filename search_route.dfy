/**
 * GET /api/search: one listing of the whole bucket (at most 1000 keys),
 * filtered by a case-insensitive substring match on the key.
 */
module SearchRoute {
  import opened Wrappers
  import opened Strings
  import opened Sequences
  import opened ObjectStore

  datatype SearchResult = SearchResult(key: Key, name: string, size: nat, path: string)

  datatype SearchResponse =
    | Results(results: seq<SearchResult>, query: string)
    | QueryRequired
    | SearchFailed
  {
    function Status(): int {
      match this
      case Results(_, _) => 200
      case QueryRequired => 400
      case SearchFailed => 500
    }
  }

  /** The key's lowercase form contains the query's lowercase form. */
  predicate Matches(key: Key, query: string) {
    Contains(ToLower(key), ToLower(query))
  }

  /** The last `/`-piece of the key, or the whole key when that piece is empty. */
  function ResultName(key: Key): (r: string)
    ensures r == key || (r != "" && '/' !in r)
  {
    var last := LastSegment(key, '/');
    if last == "" then key else last
  }

  /** The key up to and including its last `/`; empty when it has none. */
  function ResultPath(key: Key): (r: string)
    ensures StartsWith(key, r) && (r == "" || r[|r| - 1] == '/')
  {
    key[..LastIndexOf(key, '/') + 1]
  }

  /** One result; a listed object without a size reports 0. */
  function ResultOf(o: ListedObject): SearchResult {
    SearchResult(o.key, ResultName(o.key), o.size.GetOr(0), ResultPath(o.key))
  }

  /** The `filter` step: the listed objects whose key matches, in listing order. */
  function Matching(cs: seq<ListedObject>, query: string): (r: seq<ListedObject>)
    ensures |r| <= |cs|
    ensures forall i :: 0 <= i < |r| ==> Matches(r[i].key, query)
  {
    if |cs| == 0 then []
    else (if Matches(cs[0].key, query) then [cs[0]] else []) + Matching(cs[1..], query)
  }

  /** The `map` step over the matching objects. */
  function SearchResults(cs: seq<ListedObject>, query: string): (r: seq<SearchResult>)
    ensures |r| <= |cs|
    ensures forall i :: 0 <= i < |r| ==> Matches(r[i].key, query) && StartsWith(r[i].key, r[i].path)
  {
    var ms := Matching(cs, query);
    seq(|ms|, i requires 0 <= i < |ms| => ResultOf(ms[i]))
  }

  /**
   * The handler.  A falsy query is a 400; otherwise the bucket is listed
   * once, without prefix or delimiter, and the matches are returned.
   */
  method Get(bucket: Bucket, query: Option<string>) returns (resp: SearchResponse, ghost page: Page)
    ensures !Truthy(query) ==> resp == QueryRequired
    ensures Truthy(query) ==>
              resp == SearchFailed ||
              (IsPage(bucket.objects, "", None, DefaultMaxKeys, page) &&
               resp == Results(SearchResults(Contents(page), query.value), query.value))
    ensures resp.Results? ==> |resp.results| <= DefaultMaxKeys
  {
    page := Page(None, None, false);
    if !Truthy(query) {
      return QueryRequired, page;
    }
    var ok, listed := bucket.List("", None, DefaultMaxKeys);
    page := listed;
    if !ok {
      return SearchFailed, page;
    }
    resp := Results(SearchResults(Contents(listed), query.value), query.value);
  }

  // ---------------------------------------------------------------------------
  // Properties
  // ---------------------------------------------------------------------------

  /** An object is a match exactly when it is listed and its key matches. */
  lemma {:induction false} MatchingMembers(cs: seq<ListedObject>, query: string)
    ensures forall o :: o in Matching(cs, query) <==> o in cs && Matches(o.key, query)
  {
    if |cs| > 0 {
      MatchingMembers(cs[1..], query);
      assert forall o :: o in cs <==> o == cs[0] || o in cs[1..];
    }
  }

  /** The matches keep the listing order. */
  lemma {:induction false} MatchingInListingOrder(cs: seq<ListedObject>, query: string)
    ensures IsSubsequence(Matching(cs, query), cs)
  {
    if |cs| > 0 {
      MatchingInListingOrder(cs[1..], query);
      var rest := Matching(cs[1..], query);
      if Matches(cs[0].key, query) {
        assert Matching(cs, query) == [cs[0]] + rest;
        assert Matching(cs, query)[1..] == rest;
      } else {
        assert Matching(cs, query) == rest;
      }
    }
  }

  /** Queries that are equal once lowercased give the same matches. */
  lemma {:induction false} MatchingIgnoresCase(cs: seq<ListedObject>, q1: string, q2: string)
    requires ToLower(q1) == ToLower(q2)
    ensures Matching(cs, q1) == Matching(cs, q2)
  {
    if |cs| > 0 {
      MatchingIgnoresCase(cs[1..], q1, q2);
    }
  }

  /** Letter case in the query does not matter: a query and its lowercase form agree. */
  lemma CaseInsensitiveSearch(cs: seq<ListedObject>, query: string)
    ensures SearchResults(cs, query) == SearchResults(cs, ToLower(query))
  {
    ToLowerIdempotent(query);
    MatchingIgnoresCase(cs, query, ToLower(query));
  }

  /** Folder markers are not filtered out: a matching marker key is a result. */
  lemma MarkerKeysAreResults(cs: seq<ListedObject>, query: string, o: ListedObject)
    requires o in cs && EndsWith(o.key, "/") && Matches(o.key, query)
    ensures ResultOf(o) in SearchResults(cs, query)
  {
    MatchingMembers(cs, query);
    var ms := Matching(cs, query);
    var i :| 0 <= i < |ms| && ms[i] == o;
    assert SearchResults(cs, query)[i] == ResultOf(o);
  }

  /** For a key not ending in `/`, the path and the name put back together are the key. */
  lemma PathAndNameMakeKey(key: Key)
    requires !EndsWith(key, "/")
    ensures ResultPath(key) + ResultName(key) == key
    ensures '/' !in ResultName(key)
  {
    var i := LastIndexOf(key, '/');
    assert ResultPath(key) == key[..i + 1];
    assert key == key[..i + 1] + key[i + 1..];
    assert |key| > 0 ==> key[|key| - 1] != '/' by {
      assert |key| > 0 ==> key[|key| - 1..] == [key[|key| - 1]];
    }
    assert |key| > 0 ==> i + 1 < |key|;
    assert ResultName(key) == key[i + 1..];
  }

  /** A folder marker is its own name and its own path. */
  lemma MarkerNameAndPath(key: Key)
    requires EndsWith(key, "/")
    ensures ResultName(key) == key && ResultPath(key) == key
  {
    assert key[|key| - 1] == '/';
  }

  /** A missing size is reported as 0. */
  lemma MissingSizeIsZero(key: Key)
    ensures ResultOf(ListedObject(key, None)).size == 0
  {
  }
}
