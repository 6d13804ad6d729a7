/**
 * The backing object store: one flat bucket mapping string keys to objects,
 * with the primitive calls the route handlers issue (PutObject, CopyObject,
 * DeleteObject, DeleteObjects and one page of ListObjectsV2).  Every call may
 * fail; a caller knows only what each call's postcondition promises.  Listing
 * order is not fixed: a page is any enumeration that satisfies `IsPage`.
 */
module ObjectStore {
  import opened Wrappers
  import opened Strings
  import opened Sequences

  type Key = string

  /** A stored object: opaque bytes and the content type they were written with. */
  datatype Obj = Obj(content: seq<bv8>, contentType: string) {
    function Size(): nat { |content| }
  }

  /** One element of a listing's `Contents`; the SDK types `Size` as optional. */
  datatype ListedObject = ListedObject(key: Key, size: Option<nat>)

  /**
   * One page of ListObjectsV2 output.  The store leaves out `Contents` and
   * `CommonPrefixes` when they are empty, so both are optional.
   */
  datatype Page = Page(contents: Option<seq<ListedObject>>, commonPrefixes: Option<seq<Key>>, truncated: bool)

  /** The page size ListObjectsV2 uses when no `MaxKeys` is given. */
  const DefaultMaxKeys: nat := 1000

  function Contents(page: Page): seq<ListedObject> {
    page.contents.GetOr([])
  }

  function CommonPrefixes(page: Page): seq<Key> {
    page.commonPrefixes.GetOr([])
  }

  function Keys(objs: seq<ListedObject>): seq<Key> {
    seq(|objs|, i requires 0 <= i < |objs| => objs[i].key)
  }

  lemma KeysSnoc(objs: seq<ListedObject>, o: ListedObject)
    ensures Keys(objs + [o]) == Keys(objs) + [o.key]
  {
  }

  /** Under `prefix`, `k` is rolled up into a common prefix when the delimiter occurs after the prefix. */
  predicate RolledUp(k: Key, prefix: Key, delimiter: Option<char>)
    requires StartsWith(k, prefix)
  {
    delimiter.Some? && delimiter.value in k[|prefix|..]
  }

  /** The common prefix `k` rolls up into: `prefix`, the next segment, and the delimiter. */
  function CommonPrefixOf(k: Key, prefix: Key, d: char): (cp: Key)
    requires StartsWith(k, prefix) && d in k[|prefix|..]
    ensures StartsWith(k, cp) && StartsWith(cp, prefix)
    ensures |cp| > |prefix| && cp[|cp| - 1] == d
    ensures d !in cp[|prefix|..|cp| - 1]
  {
    var rest := k[|prefix|..];
    var i := IndexOfChar(rest, d);
    assert k[|prefix|..|prefix| + i] == rest[..i];
    k[..|prefix| + i + 1]
  }

  /** `k` is listed as an object (not rolled up) under `prefix`. */
  ghost predicate Direct(m: map<Key, Obj>, prefix: Key, delimiter: Option<char>, k: Key) {
    k in m && StartsWith(k, prefix) && !RolledUp(k, prefix, delimiter)
  }

  /** `cp` is the common prefix of some stored key under `prefix`. */
  ghost predicate IsCommonPrefix(m: map<Key, Obj>, prefix: Key, delimiter: Option<char>, cp: Key) {
    delimiter.Some? &&
    exists k :: k in m && StartsWith(k, prefix) && RolledUp(k, prefix, delimiter) &&
                CommonPrefixOf(k, prefix, delimiter.value) == cp
  }

  /** The page holds every object and every common prefix under `prefix`. */
  ghost predicate Covers(m: map<Key, Obj>, prefix: Key, delimiter: Option<char>, page: Page) {
    && (forall k :: Direct(m, prefix, delimiter, k) ==> k in Keys(Contents(page)))
    && (forall k :: k in m && StartsWith(k, prefix) && RolledUp(k, prefix, delimiter) ==>
          CommonPrefixOf(k, prefix, delimiter.value) in CommonPrefixes(page))
  }

  /**
   * ListObjectsV2 semantics for one page: distinct objects under `prefix`
   * that the delimiter does not roll up, with their sizes; distinct common
   * prefixes; at most `maxKeys` entries in all; `truncated` exactly when
   * something was left out.
   */
  ghost predicate IsPage(m: map<Key, Obj>, prefix: Key, delimiter: Option<char>, maxKeys: nat, page: Page) {
    var cs := Contents(page);
    var cps := CommonPrefixes(page);
    && Distinct(Keys(cs))
    && Distinct(cps)
    && (forall i :: 0 <= i < |cs| ==>
          Direct(m, prefix, delimiter, cs[i].key) && cs[i].size == Some(m[cs[i].key].Size()))
    && (forall i :: 0 <= i < |cps| ==> IsCommonPrefix(m, prefix, delimiter, cps[i]))
    && |cs| + |cps| <= maxKeys
    && (page.truncated <==> !Covers(m, prefix, delimiter, page))
  }

  /**
   * The state of the listing loop in `Bucket.List`: `cs` and `cps` hold what
   * has been taken so far, `direct` and `rolled` what is still to be taken.
   */
  ghost predicate Listing(m: map<Key, Obj>, prefix: Key, delimiter: Option<char>, maxKeys: nat,
                          cs: seq<ListedObject>, cps: seq<Key>, direct: set<Key>, rolled: set<Key>) {
    && (forall k :: Direct(m, prefix, delimiter, k) ==> (k in direct <==> k !in Keys(cs)))
    && (forall k :: k in m && StartsWith(k, prefix) && RolledUp(k, prefix, delimiter) ==>
          var c := CommonPrefixOf(k, prefix, delimiter.value); (c in rolled <==> c !in cps))
    && (forall k :: k in direct ==> Direct(m, prefix, delimiter, k))
    && (forall c :: c in rolled ==> IsCommonPrefix(m, prefix, delimiter, c))
    && (forall i :: 0 <= i < |cs| ==>
          Direct(m, prefix, delimiter, cs[i].key) && cs[i].size == Some(m[cs[i].key].Size()))
    && (forall i :: 0 <= i < |cps| ==> IsCommonPrefix(m, prefix, delimiter, cps[i]))
    && Distinct(Keys(cs))
    && Distinct(cps)
    && |cs| + |cps| <= maxKeys
  }

  lemma ListingStart(m: map<Key, Obj>, prefix: Key, delimiter: Option<char>, maxKeys: nat,
                     direct: set<Key>, rolled: set<Key>)
    requires direct == set k | k in m && StartsWith(k, prefix) && !RolledUp(k, prefix, delimiter)
    requires rolled == set k | k in m && StartsWith(k, prefix) && RolledUp(k, prefix, delimiter)
                             :: CommonPrefixOf(k, prefix, delimiter.value)
    ensures Listing(m, prefix, delimiter, maxKeys, [], [], direct, rolled)
  {
  }

  lemma ListingTakeObject(m: map<Key, Obj>, prefix: Key, delimiter: Option<char>, maxKeys: nat,
                          cs: seq<ListedObject>, cps: seq<Key>, direct: set<Key>, rolled: set<Key>, k: Key)
    requires Listing(m, prefix, delimiter, maxKeys, cs, cps, direct, rolled)
    requires k in direct && |cs| + |cps| < maxKeys
    ensures Listing(m, prefix, delimiter, maxKeys, cs + [ListedObject(k, Some(m[k].Size()))], cps, direct - {k}, rolled)
  {
    var o := ListedObject(k, Some(m[k].Size()));
    KeysSnoc(cs, o);
    DistinctSnoc(Keys(cs), k);
  }

  lemma ListingTakePrefix(m: map<Key, Obj>, prefix: Key, delimiter: Option<char>, maxKeys: nat,
                          cs: seq<ListedObject>, cps: seq<Key>, direct: set<Key>, rolled: set<Key>, c: Key)
    requires Listing(m, prefix, delimiter, maxKeys, cs, cps, direct, rolled)
    requires c in rolled && |cs| + |cps| < maxKeys
    ensures Listing(m, prefix, delimiter, maxKeys, cs, cps + [c], direct, rolled - {c})
  {
    DistinctSnoc(cps, c);
  }

  /** What the listing loop of `Bucket.List` knows when it stops makes a valid page. */
  lemma ListingDone(m: map<Key, Obj>, prefix: Key, delimiter: Option<char>, maxKeys: nat,
                    cs: seq<ListedObject>, cps: seq<Key>, direct: set<Key>, rolled: set<Key>, page: Page)
    requires Listing(m, prefix, delimiter, maxKeys, cs, cps, direct, rolled)
    requires (direct == {} && rolled == {}) || |cs| + |cps| == maxKeys
    requires page == Page(if cs == [] then None else Some(cs), if cps == [] then None else Some(cps),
                          direct != {} || rolled != {})
    ensures IsPage(m, prefix, delimiter, maxKeys, page)
  {
    assert Contents(page) == cs && CommonPrefixes(page) == cps;
    if direct != {} {
      var k :| k in direct;
      assert Direct(m, prefix, delimiter, k) && k !in Keys(cs);
    } else if rolled != {} {
      var c :| c in rolled;
      var k :| k in m && StartsWith(k, prefix) && RolledUp(k, prefix, delimiter) &&
               CommonPrefixOf(k, prefix, delimiter.value) == c;
      assert c !in cps;
    }
  }

  /** A prefix no stored key starts with lists nothing, and the page is complete. */
  lemma NothingUnderPrefixListsNothing(m: map<Key, Obj>, prefix: Key, delimiter: Option<char>, maxKeys: nat, page: Page)
    requires forall x :: x in m ==> !StartsWith(x, prefix)
    requires IsPage(m, prefix, delimiter, maxKeys, page)
    ensures Contents(page) == [] && CommonPrefixes(page) == [] && !page.truncated
  {
    var cs, cps := Contents(page), CommonPrefixes(page);
    assert |cs| > 0 ==> Direct(m, prefix, delimiter, cs[0].key);
    assert |cps| > 0 ==> IsCommonPrefix(m, prefix, delimiter, cps[0]);
    assert |cs| == 0 && |cps| == 0;
  }

  class Bucket {
    var objects: map<Key, Obj>

    /** S3 keys are at least one character long. */
    ghost predicate Valid()
      reads this
    {
      "" !in objects
    }

    constructor (initial: map<Key, Obj>)
      requires "" !in initial
      ensures Valid() && objects == initial
    {
      objects := initial;
    }

    /** PutObject: writes (or overwrites) `key`. */
    method Put(key: Key, obj: Obj) returns (ok: bool)
      requires Valid()
      modifies this
      ensures Valid()
      ensures ok ==> key != ""
      ensures objects == if ok then old(objects)[key := obj] else old(objects)
    {
      ok :| true;
      ok := ok && key != "";
      if ok {
        objects := objects[key := obj];
      }
    }

    /** CopyObject: fails when `src` does not exist; otherwise `dst` gets `src`'s object. */
    method Copy(src: Key, dst: Key) returns (ok: bool)
      requires Valid()
      modifies this
      ensures Valid()
      ensures ok ==> src in old(objects) && dst != ""
      ensures objects == if ok then old(objects)[dst := old(objects)[src]] else old(objects)
    {
      ok :| true;
      ok := ok && src in objects && dst != "";
      if ok {
        objects := objects[dst := objects[src]];
      }
    }

    /** DeleteObject: removing a key that does not exist also succeeds. */
    method Delete(key: Key) returns (ok: bool)
      requires Valid()
      modifies this
      ensures Valid()
      ensures objects == if ok then old(objects) - {key} else old(objects)
    {
      ok :| true;
      if ok {
        objects := objects - {key};
      }
    }

    /**
     * DeleteObjects: a request naming 1 to 1000 keys.  A request that
     * succeeds still reports per-key `errors`; those keys stay.
     */
    method DeleteMany(keys: seq<Key>) returns (ok: bool, errors: set<Key>)
      requires Valid()
      modifies this
      ensures Valid()
      ensures ok ==> 1 <= |keys| <= DefaultMaxKeys
      ensures errors <= set k | k in keys
      ensures !ok ==> errors == {}
      ensures objects == if ok then old(objects) - (set k | k in keys && k !in errors) else old(objects)
    {
      ok :| true;
      ok := ok && 1 <= |keys| <= DefaultMaxKeys;
      errors := {};
      if ok {
        errors :| errors <= set k | k in keys;
        objects := objects - (set k | k in keys && k !in errors);
      }
    }

    /** ListObjectsV2: one page of at most `maxKeys` entries; changes nothing. */
    method List(prefix: Key, delimiter: Option<char>, maxKeys: nat) returns (ok: bool, page: Page)
      ensures ok ==> IsPage(objects, prefix, delimiter, maxKeys, page)
    {
      ok :| true;
      if !ok {
        return false, Page(None, None, false);
      }
      var direct := set k | k in objects && StartsWith(k, prefix) && !RolledUp(k, prefix, delimiter);
      var rolled := set k | k in objects && StartsWith(k, prefix) && RolledUp(k, prefix, delimiter)
                          :: CommonPrefixOf(k, prefix, delimiter.value);
      var cs: seq<ListedObject> := [];
      var cps: seq<Key> := [];
      ListingStart(objects, prefix, delimiter, maxKeys, direct, rolled);
      while (direct != {} || rolled != {}) && |cs| + |cps| < maxKeys
        invariant Listing(objects, prefix, delimiter, maxKeys, cs, cps, direct, rolled)
        decreases |direct| + |rolled|
      {
        if direct != {} {
          var k :| k in direct;
          ListingTakeObject(objects, prefix, delimiter, maxKeys, cs, cps, direct, rolled, k);
          cs := cs + [ListedObject(k, Some(objects[k].Size()))];
          direct := direct - {k};
        } else {
          var c :| c in rolled;
          ListingTakePrefix(objects, prefix, delimiter, maxKeys, cs, cps, direct, rolled, c);
          cps := cps + [c];
          rolled := rolled - {c};
        }
      }
      page := Page(if cs == [] then None else Some(cs), if cps == [] then None else Some(cps),
                   direct != {} || rolled != {});
      ListingDone(objects, prefix, delimiter, maxKeys, cs, cps, direct, rolled, page);
    }
  }
}
