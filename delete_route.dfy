/**
 * DELETE /api/delete: one key, or, in folder mode, every key one listing
 * of the prefix returns, removed with a single batch request.
 */
module DeleteRoute {
  import opened Wrappers
  import opened Strings
  import opened ObjectStore

  datatype DeleteResponse =
    | Deleted
    | KeyRequired
    | DeleteFailed
  {
    function Status(): int {
      match this
      case Deleted => 200
      case KeyRequired => 400
      case DeleteFailed => 500
    }
  }

  /** Folder mode is on only for the query parameter `isFolder=true`, spelled exactly so. */
  predicate IsFolderFlag(isFolder: Option<string>) {
    isFolder == Some("true")
  }

  /** The store after a batch delete of `keys` in which the keys in `errors` failed. */
  function AfterBatch(m: map<Key, Obj>, keys: seq<Key>, errors: set<Key>): map<Key, Obj> {
    m - (set k | k in keys && k !in errors)
  }

  /**
   * The handler.  In folder mode the prefix is listed once (no delimiter,
   * at most 1000 keys) and, when the listing is not empty, its keys are
   * deleted in one batch; keys the batch reports as failed are ignored and
   * the response is still a success.  `listed` tells whether the listing
   * succeeded.
   */
  method Delete(bucket: Bucket, key: Option<string>, isFolder: Option<string>)
    returns (resp: DeleteResponse, ghost listed: bool, ghost page: Page, ghost errors: set<Key>)
    requires bucket.Valid()
    modifies bucket
    ensures bucket.Valid()
    ensures !Truthy(key) ==> resp == KeyRequired && bucket.objects == old(bucket.objects)
    ensures Truthy(key) ==> resp != KeyRequired
    ensures resp == DeleteFailed ==> bucket.objects == old(bucket.objects)
    ensures Truthy(key) && !IsFolderFlag(isFolder) && resp == Deleted ==>
              bucket.objects == old(bucket.objects) - {key.value}
    ensures Truthy(key) && IsFolderFlag(isFolder) ==>
              (listed <==> resp == Deleted || |Contents(page)| > 0) &&
              (listed ==> IsPage(old(bucket.objects), key.value, None, DefaultMaxKeys, page))
    ensures Truthy(key) && IsFolderFlag(isFolder) && listed && Contents(page) == [] ==>
              resp == Deleted && bucket.objects == old(bucket.objects)
    ensures Truthy(key) && IsFolderFlag(isFolder) && listed &&
            (forall x :: x in old(bucket.objects) ==> !StartsWith(x, key.value)) ==>
              resp == Deleted && bucket.objects == old(bucket.objects)
    ensures Truthy(key) && IsFolderFlag(isFolder) && resp == Deleted ==>
              errors <= (set k | k in Keys(Contents(page))) &&
              bucket.objects == AfterBatch(old(bucket.objects), Keys(Contents(page)), errors)
  {
    listed, page, errors := false, Page(None, None, false), {};
    if !Truthy(key) {
      return KeyRequired, listed, page, errors;
    }
    var k := key.value;
    if IsFolderFlag(isFolder) {
      var ok, listing := bucket.List(k, None, DefaultMaxKeys);
      if !ok {
        return DeleteFailed, listed, page, errors;
      }
      listed, page := true, listing;
      if forall x :: x in bucket.objects ==> !StartsWith(x, k) {
        NothingUnderPrefixListsNothing(bucket.objects, k, None, DefaultMaxKeys, page);
      }
      if listing.contents.Some? && |listing.contents.value| > 0 {
        var keys := Keys(listing.contents.value);
        var batchErrors;
        ok, batchErrors := bucket.DeleteMany(keys);
        if !ok {
          return DeleteFailed, listed, page, errors;
        }
        errors := batchErrors;
      }
    } else {
      var ok := bucket.Delete(k);
      if !ok {
        return DeleteFailed, listed, page, errors;
      }
    }
    return Deleted, listed, page, errors;
  }

  // ---------------------------------------------------------------------------
  // Properties
  // ---------------------------------------------------------------------------

  /** A folder delete removes only keys under the prefix: every other key is unchanged. */
  lemma FolderDeleteStaysUnderPrefix(m: map<Key, Obj>, prefix: Key, page: Page, errors: set<Key>)
    requires IsPage(m, prefix, None, DefaultMaxKeys, page)
    ensures var r := AfterBatch(m, Keys(Contents(page)), errors);
            forall x :: !StartsWith(x, prefix) ==> (x in r <==> x in m) && (x in r ==> r[x] == m[x])
  {
    var cs := Contents(page);
    forall x | x in Keys(cs)
      ensures StartsWith(x, prefix)
    {
      var i :| 0 <= i < |cs| && Keys(cs)[i] == x;
      assert Direct(m, prefix, None, cs[i].key);
    }
  }

  /**
   * A complete listing deleted without per-key errors leaves nothing under
   * the prefix, and removes exactly the keys under it.
   */
  lemma CompleteFolderDelete(m: map<Key, Obj>, prefix: Key, page: Page)
    requires IsPage(m, prefix, None, DefaultMaxKeys, page) && !page.truncated
    ensures var r := AfterBatch(m, Keys(Contents(page)), {});
            forall x :: x in r <==> x in m && !StartsWith(x, prefix)
  {
    FolderDeleteStaysUnderPrefix(m, prefix, page, {});
    forall x | x in m && StartsWith(x, prefix)
      ensures x in Keys(Contents(page))
    {
      assert Direct(m, prefix, None, x);
    }
  }

  /**
   * The prefix match is a raw string match: deleting the folder `docs`
   * without its trailing `/` also deletes the sibling `docs-old.txt`.
   */
  lemma SiblingSharingPrefixIsDeleted(m: map<Key, Obj>, page: Page)
    requires "docs-old.txt" in m
    requires IsPage(m, "docs", None, DefaultMaxKeys, page) && !page.truncated
    ensures "docs-old.txt" !in AfterBatch(m, Keys(Contents(page)), {})
  {
    CompleteFolderDelete(m, "docs", page);
    assert StartsWith("docs-old.txt", "docs");
  }
}
