/**
 * PUT /api/rename: S3 has no rename, so every object is copied to its new
 * key and then deleted at its old one.  A folder is renamed by listing every
 * key under the old prefix and moving the objects one by one, in listing
 * order; the first failed call ends the request.
 */
module RenameRoute {
  import opened Wrappers
  import opened Strings
  import opened Sequences
  import opened ObjectStore

  datatype RenameResponse =
    | Renamed
    | KeysRequired
    | RenameFailed
  {
    function Status(): int {
      match this
      case Renamed => 200
      case KeysRequired => 400
      case RenameFailed => 500
    }
  }

  /** The new key of a listed object: `k.replace(oldKey, newKey)`, `$` patterns included. */
  function NewObjectKey(k: Key, oldKey: Key, newKey: Key): Key {
    ReplaceFirst(k, oldKey, newKey)
  }

  /** The store after one object is copied from `src` to `dst` and then deleted at `src`. */
  function Moved(m: map<Key, Obj>, src: Key, dst: Key): map<Key, Obj> {
    if src in m then m[dst := m[src]] - {src} else m
  }

  /** The store after a copy from `src` to `dst` whose delete then failed. */
  function CopiedOnly(m: map<Key, Obj>, src: Key, dst: Key): map<Key, Obj> {
    if src in m then m[dst := m[src]] else m
  }

  /** One iteration of the folder loop; an entry with an empty key is skipped. */
  function Step(m: map<Key, Obj>, k: Key, oldKey: Key, newKey: Key): map<Key, Obj> {
    if k == "" then m else Moved(m, k, NewObjectKey(k, oldKey, newKey))
  }

  /** The store once the folder loop has handled the keys `ks`, in order. */
  function MoveAll(m: map<Key, Obj>, ks: seq<Key>, oldKey: Key, newKey: Key): map<Key, Obj>
    decreases |ks|
  {
    if |ks| == 0 then m
    else Step(MoveAll(m, ks[..|ks| - 1], oldKey, newKey), ks[|ks| - 1], oldKey, newKey)
  }

  /**
   * The handler.  Both keys must be truthy.  A file is copied, then deleted.
   * A folder is listed once (no delimiter, one page of at most 1000 keys)
   * and each listed object is moved; `listed` tells whether the listing
   * succeeded, `done` objects were moved when the loop aborted, and
   * `copied` tells whether the next one's copy had already succeeded.
   */
  method Put(bucket: Bucket, oldKey: Option<string>, newKey: Option<string>, isFolder: bool)
    returns (resp: RenameResponse, ghost listed: bool, ghost page: Page, ghost done: nat, ghost copied: bool)
    requires bucket.Valid()
    modifies bucket
    ensures bucket.Valid()
    ensures !(Truthy(oldKey) && Truthy(newKey)) ==>
              resp == KeysRequired && bucket.objects == old(bucket.objects)
    ensures Truthy(oldKey) && Truthy(newKey) ==> resp != KeysRequired
    ensures Truthy(oldKey) && Truthy(newKey) && !isFolder ==>
              var m, o, n := old(bucket.objects), oldKey.value, newKey.value;
              if resp == Renamed then o in m && bucket.objects == Moved(m, o, n)
              else bucket.objects == m || (o in m && bucket.objects == CopiedOnly(m, o, n))
    ensures Truthy(oldKey) && Truthy(newKey) && isFolder ==>
              (listed ==> IsPage(old(bucket.objects), oldKey.value, None, DefaultMaxKeys, page)) &&
              (!listed ==> resp == RenameFailed && bucket.objects == old(bucket.objects))
    ensures Truthy(oldKey) && Truthy(newKey) && isFolder && listed && Contents(page) == [] ==>
              resp == Renamed && bucket.objects == old(bucket.objects)
    ensures Truthy(oldKey) && Truthy(newKey) && isFolder && listed &&
            (forall x :: x in old(bucket.objects) ==> !StartsWith(x, oldKey.value)) ==>
              resp == Renamed && bucket.objects == old(bucket.objects)
    ensures Truthy(oldKey) && Truthy(newKey) && isFolder && resp == Renamed ==>
              var m, o, n := old(bucket.objects), oldKey.value, newKey.value;
              listed && bucket.objects == MoveAll(m, Keys(Contents(page)), o, n)
    ensures Truthy(oldKey) && Truthy(newKey) && isFolder && resp == RenameFailed && listed ==>
              var m, o, n := old(bucket.objects), oldKey.value, newKey.value;
              var ks := Keys(Contents(page));
              done < |ks| &&
              var before := MoveAll(m, ks[..done], o, n);
              bucket.objects == if copied then CopiedOnly(before, ks[done], NewObjectKey(ks[done], o, n))
                                else before
  {
    listed, page, done, copied := false, Page(None, None, false), 0, false;
    if !(Truthy(oldKey) && Truthy(newKey)) {
      return KeysRequired, listed, page, done, copied;
    }
    var o, n := oldKey.value, newKey.value;
    if !isFolder {
      var ok := bucket.Copy(o, n);
      if !ok {
        return RenameFailed, listed, page, done, copied;
      }
      ok := bucket.Delete(o);
      if !ok {
        return RenameFailed, listed, page, done, true;
      }
      return Renamed, listed, page, done, copied;
    }
    var ok, listing := bucket.List(o, None, DefaultMaxKeys);
    if !ok {
      return RenameFailed, listed, page, done, copied;
    }
    listed, page := true, listing;
    ghost var m := bucket.objects;
    if forall x :: x in m ==> !StartsWith(x, o) {
      NothingUnderPrefixListsNothing(m, o, None, DefaultMaxKeys, page);
    }
    var ks := Keys(Contents(listing));
    var i := 0;
    while i < |ks|
      invariant 0 <= i <= |ks|
      invariant bucket.Valid()
      invariant bucket.objects == MoveAll(m, ks[..i], o, n)
    {
      var k := ks[i];
      assert ks[..i + 1][..i] == ks[..i];
      if k != "" {
        var dst := NewObjectKey(k, o, n);
        var copyOk := bucket.Copy(k, dst);
        if !copyOk {
          return RenameFailed, listed, page, i, false;
        }
        var deleteOk := bucket.Delete(k);
        if !deleteOk {
          return RenameFailed, listed, page, i, true;
        }
      }
      i := i + 1;
    }
    assert ks[..i] == ks;
    return Renamed, listed, page, |ks|, false;
  }

  // ---------------------------------------------------------------------------
  // Key rewriting
  // ---------------------------------------------------------------------------

  /** For a listed key, the first occurrence `replace` finds is at position 0. */
  lemma FirstOccurrenceAtStart(k: Key, oldKey: Key)
    requires StartsWith(k, oldKey)
    ensures IndexOf(k, oldKey) == 0
  {
    assert StartsWith(k[0..], oldKey);
  }

  /** Without `$` in `newKey`, a listed key keeps its suffix under the new prefix. */
  lemma NewKeyOfPrefixed(k: Key, oldKey: Key, newKey: Key)
    requires StartsWith(k, oldKey) && '$' !in newKey
    ensures NewObjectKey(k, oldKey, newKey) == newKey + k[|oldKey|..]
  {
    ReplaceFirstAtStart(k, oldKey, newKey);
    SubstitutionPlain(newKey, "", oldKey, k[|oldKey|..]);
  }

  /** With `$&` in `newKey`, the matched old prefix is spliced into the new key. */
  lemma DollarPatternInNewKey()
    ensures NewObjectKey("a/x", "a/", "b$&/") == "ba//x"
  {
    ReplaceFirstAtStart("a/x", "a/", "b$&/");
    assert Substitution("b$&/", "", "a/", "x") == "ba//";
  }

  /** Every key of a prefix listing is a stored key under the prefix. */
  lemma ListedKeysUnderPrefix(m: map<Key, Obj>, prefix: Key, page: Page)
    requires IsPage(m, prefix, None, DefaultMaxKeys, page)
    ensures forall k :: k in Keys(Contents(page)) ==> k in m && StartsWith(k, prefix)
  {
    var cs := Contents(page);
    forall k | k in Keys(cs)
      ensures k in m && StartsWith(k, prefix)
    {
      var i :| 0 <= i < |cs| && Keys(cs)[i] == k;
      assert Direct(m, prefix, None, cs[i].key);
    }
  }

  /** Neither key is a prefix of the other: a folder is renamed to a sibling, not into itself. */
  predicate NoOverlap(oldKey: Key, newKey: Key) {
    !StartsWith(newKey, oldKey) && !StartsWith(oldKey, newKey)
  }

  /** Under `NoOverlap`, a new key is never under the old prefix. */
  lemma NewKeyOutsideOld(oldKey: Key, newKey: Key, suffix: string)
    requires NoOverlap(oldKey, newKey)
    ensures !StartsWith(newKey + suffix, oldKey)
  {
  }

  // ---------------------------------------------------------------------------
  // The folder loop
  // ---------------------------------------------------------------------------

  /** A key the loop neither lists nor writes keeps its presence and its object. */
  lemma {:induction false} MoveAllUntouched(m: map<Key, Obj>, ks: seq<Key>, oldKey: Key, newKey: Key, x: Key)
    requires x !in ks
    requires forall k :: k in ks ==> NewObjectKey(k, oldKey, newKey) != x
    ensures x in MoveAll(m, ks, oldKey, newKey) <==> x in m
    ensures x in m ==> MoveAll(m, ks, oldKey, newKey)[x] == m[x]
  {
    if |ks| > 0 {
      assert forall k :: k in ks[..|ks| - 1] ==> k in ks;
      MoveAllUntouched(m, ks[..|ks| - 1], oldKey, newKey, x);
      assert ks[|ks| - 1] in ks;
    }
  }

  /** Nothing the loop does not list is deleted. */
  lemma {:induction false} MoveAllKeepsUnlisted(m: map<Key, Obj>, ks: seq<Key>, oldKey: Key, newKey: Key, x: Key)
    requires x in m && x !in ks
    ensures x in MoveAll(m, ks, oldKey, newKey)
  {
    if |ks| > 0 {
      assert forall k :: k in ks[..|ks| - 1] ==> k in ks;
      MoveAllKeepsUnlisted(m, ks[..|ks| - 1], oldKey, newKey, x);
      assert ks[|ks| - 1] in ks;
    }
  }

  /** The state of a clean rename of the keys `ks`. */
  ghost predicate RenamedAll(m: map<Key, Obj>, r: map<Key, Obj>, ks: seq<Key>, oldKey: Key, newKey: Key) {
    forall k :: k in ks ==>
      StartsWith(k, oldKey) && k in m &&
      k !in r && newKey + k[|oldKey|..] in r && r[newKey + k[|oldKey|..]] == m[k]
  }

  /**
   * A clean folder rename: when the keys do not overlap and `newKey` has no
   * `$`, every listed object is gone from its old key and sits, unchanged,
   * under the new prefix with the same suffix.
   */
  lemma {:induction false} CleanRename(m: map<Key, Obj>, ks: seq<Key>, oldKey: Key, newKey: Key)
    requires NoOverlap(oldKey, newKey) && '$' !in newKey && Distinct(ks)
    requires forall k :: k in ks ==> k in m && StartsWith(k, oldKey)
    ensures RenamedAll(m, MoveAll(m, ks, oldKey, newKey), ks, oldKey, newKey)
  {
    if |ks| > 0 {
      var init, k := ks[..|ks| - 1], ks[|ks| - 1];
      assert forall j :: j in init ==> j in ks;
      assert k in ks;
      assert Distinct(init) by {
        forall i, j | 0 <= i < j < |init| ensures init[i] != init[j] {
          assert init[i] == ks[i] && init[j] == ks[j];
        }
      }
      CleanRename(m, init, oldKey, newKey);
      var before := MoveAll(m, init, oldKey, newKey);
      assert k !in init by {
        forall i | 0 <= i < |init| ensures init[i] != k {
          assert init[i] == ks[i];
        }
      }
      forall j | j in init
        ensures NewObjectKey(j, oldKey, newKey) != k
      {
        NewKeyOfPrefixed(j, oldKey, newKey);
        NewKeyOutsideOld(oldKey, newKey, j[|oldKey|..]);
      }
      MoveAllUntouched(m, init, oldKey, newKey, k);
      NewKeyOfPrefixed(k, oldKey, newKey);
      assert ks == init + [k];
      CleanRenameStep(m, before, init, k, oldKey, newKey);
    }
  }

  /** One more object moved keeps a clean rename clean. */
  lemma CleanRenameStep(m: map<Key, Obj>, before: map<Key, Obj>, init: seq<Key>, k: Key, oldKey: Key, newKey: Key)
    requires NoOverlap(oldKey, newKey)
    requires RenamedAll(m, before, init, oldKey, newKey)
    requires k in m && StartsWith(k, oldKey) && k !in init
    requires k in before && before[k] == m[k]
    ensures RenamedAll(m, Moved(before, k, newKey + k[|oldKey|..]), init + [k], oldKey, newKey)
  {
    var d := newKey + k[|oldKey|..];
    NewKeyOutsideOld(oldKey, newKey, k[|oldKey|..]);
    assert d != k;
    var r := Moved(before, k, d);
    assert r == before[d := m[k]] - {k};
    forall j | j in init
      ensures j !in r && newKey + j[|oldKey|..] in r && r[newKey + j[|oldKey|..]] == m[j]
    {
      var dj := newKey + j[|oldKey|..];
      NewKeyOutsideOld(oldKey, newKey, j[|oldKey|..]);
      assert j != d;
      assert dj != k;
      assert dj[|newKey|..] == j[|oldKey|..] && d[|newKey|..] == k[|oldKey|..];
      assert j == oldKey + j[|oldKey|..] && k == oldKey + k[|oldKey|..];
      assert dj != d;
    }
    assert forall j :: j in init + [k] ==> j in init || j == k;
  }

  /**
   * The state the loop leaves when it aborts at entry `done`: every earlier
   * object is moved, and the object at `done` and every later one is still
   * at its old key; when the copy of entry `done` had succeeded, only its
   * new key was written in addition.
   */
  lemma AbortState(m: map<Key, Obj>, ks: seq<Key>, oldKey: Key, newKey: Key, done: nat)
    requires NoOverlap(oldKey, newKey) && '$' !in newKey && Distinct(ks)
    requires forall k :: k in ks ==> k in m && StartsWith(k, oldKey)
    requires done < |ks|
    ensures var before := MoveAll(m, ks[..done], oldKey, newKey);
            var after := CopiedOnly(before, ks[done], NewObjectKey(ks[done], oldKey, newKey));
            && RenamedAll(m, before, ks[..done], oldKey, newKey)
            && (forall j :: done <= j < |ks| ==> ks[j] in before && before[ks[j]] == m[ks[j]])
            && (forall j :: done <= j < |ks| ==> ks[j] in after && after[ks[j]] == m[ks[j]])
  {
    var init := ks[..done];
    assert forall j :: j in init ==> j in ks;
    assert Distinct(init) by {
      forall i, j | 0 <= i < j < |init| ensures init[i] != init[j] {
        assert init[i] == ks[i] && init[j] == ks[j];
      }
    }
    CleanRename(m, init, oldKey, newKey);
    var before := MoveAll(m, init, oldKey, newKey);
    var d := NewObjectKey(ks[done], oldKey, newKey);
    assert ks[done] in ks;
    NewKeyOfPrefixed(ks[done], oldKey, newKey);
    NewKeyOutsideOld(oldKey, newKey, ks[done][|oldKey|..]);
    forall j | done <= j < |ks|
      ensures ks[j] in before && before[ks[j]] == m[ks[j]] && ks[j] != d
    {
      var x := ks[j];
      assert x in ks;
      assert x !in init by {
        forall i | 0 <= i < |init| ensures init[i] != x {
          assert init[i] == ks[i];
        }
      }
      forall k | k in init
        ensures NewObjectKey(k, oldKey, newKey) != x
      {
        NewKeyOfPrefixed(k, oldKey, newKey);
        NewKeyOutsideOld(oldKey, newKey, k[|oldKey|..]);
      }
      MoveAllUntouched(m, init, oldKey, newKey, x);
    }
  }

  /**
   * A successful folder rename of one listing page: each listed object is
   * under the new prefix and gone from the old one, a key under neither
   * prefix is untouched, and a complete listing leaves nothing under the
   * old prefix.
   */
  lemma FolderRenameOfPage(m: map<Key, Obj>, oldKey: Key, newKey: Key, page: Page)
    requires NoOverlap(oldKey, newKey) && '$' !in newKey
    requires IsPage(m, oldKey, None, DefaultMaxKeys, page)
    ensures var ks, r := Keys(Contents(page)), MoveAll(m, Keys(Contents(page)), oldKey, newKey);
            && RenamedAll(m, r, ks, oldKey, newKey)
            && (forall x :: x in m && !StartsWith(x, oldKey) && !StartsWith(x, newKey) ==> x in r && r[x] == m[x])
            && (!page.truncated ==> forall x :: x in r ==> !StartsWith(x, oldKey))
  {
    var ks := Keys(Contents(page));
    var r := MoveAll(m, ks, oldKey, newKey);
    ListedKeysUnderPrefix(m, oldKey, page);
    CleanRename(m, ks, oldKey, newKey);
    forall x | x in m && !StartsWith(x, oldKey) && !StartsWith(x, newKey)
      ensures x in r && r[x] == m[x]
    {
      forall k | k in ks
        ensures NewObjectKey(k, oldKey, newKey) != x
      {
        NewKeyOfPrefixed(k, oldKey, newKey);
        assert StartsWith(newKey + k[|oldKey|..], newKey);
      }
      MoveAllUntouched(m, ks, oldKey, newKey, x);
    }
    if !page.truncated {
      forall x | x in r
        ensures !StartsWith(x, oldKey)
      {
        if StartsWith(x, oldKey) {
          MoveAllWritesOnlyNewKeys(m, ks, oldKey, newKey, x);
          forall k | k in ks
            ensures NewObjectKey(k, oldKey, newKey) != x
          {
            NewKeyOfPrefixed(k, oldKey, newKey);
            NewKeyOutsideOld(oldKey, newKey, k[|oldKey|..]);
          }
          assert x in m && x !in ks;
          assert Direct(m, oldKey, None, x);
        }
      }
    }
  }

  /** Every key after the loop was there before or is the new key of a listed one. */
  lemma {:induction false} MoveAllWritesOnlyNewKeys(m: map<Key, Obj>, ks: seq<Key>, oldKey: Key, newKey: Key, x: Key)
    requires x in MoveAll(m, ks, oldKey, newKey)
    ensures x in m || exists k :: k in ks && x == NewObjectKey(k, oldKey, newKey)
  {
    if |ks| > 0 {
      var init := ks[..|ks| - 1];
      assert forall k :: k in init ==> k in ks;
      assert ks[|ks| - 1] in ks;
      var before := MoveAll(m, init, oldKey, newKey);
      if x in before {
        MoveAllWritesOnlyNewKeys(m, init, oldKey, newKey, x);
      }
    }
  }

  /**
   * Only one page is moved: when the listing was truncated, some object
   * under the old prefix stays where it was.
   */
  lemma TruncatedListingLeavesObjects(m: map<Key, Obj>, oldKey: Key, newKey: Key, page: Page)
    requires NoOverlap(oldKey, newKey) && '$' !in newKey
    requires IsPage(m, oldKey, None, DefaultMaxKeys, page) && page.truncated
    ensures exists x :: x in m && StartsWith(x, oldKey) &&
                        x in MoveAll(m, Keys(Contents(page)), oldKey, newKey) &&
                        MoveAll(m, Keys(Contents(page)), oldKey, newKey)[x] == m[x]
  {
    var ks := Keys(Contents(page));
    assert !Covers(m, oldKey, None, page);
    var x :| Direct(m, oldKey, None, x) && x !in ks;
    ListedKeysUnderPrefix(m, oldKey, page);
    forall k | k in ks
      ensures NewObjectKey(k, oldKey, newKey) != x
    {
      NewKeyOfPrefixed(k, oldKey, newKey);
      NewKeyOutsideOld(oldKey, newKey, k[|oldKey|..]);
    }
    MoveAllUntouched(m, ks, oldKey, newKey, x);
  }

  /** A single-file rename: the object moves to `newKey`; no other key changes. */
  lemma MovedFile(m: map<Key, Obj>, src: Key, dst: Key)
    requires src in m && src != dst
    ensures var r := Moved(m, src, dst);
            && src !in r && dst in r && r[dst] == m[src]
            && (forall x :: x != src && x != dst ==> (x in r <==> x in m))
            && (forall x :: x != src && x != dst && x in m ==> r[x] == m[x])
  {
  }
}
