/**
 * POST /api/create-folder: a folder is an empty object whose key is the
 * current prefix, the folder name and a trailing `/`.
 */
module CreateFolderRoute {
  import opened Wrappers
  import opened Strings
  import opened ObjectStore
  import opened ObjectsRoute

  datatype CreateResponse =
    | Created(folderKey: Key)
    | NameRequired
    | CreateFailed
  {
    function Status(): int {
      match this
      case Created(_) => 200
      case NameRequired => 400
      case CreateFailed => 500
    }
  }

  /** The folder marker: no bytes, typed as a directory. */
  const Marker: Obj := Obj([], "application/x-directory")

  /**
   * The marker key.  The handler picks between two template strings on the
   * truthiness of `currentPrefix`; both give the same key.
   */
  function FolderKey(folderName: string, currentPrefix: Option<string>): (k: Key)
    ensures k == currentPrefix.GetOr("") + folderName + "/"
    ensures EndsWith(k, "/") && |k| > |folderName|
  {
    if Truthy(currentPrefix) then currentPrefix.value + folderName + "/" else folderName + "/"
  }

  /**
   * The answers `Post` may give, from store `m` to store `m'`: a 400 for a
   * falsy name, otherwise the marker put at `FolderKey` or a 500 that
   * changes nothing.
   */
  ghost predicate PostOutcome(m: map<Key, Obj>, folderName: Option<string>, currentPrefix: Option<string>,
                              resp: CreateResponse, m': map<Key, Obj>) {
    && (!Truthy(folderName) ==> resp == NameRequired)
    && (Truthy(folderName) ==>
          resp == Created(FolderKey(folderName.value, currentPrefix)) || resp == CreateFailed)
    && m' == if resp.Created? then m[resp.folderKey := Marker] else m
  }

  /**
   * The handler.  The only check is that `folderName` is truthy (a name
   * holding `/` is accepted); the only store change is the marker put.
   */
  method Post(bucket: Bucket, folderName: Option<string>, currentPrefix: Option<string>)
    returns (resp: CreateResponse)
    requires bucket.Valid()
    modifies bucket
    ensures bucket.Valid()
    ensures !Truthy(folderName) ==> resp == NameRequired
    ensures Truthy(folderName) ==>
              resp == Created(FolderKey(folderName.value, currentPrefix)) || resp == CreateFailed
    ensures bucket.objects ==
              if resp.Created? then old(bucket.objects)[resp.folderKey := Marker] else old(bucket.objects)
    ensures resp.Created? ==>
              EndsWith(resp.folderKey, "/") && bucket.objects[resp.folderKey].Size() == 0 &&
              bucket.objects[resp.folderKey].contentType == "application/x-directory"
    ensures PostOutcome(old(bucket.objects), folderName, currentPrefix, resp, bucket.objects)
  {
    if !Truthy(folderName) {
      return NameRequired;
    }
    var key := FolderKey(folderName.value, currentPrefix);
    var ok := bucket.Put(key, Marker);
    if !ok {
      return CreateFailed;
    }
    return Created(key);
  }

  // ---------------------------------------------------------------------------
  // Properties
  // ---------------------------------------------------------------------------

  /**
   * Once a folder is created, posting the same request again changes
   * nothing, whatever it answers, and a second success names the same key.
   */
  lemma RepeatedCreate(m0: map<Key, Obj>, folderName: Option<string>, currentPrefix: Option<string>,
                       r1: CreateResponse, m1: map<Key, Obj>, r2: CreateResponse, m2: map<Key, Obj>)
    requires PostOutcome(m0, folderName, currentPrefix, r1, m1) && r1.Created?
    requires PostOutcome(m1, folderName, currentPrefix, r2, m2)
    ensures m2 == m1 && r2 != NameRequired
    ensures r2.Created? ==> r2 == r1
  {
    assert m1[r1.folderKey] == Marker;
  }

  /** A one-segment name's marker rolls up, under its scope, into the marker key itself. */
  lemma MarkerRollsUpToItself(scope: string, folderName: string)
    requires '/' !in folderName
    ensures var k := scope + folderName + "/";
            StartsWith(k, scope) && RolledUp(k, scope, Some('/')) && CommonPrefixOf(k, scope, '/') == k
  {
    var k := scope + folderName + "/";
    var rest := k[|scope|..];
    assert rest == folderName + "/";
    assert rest[|folderName|] == '/';
    assert rest[..|folderName|] == folderName;
  }

  /**
   * Create, then list: a complete listing of the scope after the put shows
   * the new folder, named as it was created, with the marker key as prefix.
   */
  lemma CreatedFolderIsListed(m: map<Key, Obj>, scope: string, folderName: string, page: Page)
    requires '/' !in folderName
    requires IsPage(m[FolderKey(folderName, Some(scope)) := Marker], scope, Some('/'), DefaultMaxKeys, page)
    requires !page.truncated
    ensures FolderEntry(folderName, scope + folderName + "/") in Translate(Some(scope), page).folders
  {
    var k := scope + folderName + "/";
    var m' := m[FolderKey(folderName, Some(scope)) := Marker];
    assert k in m';
    MarkerRollsUpToItself(scope, folderName);
    assert k in CommonPrefixes(page);
    var cps := CommonPrefixes(page);
    var i :| 0 <= i < |cps| && cps[i] == k;
    FolderAt(scope, cps, i);
    FolderNameOfSegment(scope, folderName);
    assert Folders(scope, cps)[i] == FolderEntry(folderName, k);
  }
}
