/**
 * GET /api/objects: one delimiter listing of the current scope, turned into
 * folder entries (from the common prefixes) and file entries (from the
 * contents, without folder markers).
 */
module ObjectsRoute {
  import opened Wrappers
  import opened Strings
  import opened Sequences
  import opened ObjectStore

  datatype FolderEntry = FolderEntry(name: string, prefix: Key)

  datatype FileEntry = FileEntry(key: Key, name: string, size: Option<nat>)

  datatype ListResponse =
    | Listed(folders: seq<FolderEntry>, files: seq<FileEntry>, prefix: string)
    | ListFailed
  {
    function Status(): int {
      if Listed? then 200 else 500
    }
  }

  /** A scope the browser navigates to: the root, or a path ending in `/`. */
  predicate IsScope(s: string) {
    s == "" || EndsWith(s, "/")
  }

  /** The folder name: the first occurrence of the scope removed, then the first `/`. */
  function FolderName(scope: string, cp: Key): string {
    ReplaceFirst(ReplaceFirst(cp, scope, ""), "/", "")
  }

  function FolderOf(scope: string, cp: Key): FolderEntry {
    FolderEntry(FolderName(scope, cp), cp)
  }

  /** One folder entry per common prefix, in the store's order. */
  function Folders(scope: string, cps: seq<Key>): (r: seq<FolderEntry>)
    ensures |r| == |cps|
    ensures forall i :: 0 <= i < |cps| ==> r[i].prefix == cps[i]
  {
    if |cps| == 0 then [] else [FolderOf(scope, cps[0])] + Folders(scope, cps[1..])
  }

  /** The file filter: not the scope's own marker (compared with the raw parameter), not a marker. */
  predicate KeepsFile(prefixParam: Option<string>, key: Key) {
    (prefixParam.None? || key != prefixParam.value) && !EndsWith(key, "/")
  }

  function FileOf(o: ListedObject): FileEntry {
    FileEntry(o.key, LastSegment(o.key, '/'), o.size)
  }

  /** The `map` step: one file entry per kept object, in order. */
  function FilesOfAll(cs: seq<ListedObject>): seq<FileEntry> {
    seq(|cs|, i requires 0 <= i < |cs| => FileOf(cs[i]))
  }

  /** The `filter` step: the contents entries the filter keeps, in the store's order. */
  function Kept(prefixParam: Option<string>, cs: seq<ListedObject>): (r: seq<ListedObject>)
    ensures |r| <= |cs|
    ensures forall i :: 0 <= i < |r| ==> KeepsFile(prefixParam, r[i].key)
  {
    if |cs| == 0 then []
    else (if KeepsFile(prefixParam, cs[0].key) then [cs[0]] else []) + Kept(prefixParam, cs[1..])
  }

  /** The file entries: the kept contents, mapped. */
  function Files(prefixParam: Option<string>, cs: seq<ListedObject>): (r: seq<FileEntry>)
    ensures |r| <= |cs|
    ensures forall i :: 0 <= i < |r| ==> KeepsFile(prefixParam, r[i].key) && '/' !in r[i].name
  {
    FilesOfAll(Kept(prefixParam, cs))
  }

  /** The response for one listed page. */
  function Translate(prefixParam: Option<string>, page: Page): (r: ListResponse)
    ensures r.Listed? && r.prefix == prefixParam.GetOr("")
    ensures |r.folders| == |CommonPrefixes(page)| && |r.files| <= |Contents(page)|
  {
    var scope := prefixParam.GetOr("");
    Listed(Folders(scope, CommonPrefixes(page)), Files(prefixParam, Contents(page)), scope)
  }

  /**
   * The handler.  A missing `prefix` lists the root; a failed listing is a
   * 500 with no entries.
   */
  method Get(bucket: Bucket, prefixParam: Option<string>) returns (resp: ListResponse, ghost page: Page)
    requires bucket.Valid()
    ensures resp.ListFailed? ||
            (IsPage(bucket.objects, prefixParam.GetOr(""), Some('/'), DefaultMaxKeys, page) &&
             resp == Translate(prefixParam, page))
    ensures resp.Listed? ==> resp.prefix == prefixParam.GetOr("")
    ensures resp.Listed? ==> forall f :: f in resp.files ==>
              f.key in bucket.objects && StartsWith(f.key, prefixParam.GetOr("")) &&
              f.key != prefixParam.GetOr("") && !EndsWith(f.key, "/")
  {
    var scope := prefixParam.GetOr("");
    var ok, listed := bucket.List(scope, Some('/'), DefaultMaxKeys);
    page := listed;
    if !ok {
      return ListFailed, page;
    }
    resp := Translate(prefixParam, listed);
    FilesOfPage(bucket.objects, prefixParam, listed);
  }

  // ---------------------------------------------------------------------------
  // Properties
  // ---------------------------------------------------------------------------

  /** An object is kept exactly when it is listed and passes the filter. */
  lemma {:induction false} KeptMembers(prefixParam: Option<string>, cs: seq<ListedObject>)
    ensures forall o :: o in Kept(prefixParam, cs) <==> o in cs && KeepsFile(prefixParam, o.key)
  {
    if |cs| > 0 {
      KeptMembers(prefixParam, cs[1..]);
      assert forall o :: o in cs <==> o == cs[0] || o in cs[1..];
    }
  }

  /** The filter keeps the store's order. */
  lemma {:induction false} KeptInStoreOrder(prefixParam: Option<string>, cs: seq<ListedObject>)
    ensures IsSubsequence(Kept(prefixParam, cs), cs)
  {
    if |cs| > 0 {
      KeptInStoreOrder(prefixParam, cs[1..]);
      var rest := Kept(prefixParam, cs[1..]);
      if KeepsFile(prefixParam, cs[0].key) {
        assert Kept(prefixParam, cs) == [cs[0]] + rest;
        assert Kept(prefixParam, cs)[1..] == rest;
      } else {
        assert Kept(prefixParam, cs) == rest;
      }
    }
  }

  /** The `map` step yields exactly the entries of its input objects. */
  lemma FilesOfAllMembers(ks: seq<ListedObject>)
    ensures forall f :: f in FilesOfAll(ks) <==> exists o :: o in ks && f == FileOf(o)
  {
    forall f | f in FilesOfAll(ks)
      ensures exists o :: o in ks && f == FileOf(o)
    {
      var j :| 0 <= j < |ks| && FilesOfAll(ks)[j] == f;
      assert ks[j] in ks;
    }
    forall o | o in ks
      ensures FileOf(o) in FilesOfAll(ks)
    {
      var j :| 0 <= j < |ks| && ks[j] == o;
      assert FilesOfAll(ks)[j] == FileOf(o);
    }
  }

  /** A file entry is listed exactly when it is the entry of an object the filter keeps. */
  lemma FilesMembers(prefixParam: Option<string>, cs: seq<ListedObject>)
    ensures forall f :: f in Files(prefixParam, cs) <==>
              exists o :: o in cs && KeepsFile(prefixParam, o.key) && f == FileOf(o)
  {
    KeptMembers(prefixParam, cs);
    FilesOfAllMembers(Kept(prefixParam, cs));
  }

  /** Files listed for a page are objects of the scope, never the scope itself or a marker. */
  lemma FilesOfPage(m: map<Key, Obj>, prefixParam: Option<string>, page: Page)
    requires "" !in m
    requires IsPage(m, prefixParam.GetOr(""), Some('/'), DefaultMaxKeys, page)
    ensures forall f :: f in Files(prefixParam, Contents(page)) ==>
              f.key in m && StartsWith(f.key, prefixParam.GetOr("")) &&
              f.key != prefixParam.GetOr("") && !EndsWith(f.key, "/")
  {
    var scope := prefixParam.GetOr("");
    var cs := Contents(page);
    var ks := Kept(prefixParam, cs);
    KeptMembers(prefixParam, cs);
    forall j | 0 <= j < |ks|
      ensures ks[j].key in m && StartsWith(ks[j].key, scope) && ks[j].key != scope
    {
      var o := ks[j];
      assert o in ks;
      var i :| 0 <= i < |cs| && cs[i] == o;
      assert Direct(m, scope, Some('/'), o.key);
    }
    assert forall j :: 0 <= j < |ks| ==> Files(prefixParam, cs)[j].key == ks[j].key;
  }

  /** Keys are never empty, so an absent `prefix` and an empty one give the same response. */
  lemma {:induction false} AbsentPrefixIsRoot(page: Page)
    requires forall o :: o in Contents(page) ==> o.key != ""
    ensures Translate(None, page) == Translate(Some(""), page)
  {
    KeptIgnoresEmptyPrefix(Contents(page));
  }

  lemma {:induction false} KeptIgnoresEmptyPrefix(cs: seq<ListedObject>)
    requires forall o :: o in cs ==> o.key != ""
    ensures Kept(None, cs) == Kept(Some(""), cs)
  {
    if |cs| > 0 {
      assert cs[0] in cs;
      assert forall o :: o in cs[1..] ==> o in cs;
      KeptIgnoresEmptyPrefix(cs[1..]);
    }
  }

  /** Absent `CommonPrefixes` and `Contents` are an empty listing, not an error. */
  lemma EmptyPageIsEmptyListing(prefixParam: Option<string>, truncated: bool)
    ensures Translate(prefixParam, Page(None, None, truncated)) == Listed([], [], prefixParam.GetOr(""))
  {
  }

  lemma IndexOfSlashAfterSegment(seg: string)
    requires '/' !in seg
    ensures IndexOf(seg + "/", "/") == |seg|
  {
    var s := seg + "/";
    assert StartsWith(s[|seg|..], "/");
    forall j | 0 <= j < |seg|
      ensures !StartsWith(s[j..], "/")
    {
      assert s[j..][0] == seg[j];
    }
  }

  /** The folder name of `scope + seg + "/"` is `seg` when `seg` holds no `/`. */
  lemma FolderNameOfSegment(scope: string, seg: string)
    requires '/' !in seg
    ensures FolderName(scope, scope + seg + "/") == seg
  {
    var cp := scope + seg + "/";
    assert StartsWith(cp, scope);
    ReplaceFirstAtStart(cp, scope, "");
    assert cp[|scope|..] == seg + "/";
    assert Substitution("", "", scope, seg + "/") == "";
    assert ReplaceFirst(cp, scope, "") == seg + "/";
    var t := seg + "/";
    IndexOfSlashAfterSegment(seg);
    assert Substitution("", t[..|seg|], "/", t[|seg| + 1..]) == "";
    assert t[..|seg|] == seg && t[|seg| + 1..] == "";
  }

  /** A common prefix is the scope, one segment without `/`, and a `/`. */
  lemma CommonPrefixShape(m: map<Key, Obj>, scope: string, cp: Key)
    requires IsCommonPrefix(m, scope, Some('/'), cp)
    ensures StartsWith(cp, scope) && |cp| > |scope|
    ensures cp == scope + cp[|scope|..|cp| - 1] + "/" && '/' !in cp[|scope|..|cp| - 1]
  {
    var k :| k in m && StartsWith(k, scope) && RolledUp(k, scope, Some('/')) &&
             CommonPrefixOf(k, scope, '/') == cp;
  }

  /** Every folder of a page is named after the segment its prefix adds to the scope. */
  lemma FoldersOfPage(m: map<Key, Obj>, scope: string, page: Page)
    requires IsPage(m, scope, Some('/'), DefaultMaxKeys, page)
    ensures forall e :: e in Folders(scope, CommonPrefixes(page)) ==>
              e.prefix == scope + e.name + "/" && '/' !in e.name
  {
    var cps := CommonPrefixes(page);
    var fs := Folders(scope, cps);
    forall e | e in fs
      ensures e.prefix == scope + e.name + "/" && '/' !in e.name
    {
      var i :| 0 <= i < |fs| && fs[i] == e;
      FolderAt(scope, cps, i);
      var cp := cps[i];
      CommonPrefixShape(m, scope, cp);
      FolderNameOfSegment(scope, cp[|scope|..|cp| - 1]);
    }
  }

  lemma {:induction false} FolderAt(scope: string, cps: seq<Key>, i: nat)
    requires i < |cps|
    ensures Folders(scope, cps)[i] == FolderOf(scope, cps[i])
  {
    if i > 0 {
      FolderAt(scope, cps[1..], i - 1);
    }
  }

  /** A file's name is the last piece of its key split at `/`, and holds no `/`. */
  lemma FileNameIsLastSegment(o: ListedObject)
    ensures var parts := Split(o.key, '/'); FileOf(o).name == parts[|parts| - 1]
    ensures '/' !in FileOf(o).name
  {
    LastPieceIsSuffix(o.key, '/');
  }

  /** Under a scope, a file's key is its scope followed by its name. */
  lemma FileKeyIsScopeAndName(m: map<Key, Obj>, scope: string, page: Page)
    requires IsScope(scope)
    requires IsPage(m, scope, Some('/'), DefaultMaxKeys, page)
    ensures forall f :: f in Files(Some(scope), Contents(page)) ==> f.key == scope + f.name
  {
    var cs := Contents(page);
    var ks := Kept(Some(scope), cs);
    KeptMembers(Some(scope), cs);
    forall j | 0 <= j < |ks|
      ensures ks[j].key == scope + LastSegment(ks[j].key, '/')
    {
      var o := ks[j];
      assert o in ks;
      var i :| 0 <= i < |cs| && cs[i] == o;
      assert Direct(m, scope, Some('/'), o.key);
      DirectKeyIsScopeAndName(scope, o.key);
    }
  }

  lemma DirectKeyIsScopeAndName(scope: string, k: Key)
    requires IsScope(scope) && StartsWith(k, scope) && '/' !in k[|scope|..]
    ensures k == scope + LastSegment(k, '/')
  {
    var rest := k[|scope|..];
    assert k == scope + rest;
    var j := LastIndexOf(k, '/');
    if scope != "" {
      assert k[|scope| - 1] == '/';
    }
  }

  /** With `/` as delimiter, the marker filter only ever drops the scope's own marker. */
  lemma MarkerInContentsIsScope(m: map<Key, Obj>, scope: string, page: Page)
    requires IsPage(m, scope, Some('/'), DefaultMaxKeys, page)
    ensures forall o :: o in Contents(page) && EndsWith(o.key, "/") ==> o.key == scope
  {
    forall o | o in Contents(page) && EndsWith(o.key, "/")
      ensures o.key == scope
    {
      var i :| 0 <= i < |Contents(page)| && Contents(page)[i] == o;
      assert Direct(m, scope, Some('/'), o.key);
      var k := o.key;
      assert k[|k| - 1] == '/';
    }
  }
}
