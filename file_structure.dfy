/**
 * The file browser component's path rules and its state.  The current
 * folder is kept as breadcrumbs (the non-empty `/`-segments of the listed
 * prefix), and every request the component sends rebuilds the current
 * prefix from them.
 */
module FileStructure {
  import opened Wrappers
  import opened Strings
  import opened Sequences
  import opened ObjectStore
  import opened ObjectsRoute
  import opened SearchRoute
  import FilePreview
  import CreateFolderRoute
  import RenameRoute
  import DeleteRoute

  // ---------------------------------------------------------------------------
  // Breadcrumbs and the current prefix
  // ---------------------------------------------------------------------------

  /** `filter(Boolean)` on strings: the non-empty ones (NonEmptyInOrder, NonEmptyCounts). */
  function NonEmpty(parts: seq<string>): (r: seq<string>)
    ensures |r| <= |parts|
    ensures forall i :: 0 <= i < |r| ==> r[i] != ""
    ensures forall i :: 0 <= i < |r| ==> r[i] in parts
  {
    if |parts| == 0 then []
    else (if parts[0] != "" then [parts[0]] else []) + NonEmpty(parts[1..])
  }

  /** The filter keeps the pieces' order. */
  lemma {:induction false} NonEmptyInOrder(parts: seq<string>)
    ensures IsSubsequence(NonEmpty(parts), parts)
  {
    if |parts| > 0 {
      var rest := NonEmpty(parts[1..]);
      NonEmptyInOrder(parts[1..]);
      if parts[0] != "" {
        var r := NonEmpty(parts);
        assert r == [parts[0]] + rest;
        assert r[0] == parts[0] && r[1..] == rest;
      } else {
        assert NonEmpty(parts) == rest;
      }
    }
  }

  /** The filter keeps every non-empty piece as often as it occurs, and no empty one. */
  lemma {:induction false} NonEmptyCounts(parts: seq<string>)
    ensures forall x :: multiset(NonEmpty(parts))[x] == if x == "" then 0 else multiset(parts)[x]
  {
    if |parts| > 0 {
      var r, rest := NonEmpty(parts), NonEmpty(parts[1..]);
      NonEmptyCounts(parts[1..]);
      assert parts == [parts[0]] + parts[1..];
      assert multiset(parts) == multiset([parts[0]]) + multiset(parts[1..]);
      if parts[0] != "" {
        assert r == [parts[0]] + rest;
        assert multiset(r) == multiset([parts[0]]) + multiset(rest);
      } else {
        assert r == rest;
      }
    }
  }

  /** Breadcrumbs hold no empty segment and no `/`. */
  predicate WellFormedCrumbs(bc: seq<string>) {
    forall i :: 0 <= i < |bc| ==> bc[i] != "" && '/' !in bc[i]
  }

  /** The breadcrumbs of a listed prefix: its non-empty `/`-segments; none for the root. */
  function Breadcrumbs(prefix: string): (bc: seq<string>)
    ensures WellFormedCrumbs(bc)
  {
    if prefix != "" then
      var parts := Split(prefix, '/');
      assert forall i :: 0 <= i < |NonEmpty(parts)| ==> NonEmpty(parts)[i] in parts;
      NonEmpty(parts)
    else []
  }

  /** The current prefix: the breadcrumbs joined with `/` plus a trailing `/`, or the root. */
  function CurrentPrefix(bc: seq<string>): (p: string)
    ensures p == "" || EndsWith(p, "/")
    ensures p == "" <==> |bc| == 0
  {
    if |bc| > 0 then Join(bc, "/") + "/" else ""
  }

  /** A prefix the browser can show: the root, or `/`-terminated segments none of which is empty. */
  predicate WellFormedPrefix(p: string) {
    p == "" ||
    (EndsWith(p, "/") &&
     var parts := Split(p[..|p| - 1], '/'); forall i :: 0 <= i < |parts| ==> parts[i] != "")
  }

  lemma {:induction false} NonEmptyKeepsNonEmpty(parts: seq<string>)
    requires forall i :: 0 <= i < |parts| ==> parts[i] != ""
    ensures NonEmpty(parts) == parts
  {
    if |parts| > 0 {
      NonEmptyKeepsNonEmpty(parts[1..]);
    }
  }

  lemma {:induction false} NonEmptyDropsEmptyLast(parts: seq<string>)
    ensures NonEmpty(parts + [""]) == NonEmpty(parts)
  {
    if |parts| == 0 {
      assert NonEmpty([""]) == [] + NonEmpty([]);
    } else {
      assert (parts + [""])[1..] == parts[1..] + [""];
      NonEmptyDropsEmptyLast(parts[1..]);
    }
  }

  /** Crumbs to prefix and back: well-formed breadcrumbs are recovered from their prefix. */
  lemma CrumbsRoundTrip(bc: seq<string>)
    requires WellFormedCrumbs(bc)
    ensures Breadcrumbs(CurrentPrefix(bc)) == bc
  {
    if |bc| > 0 {
      var joined := Join(bc, "/");
      SplitJoin(bc, '/');
      SplitTrailing(joined, '/');
      NonEmptyDropsEmptyLast(bc);
      NonEmptyKeepsNonEmpty(bc);
    }
  }

  /** Prefix to crumbs and back: a well-formed prefix is rebuilt from its breadcrumbs. */
  lemma PrefixRoundTrip(p: string)
    requires WellFormedPrefix(p)
    ensures CurrentPrefix(Breadcrumbs(p)) == p
  {
    if p != "" {
      var a := p[..|p| - 1];
      assert p == a + ['/'];
      var parts := Split(a, '/');
      SplitTrailing(a, '/');
      NonEmptyDropsEmptyLast(parts);
      NonEmptyKeepsNonEmpty(parts);
      assert Breadcrumbs(p) == parts;
      JoinSplit(a, '/');
    }
  }

  /** An empty prefix has no breadcrumbs and a non-empty one keeps its segments in order. */
  lemma BreadcrumbsOfSegments(segments: seq<string>)
    requires WellFormedCrumbs(segments) && |segments| > 0
    ensures Breadcrumbs(Join(segments, "/")) == segments
    ensures Breadcrumbs("") == []
  {
    SplitJoin(segments, '/');
    NonEmptyKeepsNonEmpty(segments);
    assert segments[0] != "";
    JoinNotEmpty(segments, "/");
  }

  /** Empty segments, from a doubled or a trailing `/`, give no breadcrumb. */
  lemma BreadcrumbsSkipEmptySegments()
    ensures Breadcrumbs("a//b/") == ["a", "b"]
  {
    SplitOfDoubledSlash();
    NonEmptyOfDoubledSlash("a", "b");
  }

  lemma SplitOfDoubledSlash()
    ensures Split("a//b/", '/') == ["a", "", "b", ""]
  {
    assert "a//b/" == "a" + ['/'] + "/b/";
    assert "/b/" == "" + ['/'] + "b/";
    assert "b/" == "b" + ['/'] + "";
    SplitAround("a", '/', "/b/");
    SplitAround("", '/', "b/");
    SplitAround("b", '/', "");
    SplitNoSeparator("a", '/');
    SplitNoSeparator("", '/');
    SplitNoSeparator("b", '/');
  }

  lemma NonEmptyOfDoubledSlash(a: string, b: string)
    requires a != "" && b != ""
    ensures NonEmpty([a, "", b, ""]) == [a, b]
  {
    var e: seq<string> := [];
    var p1, p2, p3 := [""], [b, ""], ["", b, ""];
    NonEmptyCons("", e);
    NonEmptyCons(b, p1);
    NonEmptyCons("", p2);
    NonEmptyCons(a, p3);
    assert p1 == [""] + e;
    assert p2 == [b] + p1;
    assert p3 == [""] + p2;
    assert [a, "", b, ""] == [a] + p3;
  }

  /** One step of `filter(Boolean)`. */
  lemma NonEmptyCons(x: string, rest: seq<string>)
    ensures NonEmpty([x] + rest) == (if x != "" then [x] else []) + NonEmpty(rest)
  {
    assert ([x] + rest)[1..] == rest;
  }

  lemma JoinNotEmpty(parts: seq<string>, sep: string)
    requires |parts| > 0 && parts[0] != ""
    ensures Join(parts, sep) != ""
  {
  }

  // ---------------------------------------------------------------------------
  // Navigation
  // ---------------------------------------------------------------------------

  /** The end index `Array.prototype.slice(0, end)` stops at. */
  function SliceEnd(n: nat, end: int): (e: nat)
    ensures e <= n
    ensures end >= 0 ==> e == if end <= n then end else n
    ensures end < 0 ==> e == if n + end >= 0 then n + end else 0
  {
    if end < 0 then (if n + end >= 0 then n + end else 0)
    else if end <= n then end else n
  }

  /** `navigateUp`: no request without breadcrumbs, otherwise the parent folder's prefix. */
  function NavigateUpTarget(bc: seq<string>): Option<string> {
    if |bc| > 0 then
      var up := bc[..SliceEnd(|bc|, -1)];
      Some(if |up| > 0 then Join(up, "/") + "/" else "")
    else None
  }

  /** `navigateToBreadcrumb(index)`: `-1` is the root, otherwise the first `index + 1` crumbs. */
  function BreadcrumbTarget(bc: seq<string>, index: int): string {
    if index == -1 then ""
    else Join(bc[..SliceEnd(|bc|, index + 1)], "/") + "/"
  }

  /** Going up drops the last breadcrumb. */
  lemma NavigateUpIsParent(bc: seq<string>)
    requires |bc| > 0
    ensures NavigateUpTarget(bc) == Some(CurrentPrefix(bc[..|bc| - 1]))
    ensures WellFormedCrumbs(bc) ==> Breadcrumbs(NavigateUpTarget(bc).value) == bc[..|bc| - 1]
  {
    if WellFormedCrumbs(bc) {
      CrumbsRoundTrip(bc[..|bc| - 1]);
    }
  }

  /** The current prefix is its parent's prefix, the last breadcrumb and a `/`. */
  lemma ParentPlusLastCrumb(bc: seq<string>)
    requires |bc| > 0
    ensures CurrentPrefix(bc) == NavigateUpTarget(bc).value + bc[|bc| - 1] + "/"
  {
    var init := bc[..|bc| - 1];
    assert bc == init + [bc[|bc| - 1]];
    if |init| > 0 {
      JoinSnoc(init, bc[|bc| - 1], "/");
    }
  }

  /** Clicking crumb `index` (a crumb on screen) goes to the prefix of the first `index + 1` crumbs. */
  lemma BreadcrumbTargetIsPrefix(bc: seq<string>, index: int)
    requires -1 <= index < |bc|
    ensures BreadcrumbTarget(bc, index) == CurrentPrefix(bc[..index + 1])
    ensures index == |bc| - 1 ==> BreadcrumbTarget(bc, index) == CurrentPrefix(bc)
  {
    if index == |bc| - 1 {
      assert bc[..index + 1] == bc;
    }
  }

  /**
   * The slice end is normalised as JavaScript does, so an index below `-1`
   * that empties the slice targets `/`, not the root.
   */
  lemma BreadcrumbBelowRootIsSlash()
    ensures BreadcrumbTarget(["a"], -2) == "/"
  {
  }

  // ---------------------------------------------------------------------------
  // Request keys
  // ---------------------------------------------------------------------------

  /** A listed entry the user acted on. */
  datatype Item = FolderItem(folder: FolderEntry) | FileItem(file: FileEntry) {
    predicate IsFolder() { FolderItem? }
  }

  /** `handleDelete` and `handleRename` address a folder by its prefix and a file by its key. */
  function ItemKey(item: Item): Key {
    match item
    case FolderItem(f) => f.prefix
    case FileItem(f) => f.key
  }

  /** `handleUpload`: the file goes into the current folder under its own name. */
  function UploadKey(bc: seq<string>, fileName: string): Key {
    CurrentPrefix(bc) + fileName
  }

  /** `handleRename`: the new key is in the current folder; a folder's ends in `/`. */
  function RenameNewKey(bc: seq<string>, newName: string, isFolder: bool): Key {
    CurrentPrefix(bc) + newName + (if isFolder then "/" else "")
  }

  /** The `isFolder` query parameter `handleDelete` sends: the boolean's text. */
  function FolderFlagText(isFolder: bool): string {
    if isFolder then "true" else "false"
  }

  /** The delete route's folder mode is on exactly for folder items. */
  lemma DeleteFlagRoundTrip(item: Item)
    ensures DeleteRoute.IsFolderFlag(Some(FolderFlagText(item.IsFolder()))) <==> item.IsFolder()
  {
  }

  /** An uploaded file with a plain name is a direct object of the current folder, named as uploaded. */
  lemma UploadKeyIsInCurrentFolder(bc: seq<string>, fileName: string)
    requires '/' !in fileName
    ensures var k := UploadKey(bc, fileName);
            StartsWith(k, CurrentPrefix(bc)) && '/' !in k[|CurrentPrefix(bc)|..] &&
            k == CurrentPrefix(bc) + LastSegment(k, '/')
  {
    var scope := CurrentPrefix(bc);
    var k := UploadKey(bc, fileName);
    assert k[|scope|..] == fileName;
    assert k == scope + k[|scope|..];
    DirectKeyIsScopeAndName(scope, k);
  }

  /**
   * A folder renamed to a plain name stays in the current folder: opening it
   * shows the current breadcrumbs plus the new name, and the listing of the
   * current folder names it `newName`.
   */
  lemma RenamedFolderKey(bc: seq<string>, newName: string)
    requires WellFormedCrumbs(bc) && newName != "" && '/' !in newName
    ensures var k := RenameNewKey(bc, newName, true);
            Breadcrumbs(k) == bc + [newName] && FolderName(CurrentPrefix(bc), k) == newName
  {
    var bc' := bc + [newName];
    assert bc'[..|bc'| - 1] == bc;
    ParentPlusLastCrumb(bc');
    NavigateUpIsParent(bc');
    CrumbsRoundTrip(bc');
    FolderNameOfSegment(CurrentPrefix(bc), newName);
  }

  /**
   * Renaming a folder of the current listing to a different plain name is a
   * rename between siblings: neither key is a prefix of the other.
   */
  lemma FolderRenameInPlaceHasNoOverlap(bc: seq<string>, seg: string, newName: string)
    requires '/' !in seg && '/' !in newName && seg != newName
    ensures RenameRoute.NoOverlap(CurrentPrefix(bc) + seg + "/", RenameNewKey(bc, newName, true))
  {
    var s := CurrentPrefix(bc);
    var o, n := s + seg + "/", s + newName + "/";
    assert n == RenameNewKey(bc, newName, true);
    if StartsWith(n, o) {
      SegmentPrefix(s, seg, newName);
    }
    if StartsWith(o, n) {
      SegmentPrefix(s, newName, seg);
    }
  }

  /** `s + a + "/"` begins `s + b + "/"` only when `a == b`, for names without `/`. */
  lemma SegmentPrefix(s: string, a: string, b: string)
    requires '/' !in a && '/' !in b
    requires StartsWith(s + b + "/", s + a + "/")
    ensures a == b
  {
    var o, n := s + a + "/", s + b + "/";
    assert o[|s| + |a|] == '/';
    assert n[..|o|] == o;
    assert n[|s| + |a|] == '/';
    assert |a| == |b|;
    assert a == o[|s|..|s| + |a|] == n[|s|..|s| + |b|] == b;
  }

  /**
   * `handleCreateFolder` sends the current prefix, so once the marker is
   * written, the refreshed listing of the current folder shows the new
   * folder under its name, and opening it extends the breadcrumbs by it.
   */
  lemma CreatedFolderAppearsInCurrentFolder(bc: seq<string>, folderName: string, m: map<Key, Obj>, page: Page)
    requires WellFormedCrumbs(bc) && folderName != "" && '/' !in folderName
    requires var scope := CurrentPrefix(bc);
             IsPage(m[CreateFolderRoute.FolderKey(folderName, Some(scope)) := CreateFolderRoute.Marker],
                    scope, Some('/'), DefaultMaxKeys, page)
    requires !page.truncated
    ensures var f := FolderEntry(folderName, CreateFolderRoute.FolderKey(folderName, Some(CurrentPrefix(bc))));
            f in Translate(ListRequest(CurrentPrefix(bc)), page).folders && Breadcrumbs(f.prefix) == bc + [folderName]
  {
    var scope := CurrentPrefix(bc);
    CreateFolderRoute.CreatedFolderIsListed(m, scope, folderName, page);
    assert Translate(ListRequest(scope), page).folders == Translate(Some(scope), page).folders;
    RenamedFolderKey(bc, folderName);
  }

  /**
   * Deleting a folder of a listing: the browser sends its prefix in folder
   * mode, and a complete listing of that prefix deleted without per-key
   * errors removes exactly the keys inside the folder.
   */
  lemma DeleteFolderItem(m: map<Key, Obj>, prefixParam: Option<string>, listPage: Page, f: FolderEntry, page: Page)
    requires IsPage(m, prefixParam.GetOr(""), Some('/'), DefaultMaxKeys, listPage)
    requires f in Translate(prefixParam, listPage).folders
    requires IsPage(m, ItemKey(FolderItem(f)), None, DefaultMaxKeys, page) && !page.truncated
    ensures DeleteRoute.IsFolderFlag(Some(FolderFlagText(FolderItem(f).IsFolder())))
    ensures forall x :: x in DeleteRoute.AfterBatch(m, Keys(Contents(page)), {}) <==>
              x in m && !StartsWith(x, prefixParam.GetOr("") + f.name + "/")
  {
    FoldersOfPage(m, prefixParam.GetOr(""), listPage);
    DeleteRoute.CompleteFolderDelete(m, f.prefix, page);
  }

  /**
   * A file of a listing is addressed by its key, which is the scope followed
   * by the name on screen; the delete is sent in single-key mode.
   */
  lemma FileItemKey(m: map<Key, Obj>, scope: string, page: Page, f: FileEntry)
    requires "" !in m && IsScope(scope)
    requires IsPage(m, scope, Some('/'), DefaultMaxKeys, page)
    requires f in Translate(Some(scope), page).files
    ensures ItemKey(FileItem(f)) == scope + f.name && ItemKey(FileItem(f)) in m
    ensures !DeleteRoute.IsFolderFlag(Some(FolderFlagText(FileItem(f).IsFolder())))
  {
    var fs := Files(Some(scope), Contents(page));
    assert f in fs;
    FileKeyIsScopeAndName(m, scope, page);
    FilesOfPage(m, Some(scope), page);
    assert f.key == scope + f.name && f.key in m;
  }

  // ---------------------------------------------------------------------------
  // Search and file icons
  // ---------------------------------------------------------------------------

  /** `handleSearch`: no request for a query that is blank once trimmed; otherwise the query, untrimmed. */
  function SearchRequest(query: string): (r: Option<string>)
    ensures r.None? <==> forall i :: 0 <= i < |query| ==> IsWhitespace(query[i])
    ensures r.Some? ==> r.value == query && Truthy(r)
  {
    TrimEmpty(query);
    if Trim(query) == "" then None else Some(query)
  }

  datatype Icon = ImageIcon | TextIcon | GenericIcon

  const IconImageExtensions: seq<string> := ["jpg", "jpeg", "png", "gif", "svg", "webp"]
  const IconTextExtensions: seq<string> := ["txt", "md", "json", "xml", "csv"]

  /** `getFileIcon`: an empty extension, or one in neither set, gets the generic icon. */
  function FileIcon(fileName: string): (icon: Icon)
    ensures icon == ImageIcon <==> FilePreview.Extension(fileName) in IconImageExtensions
    ensures icon == TextIcon <==> FilePreview.Extension(fileName) in IconTextExtensions
  {
    var e := FilePreview.Extension(fileName);
    if e == "" then GenericIcon
    else if e in IconImageExtensions then ImageIcon
    else if e in IconTextExtensions then TextIcon
    else GenericIcon
  }

  /** Every name with an image icon previews as an image, and every text icon is a text file. */
  lemma IconAgreesWithPreview(fileName: string)
    ensures FileIcon(fileName) == ImageIcon ==> FilePreview.RenderPreview(fileName) == FilePreview.ImagePreview
    ensures FileIcon(fileName) == TextIcon ==> FilePreview.IsText(fileName)
  {
  }

  /** `bmp` previews as an image but gets the generic icon. */
  lemma BmpIconIsGeneric(fileName: string)
    requires FilePreview.Extension(fileName) == "bmp"
    ensures FileIcon(fileName) == GenericIcon
    ensures FilePreview.RenderPreview(fileName) == FilePreview.ImagePreview
  {
  }

  // ---------------------------------------------------------------------------
  // The component's state
  // ---------------------------------------------------------------------------

  /** The `prefix` query parameter `fetchData` sends: none for the root. */
  function ListRequest(prefix: string): (r: Option<string>)
    ensures r.GetOr("") == prefix
  {
    if prefix != "" then Some(prefix) else None
  }

  /**
   * The browser's state.  Each request's answer is a parameter: the
   * response the server sent, or a failure.
   */
  class Browser {
    var breadcrumbs: seq<string>
    var data: Option<ListResponse>
    var hasError: bool
    var searchResults: seq<SearchResult>
    var showSearch: bool

    ghost predicate Valid()
      reads this
    {
      WellFormedCrumbs(breadcrumbs) && (data.Some? ==> data.value.Listed?)
    }

    constructor ()
      ensures Valid()
      ensures breadcrumbs == [] && data == None && !hasError && searchResults == [] && !showSearch
    {
      breadcrumbs, data, hasError, searchResults, showSearch := [], None, false, [], false;
    }

    /** The prefix every request is built from. */
    function Prefix(): (p: string)
      reads this
      ensures p == "" || EndsWith(p, "/")
    {
      CurrentPrefix(breadcrumbs)
    }

    /**
     * `fetchData(prefix)`: a listing replaces the data and the breadcrumbs;
     * a failure clears the data, sets the error and keeps the breadcrumbs.
     */
    method FetchData(prefix: string, response: ListResponse)
      requires Valid()
      modifies this
      ensures Valid()
      ensures response.Listed? ==> data == Some(response) && breadcrumbs == Breadcrumbs(prefix) && !hasError
      ensures response.ListFailed? ==> data == None && breadcrumbs == old(breadcrumbs) && hasError
      ensures searchResults == old(searchResults) && showSearch == old(showSearch)
    {
      hasError := false;
      if response.ListFailed? {
        hasError := true;
        data := None;
        return;
      }
      data := Some(response);
      breadcrumbs := Breadcrumbs(prefix);
    }

    /** `navigateUp`: with breadcrumbs, the parent is fetched and becomes current on success. */
    method NavigateUp(response: ListResponse)
      requires Valid()
      modifies this
      ensures Valid()
      ensures old(breadcrumbs) == [] ==> unchanged(this)
      ensures old(breadcrumbs) != [] && response.Listed? ==>
                breadcrumbs == old(breadcrumbs)[..|old(breadcrumbs)| - 1] && data == Some(response) && !hasError
      ensures old(breadcrumbs) != [] && response.ListFailed? ==>
                breadcrumbs == old(breadcrumbs) && data == None && hasError
      ensures searchResults == old(searchResults) && showSearch == old(showSearch)
    {
      var target := NavigateUpTarget(breadcrumbs);
      if target.Some? {
        NavigateUpIsParent(breadcrumbs);
        FetchData(target.value, response);
      }
    }

    /**
     * `navigateToBreadcrumb(index)`: `-1` is the root; a crumb on screen
     * (`0 <= index < |breadcrumbs|`) becomes the last crumb.
     */
    method NavigateToBreadcrumb(index: int, response: ListResponse)
      requires Valid()
      modifies this
      ensures Valid()
      ensures response.Listed? ==>
                breadcrumbs == Breadcrumbs(BreadcrumbTarget(old(breadcrumbs), index)) &&
                data == Some(response) && !hasError
      ensures response.Listed? && -1 <= index < |old(breadcrumbs)| ==> breadcrumbs == old(breadcrumbs)[..index + 1]
      ensures response.ListFailed? ==> breadcrumbs == old(breadcrumbs) && data == None && hasError
      ensures searchResults == old(searchResults) && showSearch == old(showSearch)
    {
      var target := BreadcrumbTarget(breadcrumbs, index);
      if -1 <= index < |breadcrumbs| {
        BreadcrumbTargetIsPrefix(breadcrumbs, index);
        CrumbsRoundTrip(breadcrumbs[..index + 1]);
      }
      FetchData(target, response);
    }

    /**
     * The refresh after a successful upload, rename, delete or folder
     * creation: the current folder is fetched again and stays current.
     */
    method Refresh(response: ListResponse)
      requires Valid()
      modifies this
      ensures Valid()
      ensures breadcrumbs == old(breadcrumbs)
      ensures response.Listed? ==> data == Some(response) && !hasError
      ensures response.ListFailed? ==> data == None && hasError
      ensures searchResults == old(searchResults) && showSearch == old(showSearch)
    {
      CrumbsRoundTrip(breadcrumbs);
      FetchData(Prefix(), response);
    }

    /**
     * `handleSearch(query)`: a blank query clears and hides the results
     * without a request; otherwise a successful answer is shown and a
     * failed one changes nothing.
     */
    method HandleSearch(query: string, response: SearchResponse)
      requires Valid()
      modifies this
      ensures Valid()
      ensures breadcrumbs == old(breadcrumbs) && data == old(data) && hasError == old(hasError)
      ensures SearchRequest(query).None? ==> searchResults == [] && !showSearch
      ensures SearchRequest(query).Some? && response.Results? ==>
                searchResults == response.results && showSearch
      ensures SearchRequest(query).Some? && !response.Results? ==>
                searchResults == old(searchResults) && showSearch == old(showSearch)
    {
      if Trim(query) == "" {
        searchResults, showSearch := [], false;
        return;
      }
      if response.Results? {
        searchResults, showSearch := response.results, true;
      }
    }
  }
}
