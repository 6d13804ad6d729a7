# storagesolutions: folders and files over a flat object store

This project is a Dafny model of the core of a small S3 file browser. S3 holds
one flat bucket of keys. The application makes it look like folders and files,
using these rules:

- a key ending in `/` is a folder marker;
- a listing with delimiter `/` splits the scope into sub-folders (common
  prefixes) and files (contents);
- rename and delete of a folder act on every key that starts with its prefix.

The model covers the five route handlers and the client-side path rules of the
browser component:

- `GET /api/objects` lists one folder level;
- `POST /api/create-folder` writes an empty marker object;
- `PUT /api/rename` copies, then deletes, object by object, and aborts at the
  first failure;
- `DELETE /api/delete` deletes one key, or the listed keys as one batch;
- `GET /api/search` does a case-insensitive substring search over at most 1000
  keys;
- the browser component holds breadcrumbs, navigation and the keys of the
  requests it sends, plus the file classifiers of the preview dialog.

## Modules

- `ObjectStore` (`store.dfy`) is the bucket. It is a class with a
  `map<Key, Obj>` field. Each SDK call is a method that may fail
  nondeterministically, and callers know only its postcondition. For
  ListObjectsV2, one page is any enumeration satisfying `IsPage`:
  - distinct objects under the prefix that the delimiter does not roll up,
    with their sizes;
  - distinct common prefixes;
  - at most `MaxKeys` entries;
  - `IsTruncated` exactly when something was left out. A truncated page may
    hold fewer than `MaxKeys` entries.
- `Strings` (`strings.dfy`) holds the JavaScript string primitives the code
  uses: `split`, `join`, `lastIndexOf`, `indexOf`, `includes`, `replace` with
  a string pattern (including its `$$`, `$&`, `` $` `` and `$'` replacement
  patterns), `toLowerCase` and `trim`.
- `ObjectsRoute`, `CreateFolderRoute`, `RenameRoute`, `DeleteRoute` and
  `SearchRoute` hold the handlers. Each takes its parsed request parameters
  as `Option` values, since any of them may be missing. The exception is
  rename's `isFolder`, which is a `bool` whose truthiness the code tests.
- `FilePreview` holds the preview dialog's extension classifiers and the
  branch order of `renderPreview`.
- `FileStructure` holds the browser component: breadcrumbs, the current
  prefix, navigation targets, request keys, search gating and `getFileIcon`.
  The class `Browser` holds the state that `fetchData`, the navigation
  handlers and `handleSearch` overwrite. The answer to each request the
  browser sends is a method parameter.

Three behaviours of the code are worth stating plainly:

- `create-folder` accepts any truthy name, including one containing `/`
  (`CreateFolderRoute.Post`).
- Folder rename and delete act on one listing page of at most 1000 keys.
  Rename stops at the first failed copy or delete (`RenameRoute.Put`,
  `AbortState`).
- The folder name is found by removing the first occurrence of the `prefix`
  parameter, then the first `/`. For every common prefix a listing returns,
  that is the segment the common prefix adds to the scope
  (`FolderNameOfSegment`, `FoldersOfPage`).

## Model

| member | source | states |
|---|---|---|
| Strings.Split | components/ui/file-structure.tsx:155 | `split` on one character: never empty, and no piece holds the separator |
| Strings.JoinSplit | components/ui/file-structure.tsx:155 | joining the pieces of a split with the separator gives back the string |
| Strings.SplitJoin | components/ui/file-structure.tsx:155 | splitting a join of separator-free pieces gives back the pieces |
| Strings.Join | components/ui/file-structure.tsx:177 | `join`: the pieces with the separator between them; `JoinSplit` and `SplitJoin` make it the inverse of `Split` |
| Strings.LastIndexOf | app/api/search/route.ts:38 | `lastIndexOf`: -1 or a position holding the character, with none after it |
| Strings.LastSegment | app/api/objects/route.ts:46 | the text after the last separator holds no separator |
| Strings.LastPieceIsSuffix | app/api/objects/route.ts:46 | `split(c).pop()` is the text after the last `c`, or the whole string |
| Strings.IndexOf | app/api/objects/route.ts:36 | `indexOf`: the first match position, or -1 when there is none |
| Strings.Substitution | app/api/rename/route.ts:35 | GetSubstitution for a string pattern: `$$`, `$&`, `` $` `` and `$'` are expanded and anything else is copied; `SubstitutionPlain` shows a `$`-free replacement is copied unchanged |
| Strings.ReplaceFirst | app/api/rename/route.ts:35 | `replace` with a string pattern: only the first occurrence is rewritten, and no occurrence leaves the string alone; `ReplaceFirstAtStart` covers a matching start |
| Strings.ReplaceFirstAtStart | app/api/rename/route.ts:35 | `replace` of a pattern the string starts with rewrites position 0 |
| Strings.SubstitutionPlain | app/api/rename/route.ts:35 | a replacement without `$` is inserted literally |
| Strings.ToLower | app/api/search/route.ts:31 | `toLowerCase` maps `A`–`Z` to `a`–`z` and keeps every other character |
| Strings.ToLowerLastSegment | components/ui/file-preview.tsx:20 | lowercasing and taking the last `.`-piece commute |
| Strings.Trim | components/ui/file-structure.tsx:236 | `trim()` drops leading and trailing ECMAScript white space; `TrimEmpty` says when nothing is left |
| Strings.TrimEmpty | components/ui/file-structure.tsx:236 | `trim()` is empty exactly when every character is ECMAScript white space |
| ObjectStore.CommonPrefixOf | app/api/objects/route.ts:24-28 | a rolled-up key's common prefix is the prefix, the next segment and the delimiter, and starts the key |
| ObjectStore.Bucket.Put | app/api/create-folder/route.ts:26-33 | PutObject writes the key on success and changes nothing on failure; no key is ever empty |
| ObjectStore.Bucket.Copy | app/api/rename/route.ts:38-43 | CopyObject fails for a missing source; on success the destination gets the source's object; no key is ever empty |
| ObjectStore.Bucket.Delete | app/api/rename/route.ts:46-50 | DeleteObject removes the key on success, nothing on failure; no key is ever empty |
| ObjectStore.Bucket.DeleteMany | app/api/delete/route.ts:35-42 | DeleteObjects takes 1 to 1000 keys and removes those it does not report as errors; no key is ever empty |
| ObjectStore.Bucket.List | app/api/objects/route.ts:24-30 | ListObjectsV2 returns one page satisfying `IsPage` and changes nothing |
| ObjectStore.NothingUnderPrefixListsNothing | app/api/delete/route.ts:27-34 | a prefix no stored key starts with lists no objects and no common prefixes, and the page is complete |
| ObjectsRoute.Get | app/api/objects/route.ts:21-66 | a failed listing is a 500 with no entries; otherwise the response translates a valid page for `prefix ?? ''`, echoes that prefix, and lists only stored files under it that are neither the scope nor markers |
| ObjectsRoute.Folders | app/api/objects/route.ts:35-39 | one folder per common prefix, in store order, whose `prefix` is the common prefix unchanged |
| ObjectsRoute.FolderAt | app/api/objects/route.ts:35-39 | the i-th folder is built from the i-th common prefix |
| ObjectsRoute.FolderName | app/api/objects/route.ts:36 | the name is the common prefix with the first occurrence of the raw prefix removed, then the first `/`; `FolderNameOfSegment` shows that this is the added segment |
| ObjectsRoute.KeepsFile | app/api/objects/route.ts:43 | the filter test: the key is not the raw `prefix` parameter and does not end in `/`; `KeptMembers` relates it to the listing |
| ObjectsRoute.FileOf | app/api/objects/route.ts:44-50 | one object becomes an entry with its key, its size and the last `/`-piece of its key as name; `FileNameIsLastSegment` ties the name to `split('/').pop()` |
| ObjectsRoute.Files | app/api/objects/route.ts:42-50 | no more files than listed objects, each passing the filter with a `/`-free name |
| ObjectsRoute.Translate | app/api/objects/route.ts:35-57 | a listed page is always a success that echoes `prefix ?? ''`, with one folder per common prefix and at most one file per object |
| ObjectsRoute.Kept | app/api/objects/route.ts:43 | every kept object passes the filter: not the raw `prefix`, not `/`-terminated |
| ObjectsRoute.KeptMembers | app/api/objects/route.ts:43 | an object is kept exactly when it is listed and passes the filter |
| ObjectsRoute.KeptInStoreOrder | app/api/objects/route.ts:42-43 | the files are a subsequence of the contents, in store order |
| ObjectsRoute.FilesOfAllMembers | app/api/objects/route.ts:44-50 | the mapped entries are exactly the entries of the input objects |
| ObjectsRoute.FilesMembers | app/api/objects/route.ts:42-50 | a file entry is listed exactly when it is the entry of a kept object |
| ObjectsRoute.FilesOfPage | app/api/objects/route.ts:42-50 | no file entry is the scope itself or a marker, and each is a stored key under the scope |
| ObjectsRoute.AbsentPrefixIsRoot | app/api/objects/route.ts:22-56 | a missing `prefix` answers exactly as the empty one |
| ObjectsRoute.KeptIgnoresEmptyPrefix | app/api/objects/route.ts:43 | with non-empty keys, filtering against no prefix and against `''` agree |
| ObjectsRoute.EmptyPageIsEmptyListing | app/api/objects/route.ts:35-57 | absent `CommonPrefixes` and `Contents` are an empty successful listing |
| ObjectsRoute.IndexOfSlashAfterSegment | app/api/objects/route.ts:36 | the first `/` of `seg + "/"` is the last character when `seg` has none |
| ObjectsRoute.FolderNameOfSegment | app/api/objects/route.ts:36 | the folder name of `scope + seg + "/"` is `seg` |
| ObjectsRoute.CommonPrefixShape | app/api/objects/route.ts:35-36 | every listed common prefix is the scope, one `/`-free segment and `/` |
| ObjectsRoute.FoldersOfPage | app/api/objects/route.ts:35-39 | every folder's prefix is the scope, its name and `/`, and its name has no `/` |
| ObjectsRoute.FileNameIsLastSegment | app/api/objects/route.ts:46 | a file's name is the last `/`-piece of its key and holds no `/` |
| ObjectsRoute.DirectKeyIsScopeAndName | app/api/objects/route.ts:42-47 | a key with no `/` after a scope is that scope followed by its last segment |
| ObjectsRoute.FileKeyIsScopeAndName | app/api/objects/route.ts:42-47 | under a scope, every file key is the scope followed by the file's name |
| ObjectsRoute.MarkerInContentsIsScope | app/api/objects/route.ts:43 | the only `/`-terminated key in a delimiter listing's contents is the scope's marker |
| CreateFolderRoute.FolderKey | app/api/create-folder/route.ts:24 | the key is `currentPrefix + folderName + "/"` whichever branch is taken, so it always ends in `/` |
| CreateFolderRoute.Post | app/api/create-folder/route.ts:12-46 | a falsy name is a 400 with no put; otherwise the only change is a zero-byte `application/x-directory` marker at `FolderKey`, which the 200 answer repeats, or nothing on a 500; no key is ever empty |
| CreateFolderRoute.PostOutcome | app/api/create-folder/route.ts:12-46 | the answers of the handler: a 400 for a falsy name, otherwise the marker put with a 200 or an unchanged store with a 500 |
| CreateFolderRoute.RepeatedCreate | app/api/create-folder/route.ts:12-46 | after a successful create, posting the same request again leaves the store unchanged, is never a 400, and a second success names the same key |
| CreateFolderRoute.MarkerRollsUpToItself | app/api/create-folder/route.ts:24 | under its scope, a one-segment marker rolls up into its own key |
| CreateFolderRoute.CreatedFolderIsListed | app/api/create-folder/route.ts:24-33 | after the put, a complete listing of the scope shows the folder under its name with the marker key as prefix |
| RenameRoute.Put | app/api/rename/route.ts:12-78 | falsy keys are a 400 with no store call; a file is copied then deleted; a folder is listed once and moved key by key in listing order; a failed listing changes nothing; an empty listing, or a prefix with nothing under it, is a 200 that changes nothing; a failure after the listing leaves the moved prefix, plus a copy when the delete failed; no key is ever empty |
| RenameRoute.NewObjectKey | app/api/rename/route.ts:35 | the new key is `obj.Key.replace(oldKey, newKey)`; `NewKeyOfPrefixed` gives its value for a `$`-free `newKey` |
| RenameRoute.Step | app/api/rename/route.ts:34-51 | one loop step: a truthy listed key is copied to its new key and then deleted; `CleanRenameStep` shows that a clean rename stays clean |
| RenameRoute.MoveAll | app/api/rename/route.ts:33-51 | the store after the loop over the listed keys in order; `MoveAllUntouched`, `MoveAllKeepsUnlisted`, `MoveAllWritesOnlyNewKeys` and `CleanRename` characterise it |
| RenameRoute.FirstOccurrenceAtStart | app/api/rename/route.ts:35 | for a listed key, `replace` hits the occurrence at position 0 |
| RenameRoute.NewKeyOfPrefixed | app/api/rename/route.ts:35 | without `$` in `newKey`, key `k` maps to `newKey + k[|oldKey|..]` |
| RenameRoute.DollarPatternInNewKey | app/api/rename/route.ts:35 | with `$&` in `newKey`, the matched prefix is spliced into the new key |
| RenameRoute.ListedKeysUnderPrefix | app/api/rename/route.ts:25-30 | every listed key is stored and starts with `oldKey` |
| RenameRoute.NewKeyOutsideOld | app/api/rename/route.ts:35 | when neither key is a prefix of the other, no new key lies under the old prefix |
| RenameRoute.MoveAllUntouched | app/api/rename/route.ts:33-51 | a key that is neither listed nor a destination keeps its presence and object |
| RenameRoute.MoveAllKeepsUnlisted | app/api/rename/route.ts:25-51 | keys that are not listed, including every key outside `oldKey`, are never deleted |
| RenameRoute.MoveAllWritesOnlyNewKeys | app/api/rename/route.ts:33-51 | every key after the loop existed before or is a listed key's new key |
| RenameRoute.CleanRename | app/api/rename/route.ts:33-51 | a non-overlapping, `$`-free rename removes each listed key and puts its object at the new key |
| RenameRoute.CleanRenameStep | app/api/rename/route.ts:37-50 | one more copy-then-delete keeps a clean rename clean |
| RenameRoute.AbortState | app/api/rename/route.ts:33-76 | at an abort, earlier objects are moved, the current and later ones are still at their old keys, and a copy-only abort added just the new key |
| RenameRoute.FolderRenameOfPage | app/api/rename/route.ts:25-53 | a successful folder rename moves the page's objects, leaves keys under neither prefix alone, and empties the old prefix when the page was complete |
| RenameRoute.TruncatedListingLeavesObjects | app/api/rename/route.ts:25-30 | with a truncated page, some object under the old prefix stays put |
| RenameRoute.MovedFile | app/api/rename/route.ts:56-67 | a file rename puts the old object at `newKey`, removes `oldKey`, and touches no other key |
| DeleteRoute.Delete | app/api/delete/route.ts:12-62 | a falsy key is a 400; a failed call changes nothing; a file delete removes the key; a folder delete fails only when the listing or the batch does; an empty listing, or a prefix with nothing under it, is a 200 that changes nothing; otherwise it removes the listed keys except per-key errors and answers 200; no key is ever empty |
| DeleteRoute.IsFolderFlag | app/api/delete/route.ts:16 | folder mode is on only for `isFolder` exactly `true`; `DeleteFlagRoundTrip` relates it to what the browser sends |
| DeleteRoute.FolderDeleteStaysUnderPrefix | app/api/delete/route.ts:27-42 | a folder delete leaves every key outside the prefix unchanged |
| DeleteRoute.CompleteFolderDelete | app/api/delete/route.ts:27-42 | a complete, error-free folder delete removes exactly the keys that start with the prefix |
| DeleteRoute.SiblingSharingPrefixIsDeleted | app/api/delete/route.ts:27-30 | prefix `docs` without `/` also removes `docs-old.txt` |
| SearchRoute.Get | app/api/search/route.ts:12-53 | a falsy query is a 400; otherwise the results are the matches of one whole-bucket listing, at most 1000 of them |
| SearchRoute.Matches | app/api/search/route.ts:31 | the lowercased key contains the lowercased query; `MatchingIgnoresCase` shows the case of either side does not matter |
| SearchRoute.ResultName | app/api/search/route.ts:34 | the name is the whole key or a non-empty, `/`-free piece of it |
| SearchRoute.ResultPath | app/api/search/route.ts:38 | the path starts the key and is empty or ends in `/` |
| SearchRoute.ResultOf | app/api/search/route.ts:32-39 | one listed object becomes a result with its key, name, path and size; `MissingSizeIsZero` and `PathAndNameMakeKey` characterise it |
| SearchRoute.SearchResults | app/api/search/route.ts:30-39 | no more results than listed objects, each matching the query and starting with its path |
| SearchRoute.Matching | app/api/search/route.ts:30-31 | every match's lowercase key contains the lowercase query |
| SearchRoute.MatchingMembers | app/api/search/route.ts:30-31 | an object is a match exactly when it is listed and matches |
| SearchRoute.MatchingInListingOrder | app/api/search/route.ts:30-31 | the matches are a subsequence of the listing |
| SearchRoute.MatchingIgnoresCase | app/api/search/route.ts:31 | queries equal after lowercasing have the same matches |
| SearchRoute.CaseInsensitiveSearch | app/api/search/route.ts:31 | a query and its lowercase form give identical results |
| SearchRoute.MarkerKeysAreResults | app/api/search/route.ts:30-39 | folder markers that match are not filtered out |
| SearchRoute.PathAndNameMakeKey | app/api/search/route.ts:34-38 | for a key not ending in `/`, `path + name` is the key and the name has no `/` |
| SearchRoute.MarkerNameAndPath | app/api/search/route.ts:34-38 | a marker's name and path are both the whole key |
| SearchRoute.MissingSizeIsZero | app/api/search/route.ts:35 | a missing size is reported as 0 |
| FilePreview.Extension | components/ui/file-preview.tsx:19-21 | the extension holds no `.` |
| FilePreview.ExtensionIsLastPiece | components/ui/file-preview.tsx:19-21 | the extension is the lowercased last `.`-piece |
| FilePreview.ExtensionWithoutDot | components/ui/file-preview.tsx:19-21 | a name without `.` is its own extension, lowercased |
| FilePreview.ExtensionIgnoresCase | components/ui/file-preview.tsx:20 | names equal after lowercasing have the same extension |
| FilePreview.IsImage | components/ui/file-preview.tsx:23-26 | the extension is one of the seven image extensions; `ClassificationIgnoresCase` and `UpperCaseImageName` show it ignores case |
| FilePreview.IsText | components/ui/file-preview.tsx:28-31 | the extension is one of the eleven text extensions; `TextFilesAreDownloaded` shows no preview branch takes them |
| FilePreview.IsPdf | components/ui/file-preview.tsx:33-35 | the extension is `pdf`; `RenderPreview` gives it the second branch |
| FilePreview.IsVideo | components/ui/file-preview.tsx:37-40 | the extension is one of the six video extensions; `ExtensionSetsDisjoint` keeps them apart from the others |
| FilePreview.IsAudio | components/ui/file-preview.tsx:42-45 | the extension is one of the five audio extensions; `ExtensionSetsDisjoint` keeps them apart from the others |
| FilePreview.ClassificationIgnoresCase | components/ui/file-preview.tsx:19-45 | every classifier and the rendered branch ignore letter case |
| FilePreview.UpperCaseImageName | components/ui/file-preview.tsx:23-26 | `A.PNG` is an image, as `a.png` is |
| FilePreview.ExtensionSetsDisjoint | components/ui/file-preview.tsx:24-44 | the image, text, pdf, video and audio sets are pairwise disjoint |
| FilePreview.RenderPreview | components/ui/file-preview.tsx:47-115 | each branch is taken exactly when its test holds; the download fallback exactly when none does |
| FilePreview.TextFilesAreDownloaded | components/ui/file-preview.tsx:47-115 | text files reach the download fallback |
| FilePreview.BmpIsPreviewImage | components/ui/file-preview.tsx:24 | `bmp` previews as an image |
| FileStructure.NonEmpty | components/ui/file-structure.tsx:155 | `filter(Boolean)` keeps only non-empty pieces, all taken from the input |
| FileStructure.NonEmptyInOrder | components/ui/file-structure.tsx:155 | the kept pieces are a subsequence of the input, in its order |
| FileStructure.NonEmptyCounts | components/ui/file-structure.tsx:155 | every non-empty piece is kept as often as it occurs, and no empty piece is kept |
| FileStructure.NonEmptyCons | components/ui/file-structure.tsx:155 | one step of the filter: the first piece is kept exactly when it is non-empty |
| FileStructure.Breadcrumbs | components/ui/file-structure.tsx:154-159 | breadcrumbs are non-empty and hold no `/` |
| FileStructure.CurrentPrefix | components/ui/file-structure.tsx:199 | the current prefix is `''` exactly when there are no breadcrumbs, and otherwise ends in `/` |
| FileStructure.CrumbsRoundTrip | components/ui/file-structure.tsx:154-159 | well-formed breadcrumbs come back from their prefix |
| FileStructure.PrefixRoundTrip | components/ui/file-structure.tsx:154-159 | a `''` or `/`-terminated prefix without empty segments is rebuilt from its breadcrumbs |
| FileStructure.BreadcrumbsOfSegments | components/ui/file-structure.tsx:154-159 | a joined path's breadcrumbs are its segments in order; the root has none |
| FileStructure.BreadcrumbsSkipEmptySegments | components/ui/file-structure.tsx:154-156 | the prefix `a//b/` shows the breadcrumbs `a`, `b`: empty segments are dropped |
| FileStructure.SplitOfDoubledSlash | components/ui/file-structure.tsx:155 | `"a//b/".split("/")` is `a`, an empty piece, `b` and an empty piece |
| FileStructure.NonEmptyOfDoubledSlash | components/ui/file-structure.tsx:155 | filtering `[a, "", b, ""]` leaves `[a, b]` for non-empty `a` and `b` |
| FileStructure.SliceEnd | components/ui/file-structure.tsx:175-187 | `slice(0, end)` stops at `end` clamped to the length, with a negative `end` counted from the end and clamped at 0 |
| FileStructure.NavigateUpTarget | components/ui/file-structure.tsx:173-181 | no target without breadcrumbs, otherwise the prefix of all but the last crumb; `NavigateUpIsParent` states what that prefix is |
| FileStructure.BreadcrumbTarget | components/ui/file-structure.tsx:183-191 | the root for index -1, otherwise the join of the first `index + 1` crumbs and `/`; `BreadcrumbTargetIsPrefix` states what that prefix is |
| FileStructure.NavigateUpIsParent | components/ui/file-structure.tsx:173-181 | going up targets the prefix of all but the last crumb, whose breadcrumbs drop the last one |
| FileStructure.ParentPlusLastCrumb | components/ui/file-structure.tsx:173-181 | the current prefix is the parent's, the last crumb and `/` |
| FileStructure.BreadcrumbTargetIsPrefix | components/ui/file-structure.tsx:183-191 | index -1 targets `''`; crumb `i` targets the prefix of the first `i+1` crumbs; the last crumb targets the current prefix |
| FileStructure.BreadcrumbBelowRootIsSlash | components/ui/file-structure.tsx:187-188 | an index that empties the slice targets `/`, not the root |
| FileStructure.DeleteFlagRoundTrip | components/ui/file-structure.tsx:260-261 | the `isFolder` text the browser sends turns on the route's folder mode exactly for folders |
| FileStructure.FolderFlagText | components/ui/file-structure.tsx:261 | the `isFolder` text is `true` or `false`; `DeleteFlagRoundTrip` shows the route reads it back |
| FileStructure.ItemKey | components/ui/file-structure.tsx:260 | a folder is addressed by its prefix, a file by its key; `DeleteFolderItem` and `FileItemKey` show what each removes |
| FileStructure.UploadKey | components/ui/file-structure.tsx:199-200 | the upload key is the current prefix followed by the file name; `UploadKeyIsInCurrentFolder` lists it there |
| FileStructure.RenameNewKey | components/ui/file-structure.tsx:279-281 | the new key is the current prefix, the new name and, for a folder, `/`; `RenamedFolderKey` and `FolderRenameInPlaceHasNoOverlap` characterise it |
| FileStructure.UploadKeyIsInCurrentFolder | components/ui/file-structure.tsx:199-200 | an uploaded plain name is a direct object of the current folder, listed under that name |
| FileStructure.RenamedFolderKey | components/ui/file-structure.tsx:279-281 | a folder renamed to a plain name opens with the current breadcrumbs plus the new name, and the current folder's listing names it by the new name |
| FileStructure.FolderRenameInPlaceHasNoOverlap | components/ui/file-structure.tsx:278-281 | renaming a listed folder to another plain name gives non-overlapping keys |
| FileStructure.SegmentPrefix | components/ui/file-structure.tsx:278-281 | `s + a + "/"` starts `s + b + "/"` only when `a == b` |
| FileStructure.CreatedFolderAppearsInCurrentFolder | components/ui/file-structure.tsx:299-312 | after the marker put, a complete refresh of the current folder lists the new folder under its name, and opening it extends the breadcrumbs by that name |
| FileStructure.DeleteFolderItem | components/ui/file-structure.tsx:258-261 | a listed folder is deleted by its prefix in folder mode, and a complete, error-free delete removes exactly the keys inside that folder, siblings sharing its name excluded |
| FileStructure.FileItemKey | components/ui/file-structure.tsx:258-261 | a listed file is addressed by its stored key, the scope followed by its name on screen, in single-key mode |
| FileStructure.SearchRequest | components/ui/file-structure.tsx:235-244 | no request exactly for an all-white-space query; otherwise the untrimmed query, which the route accepts |
| FileStructure.FileIcon | components/ui/file-structure.tsx:64-83 | image icon exactly for the image set, text icon exactly for the text set, generic otherwise |
| FileStructure.IconAgreesWithPreview | components/ui/file-structure.tsx:71-72 | an image icon previews as an image; a text icon is a text file to the preview |
| FileStructure.BmpIconIsGeneric | components/ui/file-structure.tsx:71 | `bmp` has the generic icon but previews as an image |
| FileStructure.ListRequest | components/ui/file-structure.tsx:136-138 | the root is requested without `prefix`, which the route reads back as `''` |
| FileStructure.Browser.constructor | components/ui/file-structure.tsx:95-105 | the browser starts at the root, with no data, no error and no search |
| FileStructure.Browser.Prefix | components/ui/file-structure.tsx:199 | every request prefix is `''` or ends in `/` |
| FileStructure.Browser.FetchData | components/ui/file-structure.tsx:132-167 | a listing replaces data and breadcrumbs; a failure clears data, sets the error and keeps breadcrumbs |
| FileStructure.Browser.NavigateUp | components/ui/file-structure.tsx:173-181 | without breadcrumbs nothing happens; otherwise success drops the last crumb, stores the listing and clears the error, and failure keeps the crumbs, clears the data and sets the error; the search state never changes |
| FileStructure.Browser.NavigateToBreadcrumb | components/ui/file-structure.tsx:183-191 | success makes crumb `index` the last one, or goes to the root for -1, stores the listing and clears the error; failure keeps the crumbs, clears the data and sets the error; the search state never changes |
| FileStructure.Browser.Refresh | components/ui/file-structure.tsx:265-267 | refreshing after a change re-lists the current folder and stays in it; success stores the listing, failure clears it and sets the error; the search state never changes |
| FileStructure.Browser.HandleSearch | components/ui/file-structure.tsx:235-256 | a blank query clears and hides results; an answer is shown; a failure changes nothing |

## Left out

- The S3 client setup (credentials, region, bucket name) is left out. So are JSON parsing and response serialisation: request bodies and query parameters are already-parsed optional strings or, for rename's `isFolder`, a boolean. Non-string JSON values, and the coercion JavaScript applies to them in template strings, are not modelled.
- `lastModified` and every timestamp are left out, because they come from the store's clock. `formatFileSize` and `formatDate` are left out, because they use floating point and locale formatting.
- The presigned-URL routes `app/api/upload/route.ts` and `app/api/file/route.ts` are not part of this model, because the URLs are produced by a foreign library. The upload itself, a PUT to such a URL, is left out. The browser's upload key is still modelled.
- JSX rendering, dialogs, the `loading`, `uploading` and `isSearching` flags, the error message texts, `console` logging, and the browser's error handling after a failed upload, rename, delete or create are left out. Of those handlers, only the refresh after success is modelled (`Browser.Refresh`).
- Requests do not run concurrently in the model: each handler is one sequential operation.
- ObjectStore.Bucket.List: a page may come in any order. S3 returns keys in UTF-8 binary order, but the handlers never rely on that order. Continuation tokens are not modelled, because the code never asks for a second page.
- ObjectStore.Bucket.Copy: copying a key onto itself is treated like any other copy. S3's own rules for that case are not asserted.
- ObjectStore.Bucket.Copy: takes the source key exactly as given. The code sends `CopySource` as the bucket name, `/` and the raw key, without URL-encoding (app/api/rename/route.ts:40 and 58). S3 URL-decodes `CopySource`, so a key containing `%` or `+` names a different source, or none, in S3. The model does not capture that.
- ObjectsRoute.Get: requires `bucket.Valid()`, i.e. no stored key is empty, as in S3. Every state-changing handler and store call requires and preserves the same invariant.
- Strings.ToLower: lowercases ASCII letters only. JavaScript's `toLowerCase` covers all of Unicode.
- RenameRoute.CleanRename, AbortState, FolderRenameOfPage and TruncatedListingLeavesObjects assume `newKey` contains no `$`. With a `$` pattern, `replace` splices in other text (`DollarPatternInNewKey`). `Put` itself models that case exactly.
- RenameRoute.CleanRename, CleanRenameStep, AbortState, FolderRenameOfPage and TruncatedListingLeavesObjects assume neither key is a prefix of the other. A rename into the folder's own subtree is modelled by `Put` but not characterised.
- FileStructure.Item: a rename or delete dialog's item and its `isFolder` flag are one value, as the browser always sets them together.
