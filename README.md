# PromptVault catalog endpoint in Dafny

PromptVault serves a media library from a `content` folder next to its PHP
endpoint `api.php`. The folder holds categories. Each category holds project
folders and may have a `Final` folder whose first video is the category's
preview. The endpoint answers three modes of a GET request:

- `categories`: the categories with their previews, sorted by name.
- `projects`: the projects of one category, each with its files and the
  tags of its `tags.txt`, sorted by name.
- `download`: a project folder packed as a zip archive.

Failures are reported as a JSON error envelope, except in download mode,
which answers in plain text.

This project models that endpoint. The host is plain data: directories map to
their listings, files map to their text. The endpoint's loops (`getFiles`,
`getFinalPreview`, the categories and projects loops) are Dafny methods. Each
is proved to compute a specification function. The properties the endpoint
promises are proved about those functions:

- which files are listed and under which type;
- the natural-order sort, as a permutation that is sorted whenever the
  comparator is a total preorder;
- the first-video preview;
- the tag parsing, with its round trip;
- the `basename` sanitisation of the projects mode, against the raw path of
  the download mode;
- the required-parameter checks;
- the error shaping of each mode.

Modules:

- `Wrappers` holds `Option` and `Result`.
- `Strings` holds PHP's single-byte string built-ins: `strtolower`, `str_replace`, `substr`,
  `explode`/`implode`, `trim`, `basename`, `getExtension` and truthiness.
- `Sorting` holds `usort` as a stable insertion sort under an abstract
  three-way comparator.
- `Host` holds directory entries, the filesystem, `__DIR__`, the directory separator,
  `strnatcasecmp`, `date`, `getPathname` and the relative path.
- `Catalog` holds the specification functions and their lemmas.
- `Api` holds the loops and the request handler.

## Model

| member | source | states |
|---|---|---|
| Strings.Lower | api.php:24 | `strtolower` keeps the length, maps each character through the ASCII case map, and leaves no upper-case letter |
| Strings.ReplaceBackslashes | api.php:34-35 | every backslash becomes `/`, every other character is kept, and no backslash remains |
| Strings.ReplaceBackslashesConcat | api.php:34-35 | the replacement distributes over concatenation |
| Strings.Substr | api.php:39 | `substr(s, n)` is the rest of `s` after its first `n` characters, and empty when `n` lies past the end |
| Strings.Explode | api.php:128 | `explode` yields at least one piece, and no piece holds the delimiter |
| Strings.ImplodeExplode | api.php:128 | joining the pieces of `explode` with the delimiter gives back the text |
| Strings.ExplodeImplode | api.php:128 | `explode` recovers any pieces free of the delimiter from their join |
| Strings.Trim | api.php:129 | `trim` gives the slice between a leading and a trailing run of trim characters, and the result begins and ends with no trim character |
| Strings.TrimOfTrimmed | api.php:129 | `trim` leaves a string alone when neither of its ends is a trim character |
| Strings.Basename | api.php:110 | `basename` has no `/` and is no longer than its argument |
| Strings.BasenameOfChild | api.php:110 | `basename(dir + "/" + name)` is `name` for a non-empty name without `/`, whatever `dir` is |
| Strings.BasenameIdempotent | api.php:110 | applying `basename` twice changes nothing |
| Strings.Extension | api.php:24 | the extension has no `.`, and is empty for a name without `.` |
| Strings.ExtensionOf | api.php:24 | the extension of `stem.ext` is `ext` |
| Sorting.SortBy | api.php:51-53 | the sorted listing is a permutation of the unsorted one |
| Sorting.SortBySorted | api.php:51-53 | the sorted listing is ordered by name whenever the comparator is a total preorder |
| Host.BaseDir | api.php:7 | the content directory extends the script directory by a `/` separator and has base name `content` |
| Host.Pathname | api.php:121 | an entry's path joins the directory and the file name with the platform separator, after dropping one trailing separator from a directory longer than one character |
| Host.RelativePath | api.php:34-39 | the client path has no backslash |
| Host.RelativePathBelowScriptDir | api.php:32-39 | a file below the script directory gets its path below that directory, with forward slashes, whatever the platform separator |
| Catalog.Classify | api.php:14-30 | an extension is a video, an image or a text exactly when it is in that list; anything else is unknown |
| Catalog.FileTypeOfExtension | api.php:24-30 | a file's type is the classification of what follows its last dot, lower-cased |
| Catalog.FileTypeOf | api.php:24-30 | a name without a dot has the empty extension and is never listed |
| Catalog.ClassificationIgnoresCase | api.php:24-30 | upper-casing letters of the extension does not change the type |
| Catalog.Listed | api.php:21-30 | a kept entry is a file other than `.` and `..`, and its name holds a dot: subdirectories and names without a dot are never kept |
| Catalog.FileItemOf | api.php:41-46 | a file's record keeps the entry's own name and its formatted modification time, carries the type of its extension, and has a path with no backslash |
| Catalog.ListFiles | api.php:10-56 | a path that is not a directory lists nothing; otherwise the listing holds the items of the entries |
| Catalog.CollectFilesMembers | api.php:20-48 | an item is collected exactly when it is the item of a file entry with a known type |
| Catalog.ListFilesMembers | api.php:10-56 | an item is listed exactly when the path is a directory holding a non-dot file entry with a known type whose item it is |
| Catalog.ListFilesSorted | api.php:51-53 | the file listing is ordered by name under a total-preorder comparator |
| Catalog.CollectFilesConcat | api.php:20-48 | the items of two runs of entries are the first run's items followed by the second's: the loop keeps the iteration order |
| Catalog.CollectFilesOnce | api.php:20-48 | with unique names in the directory, each listed entry's item is collected exactly once |
| Catalog.ListFilesOnce | api.php:10-56 | with unique names in the directory, each listed file appears exactly once in the listing |
| Catalog.FirstVideo | api.php:63-67 | the result is absent exactly when no file is a video; otherwise it is the path and date of the first video |
| Catalog.FinalPreview | api.php:59-70 | the preview is absent exactly when `Final` is not a directory or lists no video; otherwise it is the path and date of a listed video |
| Catalog.CategoryOf | api.php:87-92 | a category keeps its folder name; preview and date are both null exactly when there is no preview, and are that preview's path and date otherwise |
| Catalog.CategoryListing | api.php:82-99 | the categories response is a permutation of one record per subdirectory entry |
| Catalog.CategoryListingMembers | api.php:85-95 | a record is a category exactly when it is the record of a non-dot subdirectory of the content directory |
| Catalog.CategoryListingSorted | api.php:97-99 | the categories are ordered by name under a total-preorder comparator |
| Catalog.NoSubdirectoriesNoCategories | api.php:85-95 | a content directory without subdirectories gives no categories |
| Catalog.TrimEach | api.php:129 | each piece is trimmed in place |
| Catalog.KeepTruthy | api.php:130 | a piece is kept exactly when it is truthy, i.e. not `""` and not `"0"` |
| Catalog.KeepTruthyOne | api.php:130 | a single piece is kept exactly when it is truthy |
| Catalog.KeepTruthyConcat | api.php:130-136 | filtering works piece by piece: the truthy pieces keep their order and their duplicates |
| Catalog.TrimEachConcat | api.php:129 | trimming works piece by piece, in order |
| Catalog.ParseTags | api.php:127-136 | every tag is truthy, has no comma, and begins and ends with no trim character |
| Catalog.ParseTagsOfPieces | api.php:128-136 | the tags of comma-joined pieces are the pieces, trimmed, without the falsy ones, in order |
| Catalog.ParseTagsRoundTrip | api.php:128-136 | writing truthy, trimmed, comma-free tags separated by commas and reading them back gives the same list |
| Catalog.ParseTagsConcat | api.php:128-136 | the tags of two comma-joined runs of pieces are the first run's tags followed by the second's: file order and duplicates are kept |
| Catalog.ParseTagsOfEmpty | api.php:127-131 | an empty `tags.txt` gives no tags |
| Catalog.TagsOf | api.php:124-131 | without a `tags.txt` a project has no tags; every tag has the shape `ParseTags` promises |
| Catalog.ProjectOf | api.php:119-137 | a project keeps its folder name; it has no files when its path is not a directory and no tags without a `tags.txt`; every tag is truthy, trimmed and comma-free |
| Catalog.ProjectListing | api.php:115-143 | the projects response is a permutation of one record per subdirectory entry |
| Catalog.ProjectListingMembers | api.php:118-139 | a record is a project exactly when it is the name, file listing and tags of a non-dot subdirectory of the category |
| Catalog.ProjectListingSorted | api.php:141-143 | the projects are ordered by name under a total-preorder comparator |
| Api.GetFiles | api.php:10-56 | the loop and the sort compute `ListFiles`: nothing for a non-directory, and a listing sorted by name under a total-preorder comparator |
| Api.GetFinalPreview | api.php:59-70 | the scan that stops at the first video computes `FinalPreview` |
| Api.ListCategories | api.php:79-99 | the categories loop computes `CategoryListing`, sorted by name under a total-preorder comparator |
| Api.ListProjects | api.php:115-143 | the projects loop computes `ProjectListing`, sorted by name under a total-preorder comparator |
| Api.ErrorResponse | api.php:198-205 | every error answer carries its message; it is the JSON envelope exactly when the mode is not `download`, and plain text exactly when it is |
| Api.Param | api.php:148-149 | a parameter is its query value when present, and the empty, falsy string when absent |
| Api.CategoryPath | api.php:106-113 | `Category is required.` exactly for a falsy category; success exactly when the content folder joined with the category's base name is a directory, and that is the path; `Category not found.` otherwise |
| Api.CategoryPathIgnoresDirectories | api.php:109-111 | leading directory components of a category, such as `../..`, are ignored |
| Api.CategoryPathByBasename | api.php:110-113 | two truthy categories with the same base name resolve alike |
| Api.ProjectPath | api.php:148-158 | `Category and Project required.` exactly when either parameter is falsy; success exactly when the raw join is a directory; `Project not found.` otherwise |
| Api.DownloadKeepsDirectories | api.php:157 | a category `dir/name` selects category `name` in the projects mode, but the download mode keeps `dir` in the folder path |
| Api.AttachmentName | api.php:185 | the offered file name has no `/` |
| Api.AttachmentNameOfChild | api.php:185 | a project `dir/name` is offered as `name.zip` |
| Api.ZipEntryName | api.php:174 | an entry name is what follows the project path and one separator in the file path, and empty when the file path is no longer than the project path |
| Api.ZipEntryNameOfChild | api.php:174 | a file at `projectPath/rel` is stored in the archive as `rel` |
| Api.HandleRequest | api.php:72-205 | a missing content directory fails in every mode; each mode answers its listing or archive, or its parameter error; any other mode is `Invalid mode.`; only the download mode answers outside JSON |

## Left out

- HTTP headers, status codes and the JSON encoding are not modelled: the
  `Response` datatype stands for the envelope that would be sent.
- The zip archive is not modelled as bytes. `ZipAttachment` names the
  project folder and the offered file name. Several things are not part of
  this model:
  - the recursive walk of the folder;
  - `tempnam`, `readfile` and `unlink`;
  - the output-buffer cleanup;
  - the `ZIP PHP extension not loaded.` and `Cannot create zip file.`
    failures, which depend on the host;
  - `getRealPath`. `ZipEntryName` is stated for a file path that extends
    the project path as given. A real path that differs in length, because
    of `..` segments or symbolic links, gives other entry names.
- `strnatcasecmp` is the abstract comparator `env.natCaseCmp`. Sortedness is
  proved for any comparator that is a total preorder. Natural ordering
  itself is not modelled.
- Sorting.SortBy: the sort's stability is not stated or proved. Only
  permutation and sortedness are.
- `date("d M Y, h:i A", mtime)` is the parameter `env.formatDate`.
- Paths are compared as literal strings. There is no normalisation of `..`,
  `.` or repeated slashes, and no symbolic links.
- `basename` is modelled with `/` as the only separator, its behaviour on
  Unix. Its multibyte and locale handling is not modelled.
- Query parameters are strings. PHP's array-valued `$_GET` parameters are
  not modelled.
- A directory that exists but cannot be opened is not modelled. There,
  `new DirectoryIterator` throws, and the whole categories or projects
  response becomes the error envelope. The host model maps every directory
  to a listing, so it cannot express an unreadable one.
- `file_get_contents` on a path that is not a regular file gives `""`. Its
  failure warning is not modelled.
- Each listed file's field `type` is named `kind`, because `type` is a
  Dafny keyword.
- A category parameter of `..` passes the base-name guard, because the
  base name of `..` is `..`. The projects mode then lists `content/..` when
  that path is a directory. The model keeps this behaviour through
  `CategoryPath`, but it does not resolve `..` to the parent folder.
