/** The catalog as functions of the host: which files a directory lists and
    how they are labelled, the preview of a category, the tags of a project,
    and the sorted category and project listings. The loops of the endpoint
    that build these values are in module Api and are proved to compute them. */
module Catalog {
  import opened Wrappers
  import opened Strings
  import opened Sorting
  import opened Host

  // ---------------------------------------------------------------------------
  // Classification by extension

  datatype FileType = Video | Image | Text

  const VideoExtensions: seq<string> := ["mp4", "webm", "mov", "mkv"]
  const ImageExtensions: seq<string> := ["jpg", "jpeg", "png", "gif", "webp"]
  const TextExtensions: seq<string> := ["txt", "md"]

  /** The type of a lower-cased extension; None stands for 'unknown', the
      files that are skipped. */
  function Classify(ext: string): (t: Option<FileType>)
    ensures t == Some(Video) <==> ext in VideoExtensions
    ensures t == Some(Image) <==> ext in ImageExtensions
    ensures t == Some(Text) <==> ext in TextExtensions
    ensures t == None <==> ext !in VideoExtensions + ImageExtensions + TextExtensions
  {
    if ext in VideoExtensions then Some(Video)
    else if ext in ImageExtensions then Some(Image)
    else if ext in TextExtensions then Some(Text)
    else None
  }

  /** The type of a file name: its extension, lower-cased, classified; a
      name without a dot has the empty extension and is never listed. */
  function FileTypeOf(name: string): (t: Option<FileType>)
    ensures '.' !in name ==> t == None
  {
    Classify(Lower(Extension(name)))
  }

  /** A file name is labelled by what follows its last dot, in any letter case. */
  lemma FileTypeOfExtension(stem: string, ext: string)
    requires '.' !in ext
    ensures FileTypeOf(stem + "." + ext) == Classify(Lower(ext))
  {
    ExtensionOf(stem, ext);
  }

  /** The type does not depend on the letter case of the extension: a
      variant in which some letters are turned to upper case is classified alike. */
  lemma ClassificationIgnoresCase(stem: string, ext: string, variant: string)
    requires '.' !in ext && |variant| == |ext|
    requires forall i :: 0 <= i < |ext| ==> variant[i] == ext[i] || variant[i] == UpperChar(ext[i])
    ensures FileTypeOf(stem + "." + variant) == FileTypeOf(stem + "." + ext)
  {
    assert '.' !in variant by {
      forall i | 0 <= i < |variant| ensures variant[i] != '.' {
        assert ext[i] in ext;
      }
    }
    FileTypeOfExtension(stem, ext);
    FileTypeOfExtension(stem, variant);
    assert Lower(variant) == Lower(ext) by {
      forall i | 0 <= i < |ext| ensures LowerChar(variant[i]) == LowerChar(ext[i]) {
        LowerOfUpper(ext[i]);
      }
    }
  }

  // ---------------------------------------------------------------------------
  // Listing the files of one directory (getFiles)

  datatype FileItem = FileItem(name: string, path: string, kind: FileType, date: string)

  function FileName(f: FileItem): string {
    f.name
  }

  /** The entries a listing keeps: files, not "." or "..", with a known type.
      Subdirectories and names without a dot are never kept. */
  predicate Listed(e: Entry)
    ensures Listed(e) ==> !e.isDot && e.isFile && '.' in e.name
  {
    !e.isDot && e.isFile && FileTypeOf(e.name).Some?
  }

  /** The record of a listed file: its own name, its path relative to the
      script directory with forward slashes, its type and its formatted
      modification time. */
  function FileItemOf(env: Env, dir: string, e: Entry): (f: FileItem)
    requires FileTypeOf(e.name).Some?
    ensures f.name == e.name && f.date == env.formatDate(e.mtime)
    ensures FileTypeOf(e.name) == Some(f.kind)
    ensures '\\' !in f.path
  {
    FileItem(e.name, RelativePath(env, Pathname(env, dir, e.name)), FileTypeOf(e.name).value, env.formatDate(e.mtime))
  }

  /** The items of the listed entries, in iteration order. */
  function CollectFiles(env: Env, dir: string, entries: seq<Entry>): seq<FileItem> {
    if entries == [] then []
    else
      var last := entries[|entries| - 1];
      CollectFiles(env, dir, entries[..|entries| - 1]) + (if Listed(last) then [FileItemOf(env, dir, last)] else [])
  }

  /** One more entry of a listing adds its item when it is listed. */
  lemma CollectFilesStep(env: Env, dir: string, entries: seq<Entry>, i: nat)
    requires i < |entries|
    ensures CollectFiles(env, dir, entries[..i + 1])
         == CollectFiles(env, dir, entries[..i]) + (if Listed(entries[i]) then [FileItemOf(env, dir, entries[i])] else [])
  {
    assert entries[..i + 1][..i] == entries[..i];
  }

  /** getFiles(dir): nothing when dir is not a directory, otherwise the items
      of its listed entries sorted by name. */
  function ListFiles(fs: FileSystem, env: Env, dir: string): (r: seq<FileItem>)
    ensures !IsDir(fs, dir) ==> r == []
    ensures IsDir(fs, dir) ==> multiset(r) == multiset(CollectFiles(env, dir, fs.dirs[dir]))
  {
    if !IsDir(fs, dir) then [] else SortBy(CollectFiles(env, dir, fs.dirs[dir]), FileName, env.natCaseCmp)
  }

  lemma {:induction false} CollectFilesMembers(env: Env, dir: string, entries: seq<Entry>, f: FileItem)
    ensures f in CollectFiles(env, dir, entries) <==>
            exists e :: e in entries && Listed(e) && f == FileItemOf(env, dir, e)
  {
    if entries != [] {
      var init, last := entries[..|entries| - 1], entries[|entries| - 1];
      CollectFilesMembers(env, dir, init, f);
      if f in CollectFiles(env, dir, entries) {
        if f in CollectFiles(env, dir, init) {
          var e :| e in init && Listed(e) && f == FileItemOf(env, dir, e);
          assert e in entries;
        } else {
          assert last in entries && Listed(last) && f == FileItemOf(env, dir, last);
        }
      }
      if exists e :: e in entries && Listed(e) && f == FileItemOf(env, dir, e) {
        var e :| e in entries && Listed(e) && f == FileItemOf(env, dir, e);
        var m :| 0 <= m < |entries| && entries[m] == e;
        if m < |entries| - 1 {
          assert init[m] == e;
        }
      }
    }
  }

  /** An item is listed exactly when it is the item of a file entry of the
      directory with a recognised extension: no dot entry, no subdirectory
      and no unknown type appears. */
  lemma ListFilesMembers(fs: FileSystem, env: Env, dir: string, f: FileItem)
    ensures f in ListFiles(fs, env, dir) <==>
            IsDir(fs, dir) && exists e :: e in fs.dirs[dir] && Listed(e) && f == FileItemOf(env, dir, e)
  {
    if IsDir(fs, dir) {
      assert f in ListFiles(fs, env, dir) <==> f in multiset(CollectFiles(env, dir, fs.dirs[dir]));
      CollectFilesMembers(env, dir, fs.dirs[dir], f);
    }
  }

  /** The listing is ordered by name under the natural comparator. */
  lemma ListFilesSorted(fs: FileSystem, env: Env, dir: string)
    requires TotalPreorder(env.natCaseCmp)
    ensures SortedBy(ListFiles(fs, env, dir), FileName, env.natCaseCmp)
  {
    if IsDir(fs, dir) {
      SortBySorted(CollectFiles(env, dir, fs.dirs[dir]), FileName, env.natCaseCmp);
    }
  }

  /** A directory never holds two entries of the same name. */
  ghost predicate UniqueNames(entries: seq<Entry>) {
    forall i, j :: 0 <= i < j < |entries| ==> entries[i].name != entries[j].name
  }

  lemma {:induction false} CollectFilesNamed(env: Env, dir: string, entries: seq<Entry>, name: string)
    requires forall e :: e in entries ==> e.name != name
    ensures forall f :: f in CollectFiles(env, dir, entries) ==> f.name != name
  {
    if entries != [] {
      var init := entries[..|entries| - 1];
      assert forall e :: e in init ==> e in entries;
      CollectFilesNamed(env, dir, init, name);
    }
  }

  /** Collecting works entry by entry: the items of two runs of entries are
      those of the first run followed by those of the second. */
  lemma {:induction false} CollectFilesConcat(env: Env, dir: string, a: seq<Entry>, b: seq<Entry>)
    ensures CollectFiles(env, dir, a + b) == CollectFiles(env, dir, a) + CollectFiles(env, dir, b)
  {
    if b == [] {
      assert a + b == a;
    } else {
      var init := b[..|b| - 1];
      assert (a + b)[..|a + b| - 1] == a + init;
      assert (a + b)[|a + b| - 1] == b[|b| - 1];
      CollectFilesConcat(env, dir, a, init);
    }
  }

  lemma SplitAround<T>(s: seq<T>, k: nat)
    requires k < |s|
    ensures s == s[..k] + [s[k]] + s[k + 1..]
  {
  }

  /** The items of a listing are those before an entry, that entry's item,
      and those after it. */
  lemma CollectFilesSplit(env: Env, dir: string, entries: seq<Entry>, k: nat)
    requires k < |entries| && Listed(entries[k])
    ensures CollectFiles(env, dir, entries)
         == CollectFiles(env, dir, entries[..k]) + [FileItemOf(env, dir, entries[k])] + CollectFiles(env, dir, entries[k + 1..])
  {
    var before, e, after := entries[..k], entries[k], entries[k + 1..];
    SplitAround(entries, k);
    CollectFilesConcat(env, dir, before + [e], after);
    CollectFilesConcat(env, dir, before, [e]);
    assert CollectFiles(env, dir, [e]) == [FileItemOf(env, dir, e)] by {
      assert [e][..0] == [];
    }
  }

  /** With unique names, no entry before or after the k-th shares its name. */
  lemma NamesAroundDiffer(entries: seq<Entry>, k: nat)
    requires UniqueNames(entries) && k < |entries|
    ensures forall x :: x in entries[..k] ==> x.name != entries[k].name
    ensures forall x :: x in entries[k + 1..] ==> x.name != entries[k].name
  {
    forall x | x in entries[..k] ensures x.name != entries[k].name {
      var m :| 0 <= m < k && entries[..k][m] == x;
      assert entries[m] == x;
    }
    forall x | x in entries[k + 1..] ensures x.name != entries[k].name {
      var m :| 0 <= m < |entries| - k - 1 && entries[k + 1..][m] == x;
      assert entries[k + 1 + m] == x;
    }
  }

  lemma CountBetween<T>(a: seq<T>, x: T, b: seq<T>)
    requires x !in a && x !in b
    ensures multiset(a + [x] + b)[x] == 1
  {
    assert multiset(a + [x] + b) == multiset(a) + multiset{x} + multiset(b);
  }

  lemma {:induction false} CollectFilesOnce(env: Env, dir: string, entries: seq<Entry>, k: nat)
    requires UniqueNames(entries)
    requires k < |entries| && Listed(entries[k])
    ensures multiset(CollectFiles(env, dir, entries))[FileItemOf(env, dir, entries[k])] == 1
  {
    var item := FileItemOf(env, dir, entries[k]);
    var before, after := CollectFiles(env, dir, entries[..k]), CollectFiles(env, dir, entries[k + 1..]);
    CollectFilesSplit(env, dir, entries, k);
    NamesAroundDiffer(entries, k);
    CollectFilesNamed(env, dir, entries[..k], entries[k].name);
    CollectFilesNamed(env, dir, entries[k + 1..], entries[k].name);
    assert item.name == entries[k].name;
    CountBetween(before, item, after);
  }

  /** In a directory (whose names are unique) every listed file appears
      exactly once in the listing. */
  lemma ListFilesOnce(fs: FileSystem, env: Env, dir: string, e: Entry)
    requires IsDir(fs, dir) && UniqueNames(fs.dirs[dir])
    requires e in fs.dirs[dir] && Listed(e)
    ensures multiset(ListFiles(fs, env, dir))[FileItemOf(env, dir, e)] == 1
  {
    var k :| 0 <= k < |fs.dirs[dir]| && fs.dirs[dir][k] == e;
    CollectFilesOnce(env, dir, fs.dirs[dir], k);
  }

  // ---------------------------------------------------------------------------
  // The preview of a category (getFinalPreview)

  datatype Preview = Preview(path: string, date: string)

  /** The path and date of the first video of a listing. */
  function FirstVideo(files: seq<FileItem>): (r: Option<Preview>)
    ensures r.None? <==> forall i :: 0 <= i < |files| ==> files[i].kind != Video
    ensures r.Some? ==>
              exists k :: 0 <= k < |files| && files[k].kind == Video
                && (forall i :: 0 <= i < k ==> files[i].kind != Video)
                && r.value == Preview(files[k].path, files[k].date)
  {
    if files == [] then None
    else if files[0].kind == Video then Some(Preview(files[0].path, files[0].date))
    else
      var r := FirstVideo(files[1..]);
      assert forall i :: 1 <= i < |files| ==> files[i] == files[1..][i - 1];
      r
  }

  /** getFinalPreview(categoryPath): the first video of the sorted listing of
      the category's Final folder, or nothing. */
  function FinalPreview(fs: FileSystem, env: Env, categoryPath: string): (r: Option<Preview>)
    ensures r.None? <==>
              !IsDir(fs, categoryPath + "/Final")
              || forall f :: f in ListFiles(fs, env, categoryPath + "/Final") ==> f.kind != Video
    ensures r.Some? ==> exists f :: f in ListFiles(fs, env, categoryPath + "/Final") && f.kind == Video
                                    && r.value == Preview(f.path, f.date)
  {
    var finalPath := categoryPath + "/Final";
    if IsDir(fs, finalPath) then FirstVideo(ListFiles(fs, env, finalPath)) else None
  }

  // ---------------------------------------------------------------------------
  // The category listing

  datatype CategoryItem = CategoryItem(name: string, preview: Option<string>, date: Option<string>)

  function CategoryName(c: CategoryItem): string {
    c.name
  }

  predicate IsSubdirectory(e: Entry) {
    !e.isDot && e.isDir
  }

  /** The record of one category: preview and date are both null exactly when
      the category has no preview, and are its path and date otherwise. */
  function CategoryOf(fs: FileSystem, env: Env, baseDir: string, e: Entry): (c: CategoryItem)
    ensures c.name == e.name
    ensures c.preview.None? <==> c.date.None?
    ensures c.preview.None? <==> FinalPreview(fs, env, Pathname(env, baseDir, e.name)).None?
    ensures c.preview.Some? ==>
              FinalPreview(fs, env, Pathname(env, baseDir, e.name)) == Some(Preview(c.preview.value, c.date.value))
  {
    var previewData := FinalPreview(fs, env, Pathname(env, baseDir, e.name));
    CategoryItem(
      e.name,
      if previewData.Some? then Some(previewData.value.path) else None,
      if previewData.Some? then Some(previewData.value.date) else None)
  }

  function CollectCategories(fs: FileSystem, env: Env, baseDir: string, entries: seq<Entry>): seq<CategoryItem> {
    if entries == [] then []
    else
      var last := entries[|entries| - 1];
      CollectCategories(fs, env, baseDir, entries[..|entries| - 1])
        + (if IsSubdirectory(last) then [CategoryOf(fs, env, baseDir, last)] else [])
  }

  /** One more entry of the content directory adds its record when it is a subdirectory. */
  lemma CollectCategoriesStep(fs: FileSystem, env: Env, baseDir: string, entries: seq<Entry>, i: nat)
    requires i < |entries|
    ensures CollectCategories(fs, env, baseDir, entries[..i + 1])
         == CollectCategories(fs, env, baseDir, entries[..i])
            + (if IsSubdirectory(entries[i]) then [CategoryOf(fs, env, baseDir, entries[i])] else [])
  {
    assert entries[..i + 1][..i] == entries[..i];
  }

  /** The categories response: a record per subdirectory of the content
      directory, sorted by name. */
  function CategoryListing(fs: FileSystem, env: Env): (r: seq<CategoryItem>)
    requires IsDir(fs, BaseDir(env))
    ensures multiset(r) == multiset(CollectCategories(fs, env, BaseDir(env), fs.dirs[BaseDir(env)]))
  {
    SortBy(CollectCategories(fs, env, BaseDir(env), fs.dirs[BaseDir(env)]), CategoryName, env.natCaseCmp)
  }

  lemma {:induction false} CollectCategoriesMembers(fs: FileSystem, env: Env, baseDir: string, entries: seq<Entry>, c: CategoryItem)
    ensures c in CollectCategories(fs, env, baseDir, entries) <==>
            exists e :: e in entries && IsSubdirectory(e) && c == CategoryOf(fs, env, baseDir, e)
  {
    if entries != [] {
      var init, last := entries[..|entries| - 1], entries[|entries| - 1];
      assert entries == init + [last];
      CollectCategoriesMembers(fs, env, baseDir, init, c);
    }
  }

  /** The categories are exactly the records of the subdirectories of the
      content directory; files and dot entries are not categories. */
  lemma CategoryListingMembers(fs: FileSystem, env: Env, c: CategoryItem)
    requires IsDir(fs, BaseDir(env))
    ensures c in CategoryListing(fs, env) <==>
            exists e :: e in fs.dirs[BaseDir(env)] && IsSubdirectory(e) && c == CategoryOf(fs, env, BaseDir(env), e)
  {
    assert c in CategoryListing(fs, env) <==> c in multiset(CollectCategories(fs, env, BaseDir(env), fs.dirs[BaseDir(env)]));
    CollectCategoriesMembers(fs, env, BaseDir(env), fs.dirs[BaseDir(env)], c);
  }

  lemma CategoryListingSorted(fs: FileSystem, env: Env)
    requires IsDir(fs, BaseDir(env))
    requires TotalPreorder(env.natCaseCmp)
    ensures SortedBy(CategoryListing(fs, env), CategoryName, env.natCaseCmp)
  {
    SortBySorted(CollectCategories(fs, env, BaseDir(env), fs.dirs[BaseDir(env)]), CategoryName, env.natCaseCmp);
  }

  /** A content directory without subdirectories gives an empty listing. */
  lemma NoSubdirectoriesNoCategories(fs: FileSystem, env: Env)
    requires IsDir(fs, BaseDir(env))
    requires forall e :: e in fs.dirs[BaseDir(env)] ==> !IsSubdirectory(e)
    ensures CategoryListing(fs, env) == []
  {
    var r := CategoryListing(fs, env);
    if r != [] {
      CategoryListingMembers(fs, env, r[0]);
    }
  }

  // ---------------------------------------------------------------------------
  // Tags of a project

  /** array_map('trim', parts) */
  function TrimEach(parts: seq<string>): (r: seq<string>)
    ensures |r| == |parts|
    ensures forall i :: 0 <= i < |r| ==> r[i] == Trim(parts[i])
  {
    if parts == [] then []
    else
      var rest := TrimEach(parts[1..]);
      MapCons(Trim, parts, rest);
      [Trim(parts[0])] + rest
  }

  /** Mapping over a non-empty sequence maps its head, then its tail. */
  lemma MapCons<A, B>(f: A -> B, xs: seq<A>, rest: seq<B>)
    requires xs != [] && |rest| == |xs| - 1
    requires forall i :: 0 <= i < |rest| ==> rest[i] == f(xs[1..][i])
    ensures forall i :: 0 <= i < |xs| ==> ([f(xs[0])] + rest)[i] == f(xs[i])
  {
    forall i | 0 < i < |xs| ensures ([f(xs[0])] + rest)[i] == f(xs[i]) {
      assert xs[1..][i - 1] == xs[i];
    }
  }

  /** array_values(array_filter(parts)): the truthy parts, in order. */
  function KeepTruthy(parts: seq<string>): (r: seq<string>)
    ensures forall t :: t in r <==> t in parts && !Falsy(t)
    ensures |r| <= |parts|
  {
    if parts == [] then []
    else if Falsy(parts[0]) then KeepTruthy(parts[1..])
    else [parts[0]] + KeepTruthy(parts[1..])
  }

  /** The tags of a tags.txt text: the comma-separated pieces, trimmed, with
      the falsy ones ("" and "0") removed. */
  function ParseTags(content: string): (tags: seq<string>)
    ensures forall t :: t in tags ==> !Falsy(t) && IsTrimmed(t) && ',' !in t
  {
    KeepTruthy(TrimEach(Explode(content, ',')))
  }

  /** One piece is kept exactly when it is truthy. */
  lemma KeepTruthyOne(t: string)
    ensures KeepTruthy([t]) == if Falsy(t) then [] else [t]
  {
    assert [t][1..] == [];
  }

  /** Filtering works piece by piece: the truthy pieces keep their order and
      their duplicates. */
  lemma {:induction false} KeepTruthyConcat(a: seq<string>, b: seq<string>)
    ensures KeepTruthy(a + b) == KeepTruthy(a) + KeepTruthy(b)
  {
    if a == [] {
      assert a + b == b;
    } else {
      assert (a + b)[0] == a[0];
      assert (a + b)[1..] == a[1..] + b;
      KeepTruthyConcat(a[1..], b);
    }
  }

  lemma {:induction false} TrimEachConcat(a: seq<string>, b: seq<string>)
    ensures TrimEach(a + b) == TrimEach(a) + TrimEach(b)
  {
    if a == [] {
      assert a + b == b;
    } else {
      assert (a + b)[0] == a[0];
      assert (a + b)[1..] == a[1..] + b;
      TrimEachConcat(a[1..], b);
    }
  }

  lemma {:induction false} KeepTruthyOfTruthy(parts: seq<string>)
    requires forall t :: t in parts ==> !Falsy(t)
    ensures KeepTruthy(parts) == parts
  {
    if parts != [] {
      assert parts[0] in parts;
      KeepTruthyOfTruthy(parts[1..]);
      assert parts == [parts[0]] + parts[1..];
    }
  }

  lemma TrimEachOfTrimmed(parts: seq<string>)
    requires forall t :: t in parts ==> IsTrimmed(t)
    ensures TrimEach(parts) == parts
  {
    forall i | 0 <= i < |parts| ensures TrimEach(parts)[i] == parts[i] {
      assert parts[i] in parts;
      TrimOfTrimmed(parts[i]);
    }
  }

  /** Tags are read piece by piece: the text made of comma-free pieces yields
      those pieces, trimmed, with the falsy ones dropped, in order. */
  lemma ParseTagsOfPieces(pieces: seq<string>)
    requires |pieces| >= 1
    requires forall k :: 0 <= k < |pieces| ==> ',' !in pieces[k]
    ensures ParseTags(Implode(pieces, ',')) == KeepTruthy(TrimEach(pieces))
  {
    ExplodeImplode(pieces, ',');
  }

  /** Writing tags separated by commas and reading them back gives the same
      list, in the same order and with duplicates kept. */
  lemma ParseTagsRoundTrip(tags: seq<string>)
    requires |tags| >= 1
    requires forall t :: t in tags ==> !Falsy(t) && IsTrimmed(t) && ',' !in t
    ensures ParseTags(Implode(tags, ',')) == tags
  {
    assert forall k :: 0 <= k < |tags| ==> tags[k] in tags;
    ParseTagsOfPieces(tags);
    TrimEachOfTrimmed(tags);
    KeepTruthyOfTruthy(tags);
  }

  /** Tags are read in file order with duplicates kept: the tags of two
      comma-joined runs of pieces are the tags of the first run followed by
      those of the second. */
  lemma ParseTagsConcat(a: seq<string>, b: seq<string>)
    requires |a| >= 1 && |b| >= 1
    requires forall k :: 0 <= k < |a| ==> ',' !in a[k]
    requires forall k :: 0 <= k < |b| ==> ',' !in b[k]
    ensures ParseTags(Implode(a + b, ',')) == ParseTags(Implode(a, ',')) + ParseTags(Implode(b, ','))
  {
    assert forall k :: 0 <= k < |a + b| ==> ',' !in (a + b)[k] by {
      forall k | 0 <= k < |a + b| ensures ',' !in (a + b)[k] {
        if k < |a| {
          assert (a + b)[k] == a[k];
        } else {
          assert (a + b)[k] == b[k - |a|];
        }
      }
    }
    ParseTagsOfPieces(a + b);
    ParseTagsOfPieces(a);
    ParseTagsOfPieces(b);
    TrimEachConcat(a, b);
    KeepTruthyConcat(TrimEach(a), TrimEach(b));
  }

  /** An empty tags.txt gives no tags. */
  lemma ParseTagsOfEmpty()
    ensures ParseTags("") == []
  {
    assert Explode("", ',') == [""];
    assert TrimEach([""]) == [Trim("")];
    assert Trim("") == "";
  }

  /** The tags of a project folder: those of its tags.txt, if it exists. */
  function TagsOf(fs: FileSystem, projectPath: string): (tags: seq<string>)
    ensures !FileExists(fs, projectPath + "/tags.txt") ==> tags == []
    ensures forall t :: t in tags ==> !Falsy(t) && IsTrimmed(t) && ',' !in t
  {
    var tagsFile := projectPath + "/tags.txt";
    if FileExists(fs, tagsFile) then ParseTags(ReadFile(fs, tagsFile)) else []
  }

  // ---------------------------------------------------------------------------
  // The project listing of a category

  datatype ProjectItem = ProjectItem(name: string, files: seq<FileItem>, tags: seq<string>)

  function ProjectName(p: ProjectItem): string {
    p.name
  }

  /** The record of one project folder: its name, its file listing and its tags. */
  function ProjectOf(fs: FileSystem, env: Env, categoryPath: string, e: Entry): (p: ProjectItem)
    ensures p.name == e.name
    ensures !IsDir(fs, Pathname(env, categoryPath, e.name)) ==> p.files == []
    ensures !FileExists(fs, Pathname(env, categoryPath, e.name) + "/tags.txt") ==> p.tags == []
    ensures forall t :: t in p.tags ==> !Falsy(t) && IsTrimmed(t) && ',' !in t
  {
    var projectPath := Pathname(env, categoryPath, e.name);
    ProjectItem(e.name, ListFiles(fs, env, projectPath), TagsOf(fs, projectPath))
  }

  function CollectProjects(fs: FileSystem, env: Env, categoryPath: string, entries: seq<Entry>): seq<ProjectItem> {
    if entries == [] then []
    else
      var last := entries[|entries| - 1];
      CollectProjects(fs, env, categoryPath, entries[..|entries| - 1])
        + (if IsSubdirectory(last) then [ProjectOf(fs, env, categoryPath, last)] else [])
  }

  /** One more entry of the category adds its record when it is a subdirectory. */
  lemma CollectProjectsStep(fs: FileSystem, env: Env, categoryPath: string, entries: seq<Entry>, i: nat)
    requires i < |entries|
    ensures CollectProjects(fs, env, categoryPath, entries[..i + 1])
         == CollectProjects(fs, env, categoryPath, entries[..i])
            + (if IsSubdirectory(entries[i]) then [ProjectOf(fs, env, categoryPath, entries[i])] else [])
  {
    assert entries[..i + 1][..i] == entries[..i];
  }

  /** The projects response: a record per subdirectory of the category, sorted by name. */
  function ProjectListing(fs: FileSystem, env: Env, categoryPath: string): (r: seq<ProjectItem>)
    requires IsDir(fs, categoryPath)
    ensures multiset(r) == multiset(CollectProjects(fs, env, categoryPath, fs.dirs[categoryPath]))
  {
    SortBy(CollectProjects(fs, env, categoryPath, fs.dirs[categoryPath]), ProjectName, env.natCaseCmp)
  }

  lemma {:induction false} CollectProjectsMembers(fs: FileSystem, env: Env, categoryPath: string, entries: seq<Entry>, p: ProjectItem)
    ensures p in CollectProjects(fs, env, categoryPath, entries) <==>
            exists e :: e in entries && IsSubdirectory(e) && p == ProjectOf(fs, env, categoryPath, e)
  {
    if entries != [] {
      var init, last := entries[..|entries| - 1], entries[|entries| - 1];
      assert entries == init + [last];
      CollectProjectsMembers(fs, env, categoryPath, init, p);
    }
  }

  /** The projects are exactly the records of the subdirectories of the category. */
  lemma ProjectListingMembers(fs: FileSystem, env: Env, categoryPath: string, p: ProjectItem)
    requires IsDir(fs, categoryPath)
    ensures p in ProjectListing(fs, env, categoryPath) <==>
            exists e :: e in fs.dirs[categoryPath] && IsSubdirectory(e) && p == ProjectOf(fs, env, categoryPath, e)
  {
    assert p in ProjectListing(fs, env, categoryPath) <==> p in multiset(CollectProjects(fs, env, categoryPath, fs.dirs[categoryPath]));
    CollectProjectsMembers(fs, env, categoryPath, fs.dirs[categoryPath], p);
  }

  lemma ProjectListingSorted(fs: FileSystem, env: Env, categoryPath: string)
    requires IsDir(fs, categoryPath)
    requires TotalPreorder(env.natCaseCmp)
    ensures SortedBy(ProjectListing(fs, env, categoryPath), ProjectName, env.natCaseCmp)
  {
    SortBySorted(CollectProjects(fs, env, categoryPath, fs.dirs[categoryPath]), ProjectName, env.natCaseCmp);
  }
}
