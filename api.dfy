/** The endpoint itself: the directory loops of getFiles, getFinalPreview and
    the categories and projects modes, each proved to compute the catalog
    function that specifies it, and the request handler that checks the
    content directory, validates the parameters, dispatches on the mode and
    shapes errors. */
module Api {
  import opened Wrappers
  import opened Strings
  import opened Sorting
  import opened Host
  import opened Catalog

  // ---------------------------------------------------------------------------
  // Directory loops

  /** getFiles: walks the entries of dir, keeps the recognised files and
      sorts them by name. */
  method GetFiles(fs: FileSystem, env: Env, dir: string) returns (files: seq<FileItem>)
    ensures files == ListFiles(fs, env, dir)
    ensures !IsDir(fs, dir) ==> files == []
    ensures TotalPreorder(env.natCaseCmp) ==> SortedBy(files, FileName, env.natCaseCmp)
  {
    assert TotalPreorder(env.natCaseCmp) ==> SortedBy(ListFiles(fs, env, dir), FileName, env.natCaseCmp) by {
      if TotalPreorder(env.natCaseCmp) {
        ListFilesSorted(fs, env, dir);
      }
    }
    if !IsDir(fs, dir) {
      return [];
    }
    var entries := fs.dirs[dir];
    var found: seq<FileItem> := [];
    for i := 0 to |entries|
      invariant found == CollectFiles(env, dir, entries[..i])
    {
      var entry := entries[i];
      CollectFilesStep(env, dir, entries, i);
      if entry.isDot {
        continue;
      }
      if entry.isFile {
        var ext := Lower(Extension(entry.name));
        var kind := Classify(ext);
        if kind.None? {
          continue;
        }
        var fullPath := ReplaceBackslashes(Pathname(env, dir, entry.name));
        var scriptDir := ReplaceBackslashes(env.scriptDir);
        var relativePath := Substr(fullPath, |scriptDir| + 1);
        var item := FileItem(entry.name, relativePath, kind.value, env.formatDate(entry.mtime));
        assert item == FileItemOf(env, dir, entry);
        found := found + [item];
      }
    }
    assert entries[..|entries|] == entries;
    files := SortBy(found, FileName, env.natCaseCmp);
  }

  /** getFinalPreview: the path and date of the first video in the sorted
      listing of the category's Final folder, found by a scan that stops at
      the first video. */
  method GetFinalPreview(fs: FileSystem, env: Env, categoryPath: string) returns (preview: Option<Preview>)
    ensures preview == FinalPreview(fs, env, categoryPath)
    ensures preview.Some? ==> IsDir(fs, categoryPath + "/Final")
  {
    var finalPath := categoryPath + "/Final";
    if IsDir(fs, finalPath) {
      var files := GetFiles(fs, env, finalPath);
      for i := 0 to |files|
        invariant FirstVideo(files[i..]) == FirstVideo(files)
      {
        if files[i].kind == Video {
          return Some(Preview(files[i].path, files[i].date));
        }
        assert files[i..][1..] == files[i + 1..];
      }
      assert files[|files|..] == [];
    }
    return None;
  }

  /** The categories mode: a record per subdirectory of the content
      directory, with its preview, sorted by name. */
  method ListCategories(fs: FileSystem, env: Env) returns (categories: seq<CategoryItem>)
    requires IsDir(fs, BaseDir(env))
    ensures categories == CategoryListing(fs, env)
    ensures TotalPreorder(env.natCaseCmp) ==> SortedBy(categories, CategoryName, env.natCaseCmp)
  {
    assert TotalPreorder(env.natCaseCmp) ==> SortedBy(CategoryListing(fs, env), CategoryName, env.natCaseCmp) by {
      if TotalPreorder(env.natCaseCmp) {
        CategoryListingSorted(fs, env);
      }
    }
    var baseDir := BaseDir(env);
    var entries := fs.dirs[baseDir];
    var found: seq<CategoryItem> := [];
    for i := 0 to |entries|
      invariant found == CollectCategories(fs, env, baseDir, entries[..i])
    {
      var entry := entries[i];
      CollectCategoriesStep(fs, env, baseDir, entries, i);
      if !entry.isDot && entry.isDir {
        var previewData := GetFinalPreview(fs, env, Pathname(env, baseDir, entry.name));
        var item := CategoryItem(
          entry.name,
          if previewData.Some? then Some(previewData.value.path) else None,
          if previewData.Some? then Some(previewData.value.date) else None);
        found := found + [item];
      }
    }
    assert entries[..|entries|] == entries;
    categories := SortBy(found, CategoryName, env.natCaseCmp);
  }

  /** The projects mode once the category folder is resolved: a record per
      subdirectory with its files and tags, sorted by name. */
  method ListProjects(fs: FileSystem, env: Env, categoryPath: string) returns (projects: seq<ProjectItem>)
    requires IsDir(fs, categoryPath)
    ensures projects == ProjectListing(fs, env, categoryPath)
    ensures TotalPreorder(env.natCaseCmp) ==> SortedBy(projects, ProjectName, env.natCaseCmp)
  {
    assert TotalPreorder(env.natCaseCmp) ==> SortedBy(ProjectListing(fs, env, categoryPath), ProjectName, env.natCaseCmp) by {
      if TotalPreorder(env.natCaseCmp) {
        ProjectListingSorted(fs, env, categoryPath);
      }
    }
    var entries := fs.dirs[categoryPath];
    var found: seq<ProjectItem> := [];
    for i := 0 to |entries|
      invariant found == CollectProjects(fs, env, categoryPath, entries[..i])
    {
      var entry := entries[i];
      CollectProjectsStep(fs, env, categoryPath, entries, i);
      if !entry.isDot && entry.isDir {
        var projectPath := Pathname(env, categoryPath, entry.name);
        var projectFiles := GetFiles(fs, env, projectPath);
        var tags: seq<string> := [];
        var tagsFile := projectPath + "/tags.txt";
        if FileExists(fs, tagsFile) {
          tags := ParseTags(ReadFile(fs, tagsFile));
        }
        assert tags == TagsOf(fs, projectPath);
        found := found + [ProjectItem(entry.name, projectFiles, tags)];
      }
    }
    assert entries[..|entries|] == entries;
    projects := SortBy(found, ProjectName, env.natCaseCmp);
  }

  // ---------------------------------------------------------------------------
  // Requests and responses

  datatype Payload = CategoryData(categories: seq<CategoryItem>) | ProjectData(projects: seq<ProjectItem>)

  /** What the endpoint answers: the JSON success envelope, the JSON error
      envelope (sent with status 500), a plain-text body, or the zip archive
      of a project folder offered under a file name. */
  datatype Response =
    | JsonSuccess(data: Payload)
    | JsonError(message: string)
    | PlainText(body: string)
    | ZipAttachment(projectPath: string, fileName: string)

  /** A query parameter, or the empty string when it is absent; an absent
      parameter is therefore falsy. */
  function Param(query: map<string, string>, key: string): (v: string)
    ensures key in query ==> v == query[key]
    ensures key !in query ==> v == "" && Falsy(v)
  {
    if key in query then query[key] else ""
  }

  /** The error answer of a mode: the JSON envelope, except in download mode,
      which answers in plain text. Either way it carries the message. */
  function ErrorResponse(mode: string, message: string): (r: Response)
    ensures ErrorMessage(r) == Some(message)
    ensures r.JsonError? <==> mode != "download"
    ensures r.PlainText? <==> mode == "download"
  {
    if mode != "download" then JsonError(message)
    else
      var body := "Error: " + message;
      assert body[..7] == "Error: " && body[7..] == message;
      PlainText(body)
  }

  /** The message a client reads from an error answer. */
  function ErrorMessage(response: Response): Option<string> {
    match response
    case JsonError(message) => Some(message)
    case PlainText(body) => if |body| >= 7 && body[..7] == "Error: " then Some(body[7..]) else None
    case _ => None
  }

  /** The category folder of the projects mode: the category must be truthy,
      only its base name is used, and the folder must exist. */
  function CategoryPath(fs: FileSystem, env: Env, category: string): (r: Result<string>)
    ensures r == Failure("Category is required.") <==> Falsy(category)
    ensures r.Success? <==> !Falsy(category) && IsDir(fs, BaseDir(env) + "/" + Basename(category))
    ensures r.Success? ==> r.value == BaseDir(env) + "/" + Basename(category) && '/' !in Basename(category)
    ensures r.Failure? && !Falsy(category) ==> r.error == "Category not found."
  {
    if Falsy(category) then Failure("Category is required.")
    else
      var categoryPath := BaseDir(env) + "/" + Basename(category);
      if !IsDir(fs, categoryPath) then Failure("Category not found.") else Success(categoryPath)
  }

  /** Only the last path component of a category counts: leading directory
      components, such as "../..", are ignored. */
  lemma CategoryPathIgnoresDirectories(fs: FileSystem, env: Env, dir: string, name: string)
    requires name != [] && '/' !in name && !Falsy(name)
    ensures CategoryPath(fs, env, dir + "/" + name) == CategoryPath(fs, env, name)
  {
    BasenameOfChild(dir, name);
    BasenameOfName(name);
  }

  /** Two truthy categories with the same base name resolve alike. */
  lemma CategoryPathByBasename(fs: FileSystem, env: Env, c1: string, c2: string)
    requires !Falsy(c1) && !Falsy(c2) && Basename(c1) == Basename(c2)
    ensures CategoryPath(fs, env, c1) == CategoryPath(fs, env, c2)
  {
  }

  /** The project folder of the download mode: both parameters must be
      truthy and are joined to the content directory as they are. */
  function ProjectPath(fs: FileSystem, env: Env, category: string, project: string): (r: Result<string>)
    ensures r == Failure("Category and Project required.") <==> Falsy(category) || Falsy(project)
    ensures r.Success? <==>
              !Falsy(category) && !Falsy(project) && IsDir(fs, BaseDir(env) + "/" + category + "/" + project)
    ensures r.Failure? && !Falsy(category) && !Falsy(project) ==> r.error == "Project not found."
  {
    if Falsy(category) || Falsy(project) then Failure("Category and Project required.")
    else
      var projectPath := BaseDir(env) + "/" + category + "/" + project;
      if !IsDir(fs, projectPath) then Failure("Project not found.") else Success(projectPath)
  }

  /** Unlike the projects mode, the download mode keeps the directory
      components of the category: a category such as "../x" selects the
      category x in the projects mode but the folder x beside the content
      directory in the download mode. */
  lemma DownloadKeepsDirectories(fs: FileSystem, env: Env, dir: string, name: string, project: string)
    requires name != [] && '/' !in name && !Falsy(name) && !Falsy(project)
    ensures CategoryPath(fs, env, dir + "/" + name) == CategoryPath(fs, env, name)
    ensures ProjectPath(fs, env, dir + "/" + name, project).Success? ==>
              ProjectPath(fs, env, dir + "/" + name, project).value == BaseDir(env) + "/" + dir + "/" + name + "/" + project
  {
    CategoryPathIgnoresDirectories(fs, env, dir, name);
    var category := dir + "/" + name;
    assert !Falsy(category) by {
      assert |category| >= 2;
    }
    JoinRegroup(BaseDir(env), dir, name, project);
  }

  lemma JoinRegroup(base: string, dir: string, name: string, project: string)
    ensures base + "/" + (dir + "/" + name) + "/" + project == base + "/" + dir + "/" + name + "/" + project
  {
  }

  /** The name the archive is offered under: the base name of the project
      parameter with ".zip" appended. */
  function AttachmentName(project: string): (name: string)
    ensures '/' !in name
  {
    Basename(project) + ".zip"
  }

  lemma AttachmentNameOfChild(dir: string, name: string)
    requires name != [] && '/' !in name
    ensures AttachmentName(dir + "/" + name) == name + ".zip"
  {
    BasenameOfChild(dir, name);
  }

  /** The name of a file inside the archive: its path with the project
      folder and the separator after it removed. */
  function ZipEntryName(projectPath: string, filePath: string): (name: string)
    ensures |projectPath| < |filePath| ==>
              filePath == filePath[..|projectPath| + 1] + name && |name| == |filePath| - |projectPath| - 1
    ensures |filePath| <= |projectPath| ==> name == []
  {
    Substr(filePath, |projectPath| + 1)
  }

  /** A file below the project folder is stored under its path relative to
      that folder. */
  lemma ZipEntryNameOfChild(projectPath: string, relative: string)
    ensures ZipEntryName(projectPath, projectPath + "/" + relative) == relative
  {
    assert (projectPath + "/" + relative)[|projectPath| + 1..] == relative;
  }

  /** Handles one request: fails when the content directory is missing, then
      dispatches on the mode; every failure is shaped by the mode. */
  method HandleRequest(fs: FileSystem, env: Env, query: map<string, string>) returns (response: Response)
    ensures !IsDir(fs, BaseDir(env)) ==> response == ErrorResponse(Param(query, "mode"), "Content directory not found.")
    ensures IsDir(fs, BaseDir(env)) && Param(query, "mode") == "categories" ==>
              response == JsonSuccess(CategoryData(CategoryListing(fs, env)))
    ensures IsDir(fs, BaseDir(env)) && Param(query, "mode") == "projects" ==>
              response == match CategoryPath(fs, env, Param(query, "category"))
                          case Success(categoryPath) => JsonSuccess(ProjectData(ProjectListing(fs, env, categoryPath)))
                          case Failure(message) => JsonError(message)
    ensures IsDir(fs, BaseDir(env)) && Param(query, "mode") == "download" ==>
              response == match ProjectPath(fs, env, Param(query, "category"), Param(query, "project"))
                          case Success(projectPath) => ZipAttachment(projectPath, AttachmentName(Param(query, "project")))
                          case Failure(message) => PlainText("Error: " + message)
    ensures IsDir(fs, BaseDir(env)) && Param(query, "mode") !in ["categories", "projects", "download"] ==>
              response == JsonError("Invalid mode.")
    ensures Param(query, "mode") != "download" ==> response.JsonSuccess? || response.JsonError?
    ensures Param(query, "mode") == "download" ==> response.PlainText? || response.ZipAttachment?
  {
    var mode := Param(query, "mode");
    if !IsDir(fs, BaseDir(env)) {
      return ErrorResponse(mode, "Content directory not found.");
    }
    if mode == "categories" {
      var categories := ListCategories(fs, env);
      response := JsonSuccess(CategoryData(categories));
    } else if mode == "projects" {
      var category := Param(query, "category");
      match CategoryPath(fs, env, category)
      case Failure(message) =>
        response := ErrorResponse(mode, message);
      case Success(categoryPath) =>
        var projects := ListProjects(fs, env, categoryPath);
        response := JsonSuccess(ProjectData(projects));
    } else if mode == "download" {
      var category := Param(query, "category");
      var project := Param(query, "project");
      match ProjectPath(fs, env, category, project)
      case Failure(message) =>
        response := ErrorResponse(mode, message);
      case Success(projectPath) =>
        response := ZipAttachment(projectPath, AttachmentName(project));
    } else {
      response := ErrorResponse(mode, "Invalid mode.");
    }
  }
}
