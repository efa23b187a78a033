/** What the endpoint reads from its host: the directory tree under the script
    directory, the script directory itself (__DIR__), the platform's directory
    separator, the natural case-insensitive name comparator (strnatcasecmp) and
    the date formatter. The filesystem is plain data: a map from directory
    paths to their listings and a map from file paths to their contents. */
module Host {
  import opened Strings

  /** One item produced by iterating a directory: its file name, whether it is
      "." or "..", whether it is a regular file, whether it is a directory, and
      its modification time. */
  datatype Entry = Entry(name: string, isDot: bool, isFile: bool, isDir: bool, mtime: int)

  /** is_dir(p) holds exactly for the keys of dirs, whose values are the
      listings in iteration order; files holds the text of regular files. */
  datatype FileSystem = FileSystem(dirs: map<string, seq<Entry>>, files: map<string, string>)

  /** scriptDir is __DIR__; slash is the separator the directory iterator puts
      between a directory and a file name ('/' on Unix, '\\' on Windows);
      natCaseCmp is strnatcasecmp; formatDate is date("d M Y, h:i A", _). */
  datatype Env = Env(
    scriptDir: string,
    slash: char,
    natCaseCmp: (string, string) -> int,
    formatDate: int -> string)

  predicate IsDir(fs: FileSystem, path: string) {
    path in fs.dirs
  }

  /** file_exists holds for directories as well as for files. */
  predicate FileExists(fs: FileSystem, path: string) {
    path in fs.dirs || path in fs.files
  }

  /** file_get_contents; reading a directory yields no text. */
  function ReadFile(fs: FileSystem, path: string): string {
    if path in fs.files then fs.files[path] else ""
  }

  /** $baseDir: the folder named content inside the script directory. */
  function BaseDir(env: Env): (d: string)
    ensures |d| > |env.scriptDir| && d[..|env.scriptDir|] == env.scriptDir && d[|env.scriptDir|] == '/'
    ensures Basename(d) == "content"
  {
    var d := env.scriptDir + "/content";
    assert d[..|env.scriptDir|] == env.scriptDir;
    assert '/' !in "content" by {
      assert "content" == ['c', 'o', 'n', 't', 'e', 'n', 't'];
    }
    BasenameOfChild(env.scriptDir, "content");
    assert d == env.scriptDir + "/" + "content";
    d
  }

  /** getPathname() of an entry met while iterating dir: the iterator drops
      one trailing separator of dir (when dir is longer than one character)
      and joins dir and the file name with the platform separator. */
  function Pathname(env: Env, dir: string, name: string): (p: string)
    ensures |dir| <= 1 || (dir[|dir| - 1] != '/' && dir[|dir| - 1] != env.slash) ==> p == dir + [env.slash] + name
    ensures |dir| > 1 && (dir[|dir| - 1] == '/' || dir[|dir| - 1] == env.slash) ==>
              p == dir[..|dir| - 1] + [env.slash] + name
  {
    var trimmed :=
      if |dir| > 1 && (dir[|dir| - 1] == '/' || dir[|dir| - 1] == env.slash) then dir[..|dir| - 1] else dir;
    trimmed + [env.slash] + name
  }

  /** The path sent to the client: the full path with backslashes turned into
      slashes, minus the slash-normalised script directory and the separator
      after it. */
  function RelativePath(env: Env, fullPath: string): (r: string)
    ensures '\\' !in r
  {
    Substr(ReplaceBackslashes(fullPath), |ReplaceBackslashes(env.scriptDir)| + 1)
  }

  /** A file in a directory below the script directory gets as its path the
      part below the script directory, with forward slashes, whichever
      separator the platform uses and whichever separator joins the script
      directory to the rest. */
  lemma RelativePathBelowScriptDir(env: Env, sep: char, sub: string, name: string)
    requires sep == '/' || sep == '\\'
    requires sub != [] && sub[|sub| - 1] != '/' && sub[|sub| - 1] != env.slash
    ensures RelativePath(env, Pathname(env, env.scriptDir + [sep] + sub, name))
         == ReplaceBackslashes(sub + [env.slash] + name)
  {
    var dir := env.scriptDir + [sep] + sub;
    assert dir[|dir| - 1] == sub[|sub| - 1];
    var full := dir + [env.slash] + name;
    assert full == env.scriptDir + ([sep] + (sub + [env.slash] + name));
    ReplaceBackslashesConcat(env.scriptDir, [sep] + (sub + [env.slash] + name));
    ReplaceBackslashesConcat([sep], sub + [env.slash] + name);
    var n := ReplaceBackslashes(full);
    var k := |ReplaceBackslashes(env.scriptDir)|;
    assert n[k + 1..] == ReplaceBackslashes(sub + [env.slash] + name);
  }
}
