/** Where the backend's public directory is: the nearest ancestor of the code's own directory,
    itself included, that is named 'backend', with '/public' appended; failing that, five
    levels up plus '/public'. The same walk runs in the resolver service and in the local file
    storage, which saves files below that directory. */
module PublicDirectory {
  import opened Wrappers
  import opened Strings
  import Files

  /** An absolute path, as its segments below the filesystem root. */
  type Path = seq<string>

  /** The path as PHP writes it: "/" for the root, "/a/b" below it. */
  function PathText(p: Path): string { "/" + Join(p, "/") }

  /** dirname: the parent; the root is its own parent. */
  function Parent(p: Path): (r: Path)
    ensures |p| > 0 ==> |r| == |p| - 1 && r == p[..|p| - 1]
    ensures |p| == 0 ==> r == p
  {
    if |p| == 0 then p else p[..|p| - 1]
  }

  /** dirname($p, $levels): up that many levels, stopping at the root. */
  function Ancestor(p: Path, levels: nat): (r: Path)
    ensures |r| == (if |p| >= levels then |p| - levels else 0)
    ensures r == p[..|r|]
  {
    if levels == 0 then p else Ancestor(Parent(p), levels - 1)
  }

  /** The nearest ancestor of dir, dir included, whose last segment is 'backend'. */
  function BackendRoot(dir: Path): Option<Path>
  {
    if |dir| == 0 then None
    else if dir[|dir| - 1] == "backend" then Some(dir)
    else BackendRoot(dir[..|dir| - 1])
  }

  /** p is an ancestor of dir (or dir itself) named 'backend', and no nearer one is. */
  predicate NearestBackend(dir: Path, p: Path) {
    && 0 < |p| <= |dir| && p == dir[..|p|] && p[|p| - 1] == "backend"
    && forall k :: |p| <= k < |dir| ==> dir[k] != "backend"
  }

  /** What the walk finds: the nearest 'backend' ancestor when there is one, and nothing only
      when no segment of the path is 'backend'. */
  lemma {:induction false} BackendRootNearest(dir: Path)
    ensures BackendRoot(dir).Some? ==> NearestBackend(dir, BackendRoot(dir).value)
    ensures BackendRoot(dir).None? <==> forall k :: 0 <= k < |dir| ==> dir[k] != "backend"
  {
    if |dir| > 0 && dir[|dir| - 1] != "backend" {
      var init := dir[..|dir| - 1];
      BackendRootNearest(init);
      assert forall k :: 0 <= k < |init| ==> init[k] == dir[k];
      if BackendRoot(init).Some? {
        var p := BackendRoot(init).value;
        assert p == dir[..|p|];
      }
    }
  }

  /** getPublicDir's result for code living in `dir`. */
  function PublicDirOf(dir: Path): string
  {
    match BackendRoot(dir)
    case Some(root) => PathText(root) + "/public"
    case None => PathText(Ancestor(dir, 5)) + "/public"
  }

  /** The public directory always ends with '/public'. */
  lemma PublicDirEndsWithPublic(dir: Path)
    ensures |PublicDirOf(dir)| >= 7
    ensures PublicDirOf(dir)[|PublicDirOf(dir)| - 7..] == "/public"
  {
    var head := match BackendRoot(dir) case Some(root) => PathText(root) case None => PathText(Ancestor(dir, 5));
    assert PublicDirOf(dir) == head + "/public";
    assert (head + "/public")[|head|..] == "/public";
  }

  /** The ancestor walk of getPublicDir. The loop climbs while the directory is not its own
      parent, that is, until it reaches the root; an absolute path's text is never empty, so
      PHP's truthiness test on `$dir` adds nothing. */
  method GetPublicDir(dir: Path) returns (publicDir: string)
    ensures publicDir == PublicDirOf(dir)
  {
    var d := dir;
    var backendRoot: Option<Path> := None;
    while |d| > 0
      invariant |d| <= |dir| && d == dir[..|d|]
      invariant BackendRoot(d) == BackendRoot(dir)
      invariant backendRoot.None?
      decreases |d|
    {
      if d[|d| - 1] == "backend" {
        backendRoot := Some(d);
        break;
      }
      assert d[..|d| - 1] == dir[..|d| - 1];
      d := Parent(d);
    }
    if backendRoot.None? {
      publicDir := PathText(Ancestor(dir, 5)) + "/public";
    } else {
      publicDir := PathText(backendRoot.value) + "/public";
    }
  }

  /** LocalFileStorage: the public directory is resolved once, and files are saved below it. */
  class LocalFileStorage {
    const publicDir: string
    const fs: Files.FileSystem

    constructor (dir: Path, fs: Files.FileSystem)
      ensures publicDir == PublicDirOf(dir) && this.fs == fs
    {
      var resolved := GetPublicDir(dir);
      publicDir := resolved;
      this.fs := fs;
    }

    /** save: the relative path loses every leading '/', the parent directory is created when
        missing, and the file is written; no other file changes. */
    method Save(relativePath: string, contents: string)
      modifies fs
      ensures fs.files == old(fs.files)[FullPath(publicDir, relativePath) := contents]
      ensures fs.dirs == old(fs.dirs) + {Files.DirName(FullPath(publicDir, relativePath))}
    {
      var rel := LTrim(relativePath, '/');
      var fullPath := publicDir + "/" + rel;
      var dir := Files.DirName(fullPath);
      if dir !in fs.dirs {
        fs.MakeDirs(dir);
      }
      fs.Write(fullPath, contents);
    }
  }

  /** Where save puts a relative path. */
  function FullPath(publicDir: string, relativePath: string): string
  {
    publicDir + "/" + LTrim(relativePath, '/')
  }

  /** Leading slashes do not matter: '/tmp/x' and 'tmp/x' name the same file, and the file
      lies below the public directory. */
  lemma FullPathLeadingSlash(publicDir: string, relativePath: string)
    ensures FullPath(publicDir, "/" + relativePath) == FullPath(publicDir, relativePath)
    ensures FullPath(publicDir, relativePath)[..|publicDir| + 1] == publicDir + "/"
  {
    assert ("/" + relativePath)[1..] == relativePath;
  }
}
