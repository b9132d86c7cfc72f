/** The filesystem the backend writes into, as a map from full path to contents plus the set
    of directories that exist. Paths are PHP path strings with '/' as the separator. */
module Files {
  import opened Wrappers
  import opened Strings

  class FileSystem {
    var files: map<string, string>
    var dirs: set<string>

    constructor ()
      ensures files == map[] && dirs == {}
    {
      files := map[];
      dirs := {};
    }

    /** file_put_contents: the path holds the contents; no other file changes. */
    method Write(path: string, contents: string)
      modifies this
      ensures files == old(files)[path := contents] && dirs == old(dirs)
    {
      files := files[path := contents];
    }

    /** mkdir(..., true): the directory exists afterwards. */
    method MakeDirs(path: string)
      modifies this
      ensures dirs == old(dirs) + {path} && files == old(files)
    {
      dirs := dirs + {path};
    }

    /** unlink: the file is gone; no other file changes. A missing file is no error. */
    method Unlink(path: string)
      modifies this
      ensures files == old(files) - {path} && dirs == old(dirs)
    {
      files := files - {path};
    }
  }

  /** Index of the last '/' in p, if any. */
  function LastSlash(p: string): (r: Option<nat>)
    ensures r.Some? ==> (r.value < |p| && p[r.value] == '/'
                         && forall k :: r.value < k < |p| ==> p[k] != '/')
    ensures r.None? ==> forall k :: 0 <= k < |p| ==> p[k] != '/'
  {
    if |p| == 0 then None
    else if p[|p| - 1] == '/' then Some(|p| - 1)
    else LastSlash(p[..|p| - 1])
  }

  /** dirname (with '/' as the separator): '' for an empty path; otherwise the trailing '/'
      are dropped, then the last segment, then the '/' before it. What is left is the
      directory; "/" when only the root is left, "." when the path has no '/' before its
      last segment. */
  function DirName(p: string): (r: string)
    ensures |p| == 0 <==> r == ""
    ensures r == "/" || r == "." || r == "" ||
            (0 < |r| < |p| && r == p[..|r|] && p[|r|] == '/' && r[|r| - 1] != '/')
  {
    if |p| == 0 then ""
    else
      var q := RTrim(p, '/');
      if |q| == 0 then "/"
      else match LastSlash(q)
        case None => "."
        case Some(k) =>
          var d := RTrim(q[..k], '/');
          if |d| == 0 then "/" else d
  }

  /** The directory of `dir`, one or more '/', a name and any number of trailing '/', is dir
      (for a dir that does not end with '/'). */
  lemma DirNameOfChild(dir: string, m: nat, name: string, n: nat)
    requires |dir| > 0 && dir[|dir| - 1] != '/'
    requires m > 0 && |name| > 0
    requires forall k :: 0 <= k < |name| ==> name[k] != '/'
    ensures DirName(dir + Repeat('/', m) + name + Repeat('/', n)) == dir
  {
    var head := dir + Repeat('/', m - 1);
    ChildPathSplit(dir, m, name, n);
    assert RTrim(head, '/') == dir by {
      RTrimAppendSlashes(dir, m - 1);
    }
    DirNameOfNameAfter(head, name, n);
  }

  /** The directory of `head/name` with any trailing '/' is head without its trailing '/',
      when that is not empty. */
  lemma DirNameOfNameAfter(head: string, name: string, n: nat)
    requires |RTrim(head, '/')| > 0 && |name| > 0
    requires forall k :: 0 <= k < |name| ==> name[k] != '/'
    ensures DirName(head + "/" + name + Repeat('/', n)) == RTrim(head, '/')
  {
    var q := head + "/" + name;
    var p := q + Repeat('/', n);
    assert RTrim(p, '/') == q by {
      RTrimAppendSlashes(q, n);
      assert q[|q| - 1] == name[|name| - 1];
    }
    SlashBeforeName(head, name);
    assert q[..|head|] == head;
    DirNameOfParent(p, q, |head|);
  }

  lemma ChildPathSplit(dir: string, m: nat, name: string, n: nat)
    requires m > 0
    ensures dir + Repeat('/', m) + name + Repeat('/', n)
            == dir + Repeat('/', m - 1) + "/" + name + Repeat('/', n)
  {
    RepeatSnoc('/', m);
    assert dir + Repeat('/', m) == dir + Repeat('/', m - 1) + "/";
  }

  /** dirname of a path whose trimmed form q has its last '/' at k, with something other
      than '/' before it: what precedes k, trailing '/' dropped. */
  lemma DirNameOfParent(p: string, q: string, k: nat)
    requires |p| > 0 && RTrim(p, '/') == q && |q| > 0
    requires LastSlash(q) == Some(k) && |RTrim(q[..k], '/')| > 0
    ensures DirName(p) == RTrim(q[..k], '/')
  {
  }

  /** In `head/name`, for a name without '/', the last '/' is the one after head. */
  lemma SlashBeforeName(head: string, name: string)
    requires forall k :: 0 <= k < |name| ==> name[k] != '/'
    ensures LastSlash(head + "/" + name) == Some(|head|)
  {
    var q := head + "/" + name;
    forall j | |head| < j < |q| ensures q[j] != '/' {
      assert q[j] == name[j - |head| - 1];
    }
    LastSlashIs(q, |head|);
  }

  /** The last '/' of a text is at `k` when all later characters are not '/'. */
  lemma LastSlashIs(q: string, k: nat)
    requires k < |q| && q[k] == '/'
    requires forall j :: k < j < |q| ==> q[j] != '/'
    ensures LastSlash(q) == Some(k)
  {
    var r := LastSlash(q);
    assert r.Some?;
  }

  /** A path without '/' has "." as its directory. */
  lemma DirNameOfPlainName(name: string)
    requires |name| > 0 && forall k :: 0 <= k < |name| ==> name[k] != '/'
    ensures DirName(name) == "."
  {
    assert RTrim(name, '/') == name;
  }

  /** A path of nothing but '/' has the root as its directory. */
  lemma DirNameOfSlashes(n: nat)
    requires n > 0
    ensures DirName(Repeat('/', n)) == "/"
  {
    assert RTrim(Repeat('/', n), '/') == [] by {
      RTrimAppendSlashes([], n);
      assert [] + Repeat('/', n) == Repeat('/', n);
    }
  }
}
