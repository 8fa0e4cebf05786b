/**
 * The file system both components work on: regular files holding bytes and directories, addressed
 * by path strings. Paths are joined with '/' and are not normalised.
 */
module FileSystem {

  /** One byte of file content. */
  newtype byte = x: int | 0 <= x < 256

  type Path = string

  /** os.path.join(dir, name) for a relative name. */
  function Join(dir: Path, name: string): Path {
    dir + "/" + name
  }

  /** Joining under one directory keeps names apart. */
  lemma JoinInjective(dir: Path, a: string, b: string)
    requires Join(dir, a) == Join(dir, b)
    ensures a == b
  {
    assert a == Join(dir, a)[|dir| + 1..];
  }

  /** Two listings that agree everywhere except at `p`, where the first holds `content`. */
  lemma FilesDifferOnlyAt(f: map<Path, seq<byte>>, f0: map<Path, seq<byte>>, p: Path, content: seq<byte>)
    requires p in f && f[p] == content
    requires forall q :: q != p ==> (q in f <==> q in f0)
    requires forall q :: q != p && q in f0 ==> f[q] == f0[q]
    ensures f == f0[p := content]
  {
  }

  /** str.rfind for one character: the last position holding `c`, or -1 when there is none. */
  function LastIndexOf(s: string, c: char): (r: int)
    ensures -1 <= r < |s|
    ensures r >= 0 ==> s[r] == c
    ensures forall k :: r < k < |s| ==> s[k] != c
    decreases |s|
  {
    if s == [] then -1
    else if s[|s| - 1] == c then |s| - 1
    else LastIndexOf(s[..|s| - 1], c)
  }

  /**
   * os.path.splitext(p)[1] on POSIX: from the last '.' to the end, provided that dot comes after
   * the last '/' and something other than dots precedes it within the last component; otherwise
   * empty. So ".bashrc" has no extension and "a.tar.gz" has ".gz".
   */
  function Extension(p: string): (ext: string)
    ensures |ext| <= |p| && ext == p[|p| - |ext|..]
    ensures ext == [] || ext[0] == '.'
    ensures forall k :: 0 < k < |ext| ==> ext[k] != '.' && ext[k] != '/'
  {
    var sep := LastIndexOf(p, '/');
    var dot := LastIndexOf(p, '.');
    if sep < dot && exists k :: sep < k < dot && p[k] != '.' then p[dot..] else []
  }

  /**
   * The file system as a mutable object: `files` maps the path of each regular file to its bytes and
   * `dirs` holds the paths of the existing directories; no path is both.
   */
  class Disk {
    var files: map<Path, seq<byte>>
    var dirs: set<Path>

    ghost predicate Valid()
      reads this
    {
      files.Keys !! dirs
    }

    constructor (files0: map<Path, seq<byte>>, dirs0: set<Path>)
      requires files0.Keys !! dirs0
      ensures Valid() && files == files0 && dirs == dirs0
    {
      files := files0;
      dirs := dirs0;
    }

    /** os.path.exists: true for files and for directories. */
    predicate Exists(p: Path)
      reads this
    {
      p in files || p in dirs
    }

    /** os.makedirs(p, exist_ok=True): fails only when a regular file already sits at `p`. */
    method MakeDirs(p: Path) returns (ok: bool)
      requires Valid()
      modifies this
      ensures Valid()
      ensures ok == (p !in old(files))
      ensures files == old(files)
      ensures dirs == if ok then old(dirs) + {p} else old(dirs)
    {
      ok := p !in files;
      if ok {
        dirs := dirs + {p};
      }
    }

    /** os.remove(p): deletes a regular file; raises for a directory or a missing path. */
    method Remove(p: Path) returns (ok: bool)
      requires Valid()
      modifies this
      ensures Valid()
      ensures ok == (p in old(files))
      ensures files == old(files) - {p}
      ensures dirs == old(dirs)
    {
      ok := p in files;
      files := files - {p};
    }

    /**
     * open(join(dir, name), 'wb').write(content): creates or truncates the file; raises when `dir`
     * is not a directory or the target is one.
     */
    method WriteFile(dir: Path, name: string, content: seq<byte>) returns (ok: bool)
      requires Valid()
      modifies this
      ensures Valid()
      ensures ok == (dir in old(dirs) && Join(dir, name) !in old(dirs))
      ensures files == if ok then old(files)[Join(dir, name) := content] else old(files)
      ensures dirs == old(dirs)
    {
      ok := dir in dirs && Join(dir, name) !in dirs;
      if ok {
        files := files[Join(dir, name) := content];
      }
    }
  }

  /** Names with an extension: the part from the last dot on. */
  lemma ExtensionExamples()
    ensures Extension("b.txt") == ".txt"
    ensures Extension("a.tar.gz") == ".gz"
  {
    var b := "b.txt";
    assert LastIndexOf(b, '.') == 1 by { assert b[1] == '.'; }
    assert b[0] != '.';
    var a := "a.tar.gz";
    assert LastIndexOf(a, '.') == 5 by { assert a[5] == '.'; }
    assert a[0] != '.';
  }

  /** Names without an extension: no dot at all, or only the leading dot of a hidden file. */
  lemma NoExtensionExamples()
    ensures Extension("notes") == ""
    ensures Extension(".bashrc") == ""
  {
  }
}
