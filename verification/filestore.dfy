/** The storage directory (`base_dir`) seen as state: regular files with
    their bytes and modification times, and directories. Paths are relative
    to the storage directory, whose own path is the empty string. The
    methods of `FileSystem` are the PHP filesystem calls the gateway makes:
    `is_dir`, `file_exists`, `mkdir(..., true)`, `fopen(..., 'w')` with a
    stream copy, `unlink`, `rmdir` and `glob`. */
module FileStore {
  import opened PhpStrings

  /** A regular file: its bytes and its modification time in seconds. */
  datatype FileEntry = FileEntry(data: string, mtime: int)

  /** The storage directory itself. */
  const Root: string := ""

  /** The directory that holds `p`: everything before its last `/`. */
  function Parent(p: string): (r: string)
    ensures p != Root ==> |r| < |p|
  {
    var i := LastIndexOf('/', p);
    if i < 0 then Root else p[..i]
  }

  /** The directory of `d/n` is `d` when the name `n` has no `/`. */
  lemma ParentOfChild(d: string, n: string)
    requires '/' !in n
    ensures Parent(d + "/" + n) == d
  {
    var p := d + "/" + n;
    assert p[|d|] == '/';
    forall j | |d| < j < |p| ensures p[j] != '/' {
      assert p[j] == n[j - |d| - 1];
    }
    assert p[..|d|] == d;
  }

  /** The last component of `p`, the name `glob` matches against. */
  function Name(p: string): string
  {
    p[LastIndexOf('/', p) + 1..]
  }

  /** The name of `d/n` is `n` when `n` has no `/`. */
  lemma NameOfChild(d: string, n: string)
    requires '/' !in n
    ensures Name(d + "/" + n) == n
  {
    var p := d + "/" + n;
    assert p[|d|] == '/';
    forall j | |d| < j < |p| ensures p[j] != '/' {
      assert p[j] == n[j - |d| - 1];
    }
    assert p[|d| + 1..] == n;
  }

  /** `glob` does not match names that begin with a dot. */
  predicate Hidden(p: string)
  {
    var n := Name(p);
    n != "" && n[0] == '.'
  }

  /** The directories `mkdir($p, 0777, true)` makes sure of: every prefix of
      `p` that stops just before a `/`, and `p` itself. */
  function Prefixes(p: string): (r: set<string>)
    ensures p in r
  {
    (set i | 0 < i < |p| && p[i] == '/' :: p[..i]) + {p}
  }

  /** The parent of a directory `mkdir` creates is created with it (or is
      the storage directory). */
  lemma ParentOfPrefix(p: string, q: string)
    requires q in Prefixes(p)
    ensures Parent(q) == Root || Parent(q) in Prefixes(p)
  {
    var j := LastIndexOf('/', q);
    if j > 0 {
      assert q <= p;
      assert p[j] == '/' && p[..j] == q[..j];
    }
  }

  /** A name without `/` is its own only prefix. */
  lemma PrefixesOfName(n: string)
    requires '/' !in n
    ensures Prefixes(n) == {n}
  {
  }

  /** `q` lies somewhere below the directory `d` (everything lies below the
      storage directory). */
  predicate Below(d: string, q: string)
  {
    d == Root || (|q| > |d| && q[..|d|] == d && q[|d|] == '/')
  }

  /** The directories after `if (!is_dir($p)) mkdir($p, 0777, true)`. */
  function Prepared(files: map<string, FileEntry>, dirs: set<string>, p: string): set<string>
  {
    if p in dirs then dirs
    else if (forall q :: q in Prefixes(p) ==> q !in files) then dirs + Prefixes(p)
    else dirs
  }

  class FileSystem {
    var files: map<string, FileEntry>
    var dirs: set<string>

    /** The storage directory exists, no path is both a file and a
        directory, and everything but the storage directory sits in a
        directory. */
    ghost predicate Valid()
      reads this
    {
      && Root in dirs
      && (forall p :: p in files ==> p !in dirs && Parent(p) in dirs)
      && (forall d :: d in dirs && d != Root ==> Parent(d) in dirs)
    }

    /** The storage directory after start-up, which creates it when missing. */
    constructor ()
      ensures Valid()
      ensures files == map[] && dirs == {Root}
    {
      files := map[];
      dirs := {Root};
    }

    /** `file_exists` on a regular file. */
    predicate IsFile(p: string)
      reads this
    {
      p in files
    }

    /** `is_dir`. */
    predicate IsDir(p: string)
      reads this
    {
      p in dirs
    }

    /** Some file or directory sits directly in `d`. */
    predicate HasEntries(d: string)
      reads this
    {
      || (exists q :: q in files && Parent(q) == d)
      || (exists q :: q in dirs && q != Root && Parent(q) == d)
    }

    /** What `glob` returns for the pattern `*` inside `d`: the entries directly in `d` whose
        names do not begin with a dot. */
    function Glob(d: string): (r: set<string>)
      reads this
      ensures forall q :: q in r ==> Parent(q) == d && !Hidden(q)
    {
      set q | q in files.Keys + dirs && q != Root && Parent(q) == d && !Hidden(q)
    }

    /** `glob` with `GLOB_ONLYDIR`: the directories among `Glob(d)`. */
    function GlobDirs(d: string): (r: set<string>)
      reads this
      ensures r <= dirs
    {
      set q | q in Glob(d) && q in dirs
    }

    /** The regular files anywhere below directory `d`. */
    function FilesBelow(d: string): (r: set<string>)
      reads this
      ensures forall q :: q in r <==> q in files && Below(d, q)
    {
      set q | q in files && Below(d, q)
    }

    /** `mkdir($p, 0777, true)`: creates every missing directory on the way
        to `p`. PHP starts from the longest prefix that exists; when that
        prefix is a regular file, the next `mkdir` fails and nothing is
        created. */
    method Mkdirs(p: string)
      requires Valid()
      modifies this
      ensures Valid()
      ensures files == old(files)
      ensures dirs == if (forall q :: q in Prefixes(p) ==> q !in old(files))
                      then old(dirs) + Prefixes(p) else old(dirs)
    {
      if (forall q | q in Prefixes(p) :: q !in files) {
        forall q | q in Prefixes(p) && q != Root
          ensures Parent(q) == Root || Parent(q) in Prefixes(p)
        {
          ParentOfPrefix(p, q);
        }
        dirs := dirs + Prefixes(p);
      }
    }

    /** `if (!is_dir($p)) mkdir($p, 0777, true);` */
    method EnsureDir(p: string)
      requires Valid()
      modifies this
      ensures Valid()
      ensures files == old(files)
      ensures dirs == Prepared(old(files), old(dirs), p)
      ensures Prepared(old(files), old(dirs), p) >= old(dirs)
    {
      if p !in dirs {
        Mkdirs(p);
      }
    }

    /** `fopen($p, 'w')` followed by a copy of `data` into it: succeeds when
        the directory of `p` exists and `p` is not a directory, and then
        replaces whatever was at `p`. */
    method WriteFile(p: string, data: string, now: int) returns (ok: bool)
      requires Valid()
      modifies this
      ensures Valid()
      ensures ok <==> Parent(p) in old(dirs) && p !in old(dirs)
      ensures dirs == old(dirs)
      ensures files == if ok then old(files)[p := FileEntry(data, now)] else old(files)
    {
      ok := Parent(p) in dirs && p !in dirs;
      if ok {
        files := files[p := FileEntry(data, now)];
      }
    }

    /** `stream_copy_to_stream` into a handle already open on `p`: appends. */
    method AppendFile(p: string, data: string, now: int)
      requires Valid() && p in files
      modifies this
      ensures Valid()
      ensures dirs == old(dirs)
      ensures files == old(files)[p := FileEntry(old(files)[p].data + data, now)]
    {
      files := files[p := FileEntry(files[p].data + data, now)];
    }

    /** `unlink($p)`: removes a regular file; fails on anything else. */
    method Unlink(p: string) returns (ok: bool)
      requires Valid()
      modifies this
      ensures Valid()
      ensures ok <==> p in old(files)
      ensures dirs == old(dirs)
      ensures files == old(files) - {p}
    {
      ok := p in files;
      files := files - {p};
    }

    /** `rmdir($p)`: removes an empty directory; fails on anything else. */
    method Rmdir(p: string) returns (ok: bool)
      requires Valid()
      modifies this
      ensures Valid()
      ensures ok <==> p in old(dirs) && p != Root && !old(HasEntries(p))
      ensures files == old(files)
      ensures dirs == if ok then old(dirs) - {p} else old(dirs)
    {
      ok := p in dirs && p != Root && !HasEntries(p);
      if ok {
        dirs := dirs - {p};
      }
    }
  }
}
