/** Slash-separated paths (the parts of Go's path/filepath the core uses) and an
    abstract disk: a map from file path to contents plus a set of directories. */
module Paths {
  import opened Text

  /** Index of the last occurrence of `c` in `s`, or -1. */
  function LastIndexOf(s: string, c: char): (r: int)
    ensures -1 <= r < |s|
    ensures r >= 0 ==> s[r] == c
    ensures forall j :: r < j < |s| ==> s[j] != c
  {
    if s == [] then -1
    else if s[|s| - 1] == c then |s| - 1
    else LastIndexOf(s[..|s| - 1], c)
  }

  /** `s` holds no path separator. */
  predicate NoSlash(s: string) {
    forall j :: 0 <= j < |s| ==> s[j] != '/'
  }

  /** filepath.Base: the final element of a path (trailing-slash cleaning is not modelled). */
  function Base(p: string): (b: string)
    ensures NoSlash(b)
  {
    var k := LastIndexOf(p, '/');
    var b := p[k + 1..];
    assert NoSlash(b) by {
      forall j | 0 <= j < |b| ensures b[j] != '/' {
        assert b[j] == p[k + 1 + j];
      }
    }
    b
  }

  /** filepath.Join of a directory and one element, without lexical cleaning. */
  function Join(dir: string, name: string): string {
    dir + "/" + name
  }

  /** filepath.Ext: the suffix of the final element starting at its last dot, or "". */
  function Ext(p: string): string {
    var b := Base(p);
    var k := LastIndexOf(b, '.');
    if k < 0 then "" else b[k..]
  }

  /** A name whose final element starts with a dot (filepath.Base never returns ""; it returns "."). */
  predicate IsHidden(p: string) {
    Base(p) == "" || Base(p)[0] == '.'
  }

  /** The final element of a joined path is the element that was joined. */
  lemma BaseOfJoin(dir: string, name: string)
    requires NoSlash(name)
    ensures Base(Join(dir, name)) == name
  {
    var p := Join(dir, name);
    var k := LastIndexOf(p, '/');
    assert p[|dir|] == '/';
    assert forall j :: |dir| < j < |p| ==> p[j] == name[j - |dir| - 1];
    assert k == |dir|;
    assert p[k + 1..] == name;
  }

  /** `p` names an entry directly inside `folder`. */
  predicate IsChild(p: string, folder: string) {
    |p| > |folder| + 1 && p[..|folder| + 1] == folder + "/" && NoSlash(p[|folder| + 1..])
  }

  lemma JoinIsChild(folder: string, name: string)
    requires name != [] && NoSlash(name)
    ensures IsChild(Join(folder, name), folder)
    ensures Join(folder, name)[|folder| + 1..] == name
  {
    var p := Join(folder, name);
    assert p[..|folder| + 1] == folder + "/";
    assert p[|folder| + 1..] == name;
  }

  lemma ChildIsJoin(p: string, folder: string)
    requires IsChild(p, folder)
    ensures Join(folder, p[|folder| + 1..]) == p
  {
    assert p == p[..|folder| + 1] + p[|folder| + 1..];
  }

  /** One directory entry as os.ReadDir reports it. */
  datatype DirEntry = DirEntry(name: string, isDir: bool)

  datatype DiskError = NotFound(path: string)

  /** The entries of a directory, as a set: the order of the listing is not modelled. */
  function ListDir(files: map<string, string>, dirs: set<string>, folder: string): (r: Result<set<DirEntry>, DiskError>)
    ensures r.Err? <==> folder !in dirs
    ensures r.Ok? ==> forall p :: p in files && IsChild(p, folder) ==> DirEntry(p[|folder| + 1..], false) in r.value
    ensures r.Ok? ==> forall e :: e in r.value ==> NoSlash(e.name) && e.name != []
    ensures r.Ok? ==> forall e :: e in r.value && !e.isDir ==> Join(folder, e.name) in files
  {
    if folder !in dirs then Err(NotFound(folder))
    else
      var fs := set p | p in files && IsChild(p, folder) :: DirEntry(p[|folder| + 1..], false);
      var ds := set d | d in dirs && IsChild(d, folder) :: DirEntry(d[|folder| + 1..], true);
      assert forall e :: e in fs ==> Join(folder, e.name) in files by {
        forall e | e in fs ensures Join(folder, e.name) in files {
          var p :| p in files && IsChild(p, folder) && e == DirEntry(p[|folder| + 1..], false);
          ChildIsJoin(p, folder);
        }
      }
      Ok(fs + ds)
  }

  /** The file system the watcher and the mover work on. */
  class Disk {
    var files: map<string, string>
    var dirs: set<string>

    constructor (files: map<string, string>, dirs: set<string>)
      ensures this.files == files && this.dirs == dirs
    {
      this.files := files;
      this.dirs := dirs;
    }

    /** os.ReadFile. */
    function ReadFile(path: string): (r: Result<string, DiskError>)
      reads this
      ensures r.Ok? <==> path in files
      ensures r.Ok? ==> r.value == files[path]
    {
      if path in files then Ok(files[path]) else Err(NotFound(path))
    }

    /** os.ReadDir. */
    function ReadDir(folder: string): (r: Result<set<DirEntry>, DiskError>)
      reads this
      ensures r == ListDir(files, dirs, folder)
    {
      ListDir(files, dirs, folder)
    }

    /** os.MkdirAll (parents are not recorded). */
    method MkdirAll(dir: string)
      modifies this`dirs
      ensures dirs == old(dirs) + {dir}
    {
      dirs := dirs + {dir};
    }

    /** os.WriteFile. */
    method WriteFile(path: string, data: string)
      modifies this`files
      ensures files == old(files)[path := data]
    {
      files := files[path := data];
    }

    /** os.Rename: fails when the source does not exist; replaces an existing target. */
    method Rename(src: string, dst: string) returns (ok: bool)
      modifies this`files
      ensures ok <==> src in old(files)
      ensures ok ==> files == (old(files) - {src})[dst := old(files)[src]]
      ensures !ok ==> files == old(files)
    {
      ok := src in files;
      if ok {
        files := (files - {src})[dst := files[src]];
      }
    }
  }
}
