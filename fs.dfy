/** An in-memory stand-in for the parts of the file system the site generator
    touches: the source directories it reads as trees, and the build output it
    writes as a set of directories and a map of files. */
module Fs {
  import opened Wrappers
  import opened Strings
  import opened Types

  /** The contents of a file: text that decodes as UTF-8, or bytes that do not. */
  datatype Body = Text(text: string) | NonUtf8

  /** One item that `read_dir` yields while listing a directory. `utf8Name` is
      false when the entry's name (and so its path) is not valid UTF-8. */
  datatype Entry =
    | Unreadable
    | FileEntry(name: string, utf8Name: bool, body: Body)
    | DirEntry(name: string, utf8Name: bool, listing: Listing)

  /** What `read_dir` makes of a directory: an error, or its entries in the
      order the operating system lists them. */
  datatype Listing = Unlistable(cause: Cause) | Listed(entries: seq<Entry>)

  /** The errors the operating system reports for the refusals the model
      derives itself (Linux's error numbers). */
  const ALREADY_EXISTS := Cause("Os { code: 17, kind: AlreadyExists, message: \"File exists\" }")
  const NOT_A_DIRECTORY := Cause("Os { code: 20, kind: NotADirectory, message: \"Not a directory\" }")
  const IS_A_DIRECTORY := Cause("Os { code: 21, kind: IsADirectory, message: \"Is a directory\" }")
  /** What `read_to_string` reports for a file that is not UTF-8. */
  const INVALID_UTF8 := Cause("Error { kind: InvalidData, message: \"stream did not contain valid UTF-8\" }")

  /** The error `ENOENT` (a missing parent directory). A parent that is a
      file gives `ENOTDIR` instead. */
  const NOT_FOUND := Cause("Os { code: 2, kind: NotFound, message: \"No such file or directory\" }")

  /** `p` is `root` or lies inside it. */
  predicate Under(p: string, root: string)
  {
    p == root || root + "/" <= p
  }

  /** The directory a path lies in: everything before its last `/` (`"."`
      for `./build`), or `""` for a path without a `/`. */
  function ParentDir(p: string): string
  {
    var parts := Split(p, '/');
    Join(parts[..|parts| - 1], '/')
  }

  /** The output side of the file system: its directories and its files, by
      the path the build spells them with (`./build/about`, `./build/about.html`). */
  datatype Out = Out(dirs: set<string>, files: map<string, Body>)

  /** `Path::new(p).exists()` on the output side. */
  predicate Exists(o: Out, p: string)
  {
    p in o.dirs || p in o.files
  }

  /** The directory `p` would go in exists; `.` is the working directory. */
  predicate HasParent(o: Out, p: string)
  {
    ParentDir(p) == "." || ParentDir(p) in o.dirs
  }

  /** `fs::create_dir(p)`: the new state and the error, if any. */
  function MkDir(o: Out, refusals: map<string, Cause>, p: string): (Out, Option<Cause>)
  {
    if p in refusals then (o, Some(refusals[p]))
    else if Exists(o, p) then (o, Some(ALREADY_EXISTS))
    else if ParentDir(p) in o.files then (o, Some(NOT_A_DIRECTORY))
    else if !HasParent(o, p) then (o, Some(NOT_FOUND))
    else (o.(dirs := o.dirs + {p}), None)
  }

  /** `fs::write(p, text)`: the new state and the error, if any. */
  function WriteFile(o: Out, refusals: map<string, Cause>, p: string, text: string): (Out, Option<Cause>)
  {
    if p in refusals then (o, Some(refusals[p]))
    else if p in o.dirs then (o, Some(IS_A_DIRECTORY))
    else if ParentDir(p) in o.files then (o, Some(NOT_A_DIRECTORY))
    else if !HasParent(o, p) then (o, Some(NOT_FOUND))
    else (o.(files := o.files[p := Text(text)]), None)
  }

  /** `fs::remove_dir_all(root)`: everything at or under `root` goes. */
  function RemoveTree(o: Out, refusals: map<string, Cause>, root: string): (Out, Option<Cause>)
  {
    if root in refusals then (o, Some(refusals[root]))
    else if root in o.files then (o, Some(NOT_A_DIRECTORY))
    else if root !in o.dirs then (o, Some(NOT_FOUND))
    else (Out(set d | d in o.dirs && !Under(d, root),
              map f | f in o.files && !Under(f, root) :: o.files[f]), None)
  }

  /** A write changes at most the file it names and never a directory; a
      failed write changes nothing. */
  lemma WriteFileFrame(o: Out, refusals: map<string, Cause>, p: string, text: string)
    ensures var r := WriteFile(o, refusals, p, text);
      && r.0.dirs == o.dirs
      && (r.1.None? ==> r.0.files == o.files[p := Text(text)])
      && (r.1.Some? ==> r.0 == o)
  {
  }

  /** The parent of `a/b`, for `b` without a `/`, is `a`. */
  lemma ParentOfJoin(a: string, b: string)
    requires '/' !in b
    ensures ParentDir(a + "/" + b) == a
  {
    SplitAround(a, b, '/');
    assert a + "/" + b == a + ['/'] + b;
    SplitWithout(b, '/');
    var parts := Split(a + "/" + b, '/');
    assert parts[..|parts| - 1] == Split(a, '/');
  }

  class Disk {
    /** The source directories (templates, public assets, styles) by the name
        the configuration gives them; they are only ever read. */
    const sources: map<string, Listing>
    /** The output side, which the build changes. */
    var out: Out
    /** Paths at which the operating system refuses to create, write or
        remove anything (permissions, a full disk, ...), with the error it reports. */
    const refusals: map<string, Cause>

    constructor (sources: map<string, Listing>, out: Out, refusals: map<string, Cause>)
      ensures this.sources == sources && this.out == out && this.refusals == refusals
    {
      this.sources, this.out, this.refusals := sources, out, refusals;
    }

    /** `fs::create_dir(p)`. */
    method CreateDir(p: string) returns (err: Option<Cause>)
      modifies this
      ensures (out, err) == MkDir(old(out), refusals, p)
    {
      var r := MkDir(out, refusals, p);
      out, err := r.0, r.1;
    }

    /** `fs::write(p, text)`. */
    method Write(p: string, text: string) returns (err: Option<Cause>)
      modifies this
      ensures (out, err) == WriteFile(old(out), refusals, p, text)
    {
      var r := WriteFile(out, refusals, p, text);
      out, err := r.0, r.1;
    }

    /** `fs::remove_dir_all(root)`. */
    method RemoveAll(root: string) returns (err: Option<Cause>)
      modifies this
      ensures (out, err) == RemoveTree(old(out), refusals, root)
    {
      var r := RemoveTree(out, refusals, root);
      out, err := r.0, r.1;
    }
  }

  /** What the operating system finds when asked to open `path` in a tree of
      files keyed by path: repeated `/` read as one, directories are not files. */
  function Lookup(files: map<string, Body>, path: string): Option<Body>
  {
    var p := CollapseSlashes(path);
    if p in files then Some(files[p]) else None
  }

  /** The index of the first path that names an existing file, or the number
      of paths when none does. */
  function FirstPresent(files: map<string, Body>, paths: seq<string>): (j: nat)
    ensures j <= |paths|
    ensures forall i :: 0 <= i < j ==> Lookup(files, paths[i]).None?
    ensures j < |paths| ==> Lookup(files, paths[j]).Some?
  {
    if paths == [] then 0
    else if Lookup(files, paths[0]).Some? then 0
    else 1 + FirstPresent(files, paths[1..])
  }
}
