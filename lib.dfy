/** The crate root's helpers: the development build directory, flattening a
    directory tree into a map keyed by logical name, file-name extraction, and
    creating the directory chain a nested output path needs. */
module Lib {
  import opened Wrappers
  import opened Strings
  import opened Types
  import opened Fs

  /** The build directory used in development mode. */
  const DEV_BUILD_DIR := ".devbuild"

  /* ---------------------------------------------------------------- paths */

  /** The directory `load_filemap` lists: `./{parent}/{child}`. */
  function DirPath(parent: string, child: string): string
  {
    "./" + parent + "/" + child
  }

  /** `PathBuf::join` of a plain name: a separator goes in unless the
      directory already ends with one. */
  function JoinPath(dir: string, name: string): string
  {
    if |dir| > 0 && dir[|dir| - 1] == '/' then dir + name else dir + "/" + name
  }

  /** The key of `leaf` in directory `child`: `{child}{slash}{leaf}`, where the
      slash is left out at the top level. */
  function Key(child: string, leaf: string): string
  {
    child + (if child == "" then "" else "/") + leaf
  }

  /** `get_file_name`: the last component of the path (with `\` read as `/`),
      up to its first `.`. */
  function GetFileName(path: string): (r: string)
    ensures '/' !in r && '\\' !in r && '.' !in r
    ensures r <= FinalComponent(path)
    ensures |r| == |FinalComponent(path)| || FinalComponent(path)[|r|] == '.'
  {
    var last := FinalComponent(path);
    SplitFirst(last, '.');
    Split(last, '.')[0]
  }

  /** The last `/`-separated component of a path, after `\` is read as `/`. */
  function FinalComponent(path: string): (c: string)
    ensures '/' !in c && '\\' !in c
  {
    var unix := Replace(path, '\\', '/');
    SplitKeepsAbsent(unix, '/', '\\');
    Last(Split(unix, '/'))
  }

  /** A file's name does not depend on the directory it is in. */
  lemma FileNameIgnoresDirectory(dir: string, name: string)
    requires '/' !in name
    ensures GetFileName(JoinPath(dir, name)) == GetFileName(name)
  {
    var x := if |dir| > 0 && dir[|dir| - 1] == '/' then dir[..|dir| - 1] else dir;
    assert JoinPath(dir, name) == x + "/" + name by {
      if |dir| > 0 && dir[|dir| - 1] == '/' {
        assert dir == x + "/";
      }
    }
    FinalComponentOfJoin(x, name);
  }

  lemma FinalComponentOfJoin(x: string, name: string)
    ensures FinalComponent(x + "/" + name) == FinalComponent(name)
  {
    var rx, rn := Replace(x, '\\', '/'), Replace(name, '\\', '/');
    assert Replace(x + "/" + name, '\\', '/') == rx + "/" + rn by {
      ReplaceAppend(x + "/", name, '\\', '/');
      ReplaceAppend(x, "/", '\\', '/');
      assert Replace("/", '\\', '/') == "/";
    }
    assert Split(rx + "/" + rn, '/') == Split(rx, '/') + Split(rn, '/') by {
      assert rx + "/" + rn == rx + ['/'] + rn;
      SplitAround(rx, rn, '/');
    }
  }

  /** The name of a file with a directory-free name and no `\`: up to the first `.`. */
  lemma FileNameOfPlain(name: string, stem: string, rest: string)
    requires '/' !in name && '\\' !in name && '.' !in stem && name == stem + "." + rest
    ensures GetFileName(name) == stem
  {
    ReplaceAbsent(name, '\\', '/');
    SplitWithout(name, '/');
    SplitAround(stem, rest, '.');
    SplitWithout(stem, '.');
  }

  /** Whatever directory a file is in, and however many extensions its name
      has (`post.min.hbs`), its name is what precedes the first `.`. */
  lemma FileNameOfNested(dir: string, stem: string, rest: string)
    requires '/' !in stem && '\\' !in stem && '.' !in stem
    requires '/' !in rest && '\\' !in rest
    ensures GetFileName(JoinPath(dir, stem + "." + rest)) == stem
  {
    var name := stem + "." + rest;
    assert forall i :: 0 <= i < |name| ==> name[i] == (if i < |stem| then stem[i] else if i == |stem| then '.' else rest[i - |stem| - 1]);
    FileNameIgnoresDirectory(dir, name);
    FileNameOfPlain(name, stem, rest);
  }

  /* ------------------------------------------------------ load_filemap */

  /** What `load_filemap(m, parent, child)` makes of `m`, when
      `./{parent}/{child}` lists as `listing`: entries in listing order, files
      stored under their extension-less name, folders descended into, entries
      the listing could not read and entries whose name is not UTF-8 skipped. */
  function LoadDir(m: FileMap, parent: string, child: string, listing: Listing): Result<FileMap, UnreactError>
    decreases listing
  {
    match listing
    case Unlistable(cause) => Failure(IoError(cause, DirPath(parent, child)))
    case Listed(entries) => LoadEntries(m, parent, child, entries)
  }

  function LoadEntries(m: FileMap, parent: string, child: string, entries: seq<Entry>): Result<FileMap, UnreactError>
    decreases entries
  {
    if entries == [] then Success(m)
    else
      match LoadEntry(m, parent, child, entries[0])
      case Failure(e) => Failure(e)
      case Success(m') => LoadEntries(m', parent, child, entries[1..])
  }

  function LoadEntry(m: FileMap, parent: string, child: string, entry: Entry): Result<FileMap, UnreactError>
    decreases entry
  {
    match entry
    case Unreadable => Success(m)
    case FileEntry(name, utf8Name, body) =>
      if !utf8Name then Success(m)
      else
        var path := JoinPath(DirPath(parent, child), name);
        if body.NonUtf8? then Failure(IoError(INVALID_UTF8, path))
        else Success(m[Key(child, GetFileName(path)) := body.text])
    case DirEntry(name, utf8Name, listing) =>
      if !utf8Name then Success(m) else LoadDir(m, parent, Key(child, name), listing)
  }

  /** `load_filemap`: the loop over the listing, recursing into folders. */
  method LoadFilemap(m: FileMap, parent: string, child: string, listing: Listing) returns (r: Result<FileMap, UnreactError>)
    ensures r == LoadDir(m, parent, child, listing)
    decreases listing
  {
    if listing.Unlistable? {
      return Failure(IoError(listing.cause, DirPath(parent, child)));
    }
    var entries := listing.entries;
    var acc := m;
    var i := 0;
    while i < |entries|
      invariant 0 <= i <= |entries|
      invariant LoadEntries(m, parent, child, entries) == LoadEntries(acc, parent, child, entries[i..])
    {
      var entry := entries[i];
      assert entries[i..][1..] == entries[i + 1..];
      match entry {
        case Unreadable =>
        case FileEntry(name, utf8Name, body) =>
          if utf8Name {
            var path := JoinPath(DirPath(parent, child), name);
            if body.NonUtf8? {
              return Failure(IoError(INVALID_UTF8, path));
            }
            acc := acc[Key(child, GetFileName(path)) := body.text];
          }
        case DirEntry(name, utf8Name, sub) =>
          if utf8Name {
            assert sub < entry;
            var res := LoadFilemap(acc, parent, Key(child, name), sub);
            if res.Failure? {
              return res;
            }
            acc := res.value;
          }
      }
      i := i + 1;
    }
    return Success(acc);
  }

  /* ------------------------------------------ a declarative reference */

  /** A file the load reads: the folders leading to it from the loaded
      directory, its own name, and its text. */
  datatype Leaf = Leaf(folders: seq<string>, name: string, text: string)

  /** The files with a UTF-8 name and UTF-8 text, in the order the load visits them. */
  function Leaves(listing: Listing): seq<Leaf>
    decreases listing
  {
    match listing
    case Unlistable(_) => []
    case Listed(entries) => EntriesLeaves(entries)
  }

  function EntriesLeaves(entries: seq<Entry>): seq<Leaf>
    decreases entries
  {
    if entries == [] then [] else EntryLeaves(entries[0]) + EntriesLeaves(entries[1..])
  }

  function EntryLeaves(entry: Entry): seq<Leaf>
    decreases entry
  {
    match entry
    case FileEntry(name, true, Text(content)) => [Leaf([], name, content)]
    case DirEntry(name, true, listing) => Inside(name, Leaves(listing))
    case _ => []
  }

  /** The same leaves, seen from one folder further up. */
  function Inside(folder: string, leaves: seq<Leaf>): (r: seq<Leaf>)
    ensures |r| == |leaves|
    ensures forall i :: 0 <= i < |r| ==> r[i] == leaves[i].(folders := [folder] + leaves[i].folders)
  {
    seq(|leaves|, i requires 0 <= i < |leaves| => leaves[i].(folders := [folder] + leaves[i].folders))
  }

  /** Nothing the load reaches fails: every folder it descends into can be
      listed, and every file it reads is UTF-8. */
  predicate Loadable(listing: Listing)
    decreases listing
  {
    match listing
    case Unlistable(_) => false
    case Listed(entries) => EntriesLoadable(entries)
  }

  predicate EntriesLoadable(entries: seq<Entry>)
    decreases entries
  {
    entries == [] || (EntryLoadable(entries[0]) && EntriesLoadable(entries[1..]))
  }

  predicate EntryLoadable(entry: Entry)
    decreases entry
  {
    match entry
    case FileEntry(_, utf8Name, body) => !utf8Name || body.Text?
    case DirEntry(_, utf8Name, listing) => !utf8Name || Loadable(listing)
    case Unreadable => true
  }

  /** A name the operating system can give an entry: not empty, no `/`. */
  predicate ValidName(name: string)
  {
    name != "" && '/' !in name
  }

  /** Every entry in the tree has a valid name. */
  predicate WellNamed(listing: Listing)
    decreases listing
  {
    match listing
    case Unlistable(_) => true
    case Listed(entries) => EntriesWellNamed(entries)
  }

  predicate EntriesWellNamed(entries: seq<Entry>)
    decreases entries
  {
    entries == [] || (EntryWellNamed(entries[0]) && EntriesWellNamed(entries[1..]))
  }

  predicate EntryWellNamed(entry: Entry)
    decreases entry
  {
    match entry
    case FileEntry(name, _, _) => ValidName(name)
    case DirEntry(name, _, listing) => ValidName(name) && WellNamed(listing)
    case Unreadable => true
  }

  /** The key of a file reached through `folders` from folder `child`. */
  function KeyPath(child: string, folders: seq<string>, leaf: string): string
    decreases |folders|
  {
    if folders == [] then Key(child, leaf) else KeyPath(Key(child, folders[0]), folders[1..], leaf)
  }

  /** The insertions the load performs, in order. */
  function Insertions(child: string, leaves: seq<Leaf>): (r: seq<(string, string)>)
    ensures |r| == |leaves|
    ensures forall i :: 0 <= i < |r| ==> r[i] == (KeyPath(child, leaves[i].folders, GetFileName(leaves[i].name)), leaves[i].text)
  {
    seq(|leaves|, i requires 0 <= i < |leaves| => (KeyPath(child, leaves[i].folders, GetFileName(leaves[i].name)), leaves[i].text))
  }

  /** A map after a sequence of insertions, in order. */
  function Apply<V>(m: map<string, V>, ins: seq<(string, V)>): map<string, V>
    decreases |ins|
  {
    if ins == [] then m else Apply(m[ins[0].0 := ins[0].1], ins[1..])
  }

  lemma {:induction false} ApplyAppend<V>(m: map<string, V>, a: seq<(string, V)>, b: seq<(string, V)>)
    ensures Apply(m, a + b) == Apply(Apply(m, a), b)
    decreases |a|
  {
    if a != [] {
      assert (a + b)[0] == a[0];
      assert (a + b)[1..] == a[1..] + b;
      ApplyAppend(m[a[0].0 := a[0].1], a[1..], b);
    } else {
      assert a + b == b;
    }
  }

  lemma InsertionsAppend(child: string, a: seq<Leaf>, b: seq<Leaf>)
    ensures Insertions(child, a + b) == Insertions(child, a) + Insertions(child, b)
  {
  }

  lemma InsertionsInside(child: string, folder: string, leaves: seq<Leaf>)
    ensures Insertions(child, Inside(folder, leaves)) == Insertions(Key(child, folder), leaves)
  {
  }

  /** Loading succeeds exactly when no folder the load reaches fails to
      list and no file it reads is invalid UTF-8; it then stores the files
      it reads, in visiting order, each under its folder-path key. */
  lemma {:induction false} LoadDirMeaning(m: FileMap, parent: string, child: string, listing: Listing)
    requires WellNamed(listing)
    ensures LoadDir(m, parent, child, listing).Success? <==> Loadable(listing)
    ensures Loadable(listing) ==> LoadDir(m, parent, child, listing).value == Apply(m, Insertions(child, Leaves(listing)))
    decreases listing
  {
    match listing
    case Unlistable(_) =>
    case Listed(entries) => LoadEntriesMeaning(m, parent, child, entries);
  }

  lemma {:induction false} LoadEntriesMeaning(m: FileMap, parent: string, child: string, entries: seq<Entry>)
    requires EntriesWellNamed(entries)
    ensures LoadEntries(m, parent, child, entries).Success? <==> EntriesLoadable(entries)
    ensures EntriesLoadable(entries) ==> LoadEntries(m, parent, child, entries).value == Apply(m, Insertions(child, EntriesLeaves(entries)))
    decreases entries
  {
    if entries != [] {
      LoadEntryMeaning(m, parent, child, entries[0]);
      match LoadEntry(m, parent, child, entries[0])
      case Failure(_) =>
      case Success(m') =>
        LoadEntriesMeaning(m', parent, child, entries[1..]);
        if EntriesLoadable(entries) {
          var a, b := EntryLeaves(entries[0]), EntriesLeaves(entries[1..]);
          InsertionsAppend(child, a, b);
          ApplyAppend(m, Insertions(child, a), Insertions(child, b));
        }
    }
  }

  lemma {:induction false} LoadEntryMeaning(m: FileMap, parent: string, child: string, entry: Entry)
    requires EntryWellNamed(entry)
    ensures LoadEntry(m, parent, child, entry).Success? <==> EntryLoadable(entry)
    ensures EntryLoadable(entry) ==> LoadEntry(m, parent, child, entry).value == Apply(m, Insertions(child, EntryLeaves(entry)))
    decreases entry
  {
    match entry
    case Unreadable =>
    case FileEntry(name, utf8Name, body) =>
      if utf8Name && body.Text? {
        FileNameIgnoresDirectory(DirPath(parent, child), name);
        var ins := Insertions(child, EntryLeaves(entry));
        assert ins == [(Key(child, GetFileName(name)), body.text)];
      }
    case DirEntry(name, utf8Name, listing) =>
      if utf8Name {
        LoadDirMeaning(m, parent, Key(child, name), listing);
        InsertionsInside(child, name, Leaves(listing));
      }
  }

  /* ---------------------------------------------------- logical names */

  /** A file's logical name: the folders leading to it and its own name
      without extension, joined with `/`. */
  function LogicalName(leaf: Leaf): string
  {
    Join(leaf.folders + [GetFileName(leaf.name)], '/')
  }

  /** Every folder on the way to the file, and the file itself, has a valid name. */
  predicate LeafWellNamed(leaf: Leaf)
  {
    ValidName(leaf.name) && forall j :: 0 <= j < |leaf.folders| ==> ValidName(leaf.folders[j])
  }

  lemma {:induction false} KeyPathJoin(child: string, folders: seq<string>, leaf: string)
    requires child != ""
    ensures KeyPath(child, folders, leaf) == Join([child] + folders + [leaf], '/')
    decreases |folders|
  {
    if folders == [] {
      assert [child] + folders + [leaf] == [child, leaf];
    } else {
      var next := child + "/" + folders[0];
      KeyPathJoin(next, folders[1..], leaf);
      var rest := folders[1..] + [leaf];
      assert ([child] + folders + [leaf])[1..] == [folders[0]] + rest;
      assert ([folders[0]] + rest)[1..] == rest;
      assert [next] + folders[1..] + [leaf] == [next] + rest;
      assert ([next] + rest)[1..] == rest;
    }
  }

  /** At the top level, a key is the logical name. */
  lemma TopKeyPath(folders: seq<string>, leaf: string)
    requires forall j :: 0 <= j < |folders| ==> ValidName(folders[j])
    ensures KeyPath("", folders, leaf) == Join(folders + [leaf], '/')
  {
    if folders == [] {
      assert Key("", leaf) == leaf;
      assert folders + [leaf] == [leaf];
    } else {
      assert Key("", folders[0]) == folders[0];
      assert KeyPath("", folders, leaf) == KeyPath(folders[0], folders[1..], leaf);
      KeyPathJoin(folders[0], folders[1..], leaf);
      assert [folders[0]] + folders[1..] + [leaf] == folders + [leaf];
    }
  }

  /** A logical name splits at `/` back into its folders and the file's name,
      so it never starts with `/` and names each folder on the way. */
  lemma LogicalNameParts(leaf: Leaf)
    requires LeafWellNamed(leaf)
    ensures Split(LogicalName(leaf), '/') == leaf.folders + [GetFileName(leaf.name)]
    ensures LogicalName(leaf) == "" || LogicalName(leaf)[0] != '/'
  {
    var parts := leaf.folders + [GetFileName(leaf.name)];
    assert forall i :: 0 <= i < |parts| ==> '/' !in parts[i] by {
      forall i | 0 <= i < |parts| ensures '/' !in parts[i] {
        if i < |leaf.folders| { assert parts[i] == leaf.folders[i]; }
      }
    }
    SplitJoin(parts, '/');
    SplitFirst(LogicalName(leaf), '/');
    if LogicalName(leaf) != "" && parts[0] != "" {
      assert LogicalName(leaf)[0] == parts[0][0];
    }
  }

  lemma {:induction false} LeavesWellNamed(listing: Listing)
    requires WellNamed(listing)
    ensures forall i :: 0 <= i < |Leaves(listing)| ==> LeafWellNamed(Leaves(listing)[i])
    decreases listing
  {
    match listing
    case Unlistable(_) =>
    case Listed(entries) => EntriesLeavesWellNamed(entries);
  }

  lemma {:induction false} EntriesLeavesWellNamed(entries: seq<Entry>)
    requires EntriesWellNamed(entries)
    ensures forall i :: 0 <= i < |EntriesLeaves(entries)| ==> LeafWellNamed(EntriesLeaves(entries)[i])
    decreases entries
  {
    if entries != [] {
      EntryLeavesWellNamed(entries[0]);
      EntriesLeavesWellNamed(entries[1..]);
    }
  }

  lemma {:induction false} EntryLeavesWellNamed(entry: Entry)
    requires EntryWellNamed(entry)
    ensures forall i :: 0 <= i < |EntryLeaves(entry)| ==> LeafWellNamed(EntryLeaves(entry)[i])
    decreases entry
  {
    match entry
    case DirEntry(name, true, listing) =>
      LeavesWellNamed(listing);
      var inner := Leaves(listing);
      forall i | 0 <= i < |inner| ensures LeafWellNamed(EntryLeaves(entry)[i]) {
        var l := EntryLeaves(entry)[i];
        assert l.folders == [name] + inner[i].folders;
        forall j | 0 <= j < |l.folders| ensures ValidName(l.folders[j]) {
          if j > 0 { assert l.folders[j] == inner[i].folders[j - 1]; }
        }
      }
    case _ =>
  }

  /** Loading a source directory (`load_filemap(&mut map, dir, "")`) stores
      each file it reads under its logical name, later files replacing
      earlier ones with the same name. */
  lemma TopLevelLoad(m: FileMap, parent: string, listing: Listing)
    requires WellNamed(listing) && Loadable(listing)
    ensures LoadDir(m, parent, "", listing).Success?
    ensures LoadDir(m, parent, "", listing).value == Apply(m, Insertions("", Leaves(listing)))
    ensures forall i :: 0 <= i < |Leaves(listing)| ==> Insertions("", Leaves(listing))[i] == (LogicalName(Leaves(listing)[i]), Leaves(listing)[i].text)
  {
    LoadDirMeaning(m, parent, "", listing);
    LeavesWellNamed(listing);
    var leaves := Leaves(listing);
    forall i | 0 <= i < |leaves| ensures Insertions("", leaves)[i].0 == LogicalName(leaves[i]) {
      TopKeyPath(leaves[i].folders, GetFileName(leaves[i].name));
    }
  }

  /** After a sequence of insertions, a key holds the value of its last
      insertion. */
  lemma {:induction false} ApplyLastWins<V>(m: map<string, V>, ins: seq<(string, V)>, i: nat)
    requires i < |ins|
    requires forall j :: i < j < |ins| ==> ins[j].0 != ins[i].0
    ensures ins[i].0 in Apply(m, ins) && Apply(m, ins)[ins[i].0] == ins[i].1
    decreases |ins|
  {
    var m' := m[ins[0].0 := ins[0].1];
    if i > 0 {
      assert forall j :: i - 1 < j < |ins| - 1 ==> ins[1..][j] == ins[j + 1];
      ApplyLastWins(m', ins[1..], i - 1);
    } else {
      assert forall j :: 0 <= j < |ins| - 1 ==> ins[1..][j] == ins[j + 1];
      ApplyUntouched(m', ins[1..], ins[0].0);
    }
  }

  /** A key no insertion names keeps what it had. */
  lemma {:induction false} ApplyUntouched<V>(m: map<string, V>, ins: seq<(string, V)>, k: string)
    requires forall i :: 0 <= i < |ins| ==> ins[i].0 != k
    ensures k in Apply(m, ins) <==> k in m
    ensures k in m ==> Apply(m, ins)[k] == m[k]
    decreases |ins|
  {
    if ins != [] {
      assert forall i :: 0 <= i < |ins| - 1 ==> ins[1..][i] == ins[i + 1];
      ApplyUntouched(m[ins[0].0 := ins[0].1], ins[1..], k);
    }
  }

  /* ----------------------------------------------- create_dir_all_safe */

  /** The directories `create_dir_all_safe(parent, child)` makes sure of, in
      order: `./{parent}/{c1}`, `./{parent}/{c1}/{c2}`, ..., one for each
      `/`-component of `child` but the last. */
  function PrefixDirs(parent: string, child: string): seq<string>
  {
    var folders := Split(child, '/');
    seq(|folders| - 1, i requires 0 <= i < |folders| - 1 => "./" + parent + "/" + Join(folders[..i + 1], '/'))
  }

  /** Making sure of each directory in turn: one that exists is skipped, a
      missing one is created, and the first failure to create stops the walk. */
  function CreateAll(o: Out, refusals: map<string, Cause>, paths: seq<string>): (Out, Outcome<UnreactError>)
    decreases |paths|
  {
    if paths == [] then (o, Pass)
    else if Exists(o, paths[0]) then CreateAll(o, refusals, paths[1..])
    else
      var made := MkDir(o, refusals, paths[0]);
      if made.1.Some? then (o, Fail(IoError(made.1.value, paths[0])))
      else CreateAll(made.0, refusals, paths[1..])
  }

  /** `create_dir_all_safe`. */
  method CreateDirAllSafe(disk: Disk, parent: string, child: string) returns (r: Outcome<UnreactError>)
    modifies disk
    ensures (disk.out, r) == CreateAll(old(disk.out), disk.refusals, PrefixDirs(parent, child))
  {
    var folders := Split(child, '/');
    ghost var paths := PrefixDirs(parent, child);
    var i := 1;
    while i < |folders|
      invariant 1 <= i <= |folders|
      invariant CreateAll(old(disk.out), disk.refusals, paths) == CreateAll(disk.out, disk.refusals, paths[i - 1..])
    {
      var path := "./" + parent + "/" + Join(folders[..i], '/');
      assert path == paths[i - 1];
      assert paths[i - 1..][1..] == paths[i..];
      if !Exists(disk.out, path) {
        var err := disk.CreateDir(path);
        if err.Some? {
          return Fail(IoError(err.value, path));
        }
      }
      i := i + 1;
    }
    assert paths[i - 1..] == [];
    return Pass;
  }

  /** The directories asked for are proper ancestors of the target, each the
      parent of the next, the first in `./{parent}`; a child without `/`
      needs none. */
  lemma PrefixDirsShape(parent: string, child: string)
    ensures '/' !in child <==> PrefixDirs(parent, child) == []
    ensures forall i :: 0 <= i < |PrefixDirs(parent, child)| ==> PrefixDirs(parent, child)[i] + "/" <= "./" + parent + "/" + child
    ensures |PrefixDirs(parent, child)| > 0 ==> ParentDir(PrefixDirs(parent, child)[0]) == "./" + parent
    ensures forall i :: 0 < i < |PrefixDirs(parent, child)| ==> ParentDir(PrefixDirs(parent, child)[i]) == PrefixDirs(parent, child)[i - 1]
  {
    var ps := PrefixDirs(parent, child);
    var folders := Split(child, '/');
    var a := "./" + parent;
    if '/' !in child {
      SplitWithout(child, '/');
    }
    forall i | 0 <= i < |ps| ensures ps[i] + "/" <= a + "/" + child {
      JoinPrefix(folders, i + 1, '/');
    }
    if |ps| > 0 {
      assert folders[..1] == [folders[0]];
      assert Join(folders[..1], '/') == folders[0];
      assert ps[0] == a + "/" + folders[0];
      ParentOfJoin(a, folders[0]);
    }
    forall i | 0 < i < |ps| ensures ParentDir(ps[i]) == ps[i - 1] {
      assert folders[..i + 1] == folders[..i] + [folders[i]];
      JoinSnoc(folders[..i], folders[i], '/');
      assert ps[i] == ps[i - 1] + "/" + folders[i];
      ParentOfJoin(ps[i - 1], folders[i]);
    }
  }

  /** The directory the target file goes in is the last one asked for, or
      `./{parent}` when none is. */
  lemma TargetParent(parent: string, child: string, suffix: string)
    requires '/' !in suffix
    ensures var ps := PrefixDirs(parent, child);
      ParentDir("./" + parent + "/" + child + suffix) == if ps == [] then "./" + parent else ps[|ps| - 1]
  {
    var ps := PrefixDirs(parent, child);
    var folders := Split(child, '/');
    var a := "./" + parent;
    var n := |folders|;
    SplitKeepsAbsent(suffix, '/', '/');
    if n == 1 {
      assert child == folders[0];
      assert a + "/" + child + suffix == a + "/" + (child + suffix);
      ParentOfJoin(a, child + suffix);
    } else {
      assert folders == folders[..n - 1] + [folders[n - 1]];
      JoinSnoc(folders[..n - 1], folders[n - 1], '/');
      assert a + "/" + child + suffix == ps[n - 2] + "/" + (folders[n - 1] + suffix);
      ParentOfJoin(ps[n - 2], folders[n - 1] + suffix);
    }
  }

  /** Making sure of directories touches no file, only adds directories,
      and adds none but those asked for; when it succeeds every one asked for
      exists, and when it fails it names a directory that was missing and
      could not be created: refused, under a file, or without a parent. */
  lemma {:induction false} CreateAllEffect(o: Out, refusals: map<string, Cause>, paths: seq<string>)
    ensures var res := CreateAll(o, refusals, paths);
      && res.0.files == o.files
      && o.dirs <= res.0.dirs
      && (forall d :: d in res.0.dirs ==> d in o.dirs || d in paths)
      && (res.1.Pass? ==> forall p :: p in paths ==> Exists(res.0, p))
      && (res.1.Fail? ==>
            && res.1.error.IoError? && res.1.error.path in paths && !Exists(o, res.1.error.path)
            && res.1.error.cause ==
                 if res.1.error.path in refusals then refusals[res.1.error.path]
                 else if ParentDir(res.1.error.path) in o.files then NOT_A_DIRECTORY
                 else NOT_FOUND)
    decreases |paths|
  {
    if paths != [] {
      if Exists(o, paths[0]) {
        CreateAllEffect(o, refusals, paths[1..]);
      } else {
        var made := MkDir(o, refusals, paths[0]);
        if made.1.None? {
          CreateAllEffect(made.0, refusals, paths[1..]);
        }
      }
    }
  }

  /** The part of `CreateAllEffect` the build loops rely on: no file is
      touched, no directory goes, and any failure is an I/O error. */
  lemma CreateAllFrame(o: Out, refusals: map<string, Cause>, paths: seq<string>)
    ensures var res := CreateAll(o, refusals, paths);
      res.0.files == o.files && o.dirs <= res.0.dirs && (res.1.Fail? ==> res.1.error.IoError?)
  {
    CreateAllEffect(o, refusals, paths);
  }

  /** A chain of directories, each in the previous one and the first in an
      existing directory `base`, none refused and none blocked by a file, is made. */
  lemma {:induction false} CreateChain(o: Out, refusals: map<string, Cause>, paths: seq<string>, base: string)
    requires base in o.dirs && base !in o.files
    requires |paths| > 0 ==> ParentDir(paths[0]) == base
    requires forall i :: 0 < i < |paths| ==> ParentDir(paths[i]) == paths[i - 1]
    requires forall p :: p in paths ==> p !in refusals && p !in o.files
    ensures CreateAll(o, refusals, paths).1 == Pass
    decreases |paths|
  {
    if paths != [] {
      var o' := if Exists(o, paths[0]) then o else MkDir(o, refusals, paths[0]).0;
      assert paths[0] in o'.dirs && o'.files == o.files;
      assert forall i :: 0 < i < |paths| - 1 ==> paths[1..][i] == paths[i + 1];
      CreateChain(o', refusals, paths[1..], paths[0]);
    }
  }

  /** `create_dir_all_safe(parent, child)` in an existing `./{parent}`, nothing
      refused and no file in the way, succeeds and leaves the directory the
      file `./{parent}/{child}{suffix}` goes in existing. */
  lemma DirChainReady(o: Out, refusals: map<string, Cause>, parent: string, child: string, suffix: string)
    requires "./" + parent in o.dirs && "./" + parent !in o.files
    requires '/' !in suffix
    requires forall p :: p in PrefixDirs(parent, child) ==> p !in refusals && p !in o.files
    ensures var res := CreateAll(o, refusals, PrefixDirs(parent, child));
      res.1 == Pass && HasParent(res.0, "./" + parent + "/" + child + suffix)
  {
    var ps := PrefixDirs(parent, child);
    PrefixDirsShape(parent, child);
    CreateChain(o, refusals, ps, "./" + parent);
    CreateAllEffect(o, refusals, ps);
    TargetParent(parent, child, suffix);
    if ps != [] {
      assert ps[|ps| - 1] in ps;
    }
  }

  lemma {:induction false} CreateAllExisting(o: Out, refusals: map<string, Cause>, paths: seq<string>)
    requires forall p :: p in paths ==> Exists(o, p)
    ensures CreateAll(o, refusals, paths) == (o, Pass)
    decreases |paths|
  {
    if paths != [] {
      assert forall p :: p in paths[1..] ==> p in paths;
      CreateAllExisting(o, refusals, paths[1..]);
    }
  }

  /** Making sure of the same directories again changes nothing. */
  lemma CreateAllIdempotent(o: Out, refusals: map<string, Cause>, paths: seq<string>)
    requires CreateAll(o, refusals, paths).1 == Pass
    ensures var o' := CreateAll(o, refusals, paths).0; CreateAll(o', refusals, paths) == (o', Pass)
  {
    CreateAllEffect(o, refusals, paths);
    CreateAllExisting(CreateAll(o, refusals, paths).0, refusals, paths);
  }
}
