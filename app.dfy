/** The `Unreact` session: configuration, the loaded templates and styles, the
    registered pages and the global data, rendering through handlebars, and
    writing the site out. The libraries it calls (handlebars, `merge_json`,
    the HTML and CSS minifiers, the SCSS compiler, the directory copier) are
    functions the session is given. */
module App {
  import opened Wrappers
  import opened Strings
  import opened Types
  import opened Fs
  import Lib
  import Server

  /** A JSON value (`serde_json::Value`). */
  datatype Json =
    | Null
    | Bool(b: bool)
    | Number(n: real)
    | Str(s: string)
    | Array(items: seq<Json>)
    | Object(fields: map<string, Json>)

  /** Directories (by name, relative to the working directory) and options. */
  datatype Config = Config(build: string, templates: string, public: string, styles: string, devWarning: bool, minify: bool)

  /** `Config::default()`. */
  const DEFAULT_CONFIG := Config("build", "templates", "public", "styles", true, true)

  /** The configuration `new` keeps: in development the build directory is
      the fixed development one, and nothing else changes. */
  function EffectiveConfig(config: Config, isDev: bool): (c: Config)
    ensures c.templates == config.templates && c.public == config.public && c.styles == config.styles
    ensures c.devWarning == config.devWarning && c.minify == config.minify
    ensures c.build == if isDev then Lib.DEV_BUILD_DIR else config.build
    ensures !isDev ==> c == config
  {
    if isDev then config.(build := Lib.DEV_BUILD_DIR) else config
  }

  /** Rewriting the configuration a second time changes nothing more. */
  lemma EffectiveConfigIdempotent(config: Config, isDev: bool)
    ensures EffectiveConfig(EffectiveConfig(config, isDev), isDev) == EffectiveConfig(config, isDev)
  {
  }

  /** The libraries the session calls, each as a function of its inputs. */
  datatype Externals = Externals(
    /** handlebars `register_partial(name, text)`: the template error, if `text` does not parse */
    partialError: string -> Option<Cause>,
    /** handlebars `render_template(text, data)` with the partials registered so far */
    renderTemplate: (map<string, string>, string, Json) -> Result<string, Cause>,
    /** `merge_json(&mut data, globals)`: what `data` becomes */
    mergeJson: (Json, Json) -> Json,
    /** `minify_html` with doctype and comments kept, read back as text */
    minifyHtml: string -> string,
    /** `grass::from_string` */
    compileScss: string -> Result<string, Cause>,
    /** `css_minify` at level two */
    minifyCss: string -> Result<string, Cause>,
    /** `dircpy::copy_dir(from, to)`: the error, if any */
    copyDir: (string, string) -> Option<Cause>)

  /** The `LINK` partial. */
  const LINK_PARTIAL := "<a href=\"{{>URL}}/{{to}}\"> {{>@partial-block}} </a>"
  /** The `STYLE` partial; its directory is `styles` whatever the configuration says. */
  const STYLE_PARTIAL := "<link rel=\"stylesheet\" href=\"{{>URL}}/styles/{{name}}.css\" />"

  /** The registry after registering `ps` in order: a later name replaces an earlier one. */
  function PartialMap(ps: seq<(string, string)>): map<string, string>
    decreases |ps|
  {
    if ps == [] then map[] else PartialMap(ps[..|ps| - 1])[ps[|ps| - 1].0 := ps[|ps| - 1].1]
  }

  /** The index of the first partial whose text does not register, or the
      number of partials when all do. */
  function FirstRefused(ps: seq<(string, string)>, check: string -> Option<Cause>): (j: nat)
    ensures j <= |ps|
    ensures forall i :: 0 <= i < j ==> check(ps[i].1).None?
    ensures j < |ps| ==> check(ps[j].1).Some?
  {
    if ps == [] then 0
    else if check(ps[0].1).Some? then 0
    else 1 + FirstRefused(ps[1..], check)
  }

  /** Every name in a registered sequence maps to the text registered last under it. */
  lemma {:induction false} PartialMapLookup(ps: seq<(string, string)>, i: nat)
    requires i < |ps|
    requires forall j :: i < j < |ps| ==> ps[j].0 != ps[i].0
    ensures ps[i].0 in PartialMap(ps) && PartialMap(ps)[ps[i].0] == ps[i].1
    decreases |ps|
  {
    if i < |ps| - 1 {
      var init := ps[..|ps| - 1];
      assert forall j :: i < j < |init| ==> init[j] == ps[j];
      PartialMapLookup(init, i);
    }
  }

  lemma {:induction false} PartialMapKeys(ps: seq<(string, string)>)
    ensures forall k :: k in PartialMap(ps) <==> exists i :: 0 <= i < |ps| && ps[i].0 == k
    decreases |ps|
  {
    if ps != [] {
      var init := ps[..|ps| - 1];
      PartialMapKeys(init);
      forall k | k in PartialMap(ps) ensures exists i :: 0 <= i < |ps| && ps[i].0 == k {
        if k != ps[|ps| - 1].0 {
          assert k in PartialMap(init);
          var i :| 0 <= i < |init| && init[i].0 == k;
          assert ps[i] == init[i];
        }
      }
      forall k | exists i :: 0 <= i < |ps| && ps[i].0 == k ensures k in PartialMap(ps) {
        var i :| 0 <= i < |ps| && ps[i].0 == k;
        if i < |ps| - 1 {
          assert init[i] == ps[i];
        }
      }
    }
  }

  /** Registering the inbuilt partials `ps` in order on top of `reg` with
      handlebars: the `RegisterInbuiltPartialFail` error of the first that
      does not parse, or the registry with all of them added. (The templates
      are registered by `RegisterTemplates`, which reports a different error.) */
  method RegisterInbuiltList(reg: map<string, string>, ps: seq<(string, string)>, check: string -> Option<Cause>)
      returns (r: Result<map<string, string>, UnreactError>)
    ensures var j := FirstRefused(ps, check);
      r == if j < |ps| then Failure(RegisterInbuiltPartialFail(ps[j].0, check(ps[j].1).value))
           else Success(reg + PartialMap(ps))
  {
    var acc := reg;
    var i := 0;
    while i < |ps|
      invariant 0 <= i <= |ps|
      invariant acc == reg + PartialMap(ps[..i])
      invariant forall j :: 0 <= j < i ==> check(ps[j].1).None?
    {
      var err := check(ps[i].1);
      if err.Some? {
        return Failure(RegisterInbuiltPartialFail(ps[i].0, err.value));
      }
      assert ps[..i + 1][..i] == ps[..i];
      acc := acc[ps[i].0 := ps[i].1];
      i := i + 1;
    }
    assert ps[..i] == ps;
    return Success(acc);
  }

  /** Any enumeration of a finite set of names, in some order. */
  predicate Enumerates(order: seq<string>, names: set<string>)
  {
    && (forall i :: 0 <= i < |order| ==> order[i] in names)
    && (forall n :: n in names ==> n in order)
    && (forall i, j :: 0 <= i < j < |order| ==> order[i] != order[j])
  }

  /** The order in which a `HashMap`'s keys come out of `for (k, v) in &map`:
      every key once, in an order the model does not fix. */
  method IterationOrder(names: set<string>) returns (order: seq<string>)
    ensures Enumerates(order, names)
  {
    order := [];
    var left := names;
    while left != {}
      invariant left <= names
      invariant |order| + |left| == |names|
      invariant forall i :: 0 <= i < |order| ==> order[i] in names && order[i] !in left
      invariant forall i, j :: 0 <= i < j < |order| ==> order[i] != order[j]
      invariant forall n :: n in names ==> n in left || n in order
      decreases |left|
    {
      var n :| n in left;
      order := order + [n];
      left := left - {n};
    }
  }

  /* ------------------------------------------------------- check_dirs */

  /** The source directories `check_dirs` requires, in the order it checks them. */
  function SourceDirs(config: Config): seq<string>
  {
    [config.templates, config.public, config.styles]
  }

  /** The folders `check_dirs` creates, as suffixes of `./{build}`. */
  const BUILD_SUBDIRS := ["", "/styles", "/public"]

  /** The index of the first name that is not a source directory, or the
      number of names when all are. */
  function FirstMissing(dirs: seq<string>, sources: map<string, Listing>): (j: nat)
    ensures j <= |dirs|
    ensures forall i :: 0 <= i < j ==> dirs[i] in sources
    ensures j < |dirs| ==> dirs[j] !in sources
  {
    if dirs == [] then 0
    else if dirs[0] !in sources then 0
    else 1 + FirstMissing(dirs[1..], sources)
  }

  /** Creating `./{build}{s}` for each suffix `s` in turn; a failure reports
      the build directory's name, whichever folder it was. */
  function MakeDirs(o: Out, refusals: map<string, Cause>, build: string, subdirs: seq<string>): (r: (Out, Outcome<UnreactError>))
    ensures r.1.Fail? ==> r.1.error.IoError? && r.1.error.path == build
    ensures r.0.files == o.files && o.dirs <= r.0.dirs
    ensures forall d :: d in r.0.dirs ==> d in o.dirs || exists i :: 0 <= i < |subdirs| && d == "./" + build + subdirs[i]
    ensures r.1.Pass? ==> forall i :: 0 <= i < |subdirs| ==> "./" + build + subdirs[i] in r.0.dirs
    decreases |subdirs|
  {
    if subdirs == [] then (o, Pass)
    else
      var made := MkDir(o, refusals, "./" + build + subdirs[0]);
      if made.1.Some? then (o, Fail(IoError(made.1.value, build)))
      else
        var rest := MakeDirs(made.0, refusals, build, subdirs[1..]);
        assert forall i :: 0 <= i < |subdirs| - 1 ==> subdirs[1..][i] == subdirs[i + 1];
        rest
  }

  /** The second half of `check_dirs`: remove `./{build}` if it exists, then
      create it with its `styles` and `public` folders. */
  function PrepareBuild(o: Out, refusals: map<string, Cause>, build: string): (r: (Out, Outcome<UnreactError>))
    ensures r.1.Fail? ==> r.1.error.IoError? && r.1.error.path == build
  {
    var root := "./" + build;
    var cleared := if Exists(o, root) then RemoveTree(o, refusals, root) else (o, None);
    if cleared.1.Some? then (o, Fail(IoError(cleared.1.value, build)))
    else MakeDirs(cleared.0, refusals, build, BUILD_SUBDIRS)
  }

  /** `check_dirs`: every source directory must exist (the first missing one,
      in the order templates, public, styles, is reported), and then the
      build directory is prepared afresh. */
  function CheckDirsSpec(config: Config, sources: map<string, Listing>, o: Out, refusals: map<string, Cause>): (r: (Out, Outcome<UnreactError>))
    ensures r.1.Pass? ==> forall d :: d in SourceDirs(config) ==> d in sources
    ensures (r.1.Fail? && r.1.error.DirNotExist?) <==> exists d :: d in SourceDirs(config) && d !in sources
    ensures r.1.Fail? && r.1.error.DirNotExist? ==> r.0 == o && r.1.error.path in SourceDirs(config) && r.1.error.path !in sources
    ensures r.1.Fail? && r.1.error.DirNotExist? ==>
      exists j :: 0 <= j < 3 && r.1.error.path == SourceDirs(config)[j] && forall k :: 0 <= k < j ==> SourceDirs(config)[k] in sources
  {
    var dirs := SourceDirs(config);
    var j := FirstMissing(dirs, sources);
    if j < 3 then (o, Fail(DirNotExist(dirs[j])))
    else
      assert forall d :: d in dirs ==> d in sources by {
        forall d | d in dirs ensures d in sources {
          var i :| 0 <= i < 3 && dirs[i] == d;
        }
      }
      PrepareBuild(o, refusals, config.build)
  }

  /** Preparing the build directory leaves everything outside it as it was,
      writes no file, and, when it succeeds, leaves the directory and its
      `styles` and `public` folders existing; an existing build directory
      is emptied first, so afterwards it holds exactly those folders. */
  lemma PrepareBuildEffect(o: Out, refusals: map<string, Cause>, build: string)
    ensures var root, r := "./" + build, PrepareBuild(o, refusals, build);
      && (forall p :: !Under(p, root) ==> (p in r.0.dirs <==> p in o.dirs))
      && (forall p :: p in r.0.files ==> p in o.files && r.0.files[p] == o.files[p])
      && (forall p :: p in o.files && !Under(p, root) ==> p in r.0.files)
      && (r.1.Pass? ==> root in r.0.dirs && root + "/styles" in r.0.dirs && root + "/public" in r.0.dirs)
      && (r.1.Pass? && Exists(o, root) ==>
            && (forall p :: p in r.0.files ==> !Under(p, root))
            && (forall d :: d in r.0.dirs && Under(d, root) ==> d == root || d == root + "/styles" || d == root + "/public"))
  {
    PrepareBuildOutside(o, refusals, build);
    PrepareBuildInside(o, refusals, build);
  }

  /** The part of `PrepareBuildEffect` about what lies outside the build directory. */
  lemma PrepareBuildOutside(o: Out, refusals: map<string, Cause>, build: string)
    ensures var root, r := "./" + build, PrepareBuild(o, refusals, build);
      && (forall p :: !Under(p, root) ==> (p in r.0.dirs <==> p in o.dirs))
      && (forall p :: p in r.0.files ==> p in o.files && r.0.files[p] == o.files[p])
      && (forall p :: p in o.files && !Under(p, root) ==> p in r.0.files)
  {
    var root := "./" + build;
    var cleared := if Exists(o, root) then RemoveTree(o, refusals, root) else (o, None);
    assert forall p :: p in cleared.0.dirs ==> p in o.dirs;
    assert forall p :: !Under(p, root) && p in o.dirs ==> p in cleared.0.dirs;
    forall d | d == root || d == root + "/styles" || d == root + "/public" ensures Under(d, root) {
    }
  }

  /** The part of `PrepareBuildEffect` about the build directory itself. */
  lemma PrepareBuildInside(o: Out, refusals: map<string, Cause>, build: string)
    ensures var root, r := "./" + build, PrepareBuild(o, refusals, build);
      && (r.1.Pass? ==> root in r.0.dirs && root + "/styles" in r.0.dirs && root + "/public" in r.0.dirs)
      && (r.1.Pass? && Exists(o, root) ==>
            && (forall p :: p in r.0.files ==> !Under(p, root))
            && (forall d :: d in r.0.dirs && Under(d, root) ==> d == root || d == root + "/styles" || d == root + "/public"))
  {
    var root := "./" + build;
    var subs := BUILD_SUBDIRS;
    assert "./" + build + subs[0] == root;
  }

  /** Preparing the build directory a second time, once it has succeeded,
      succeeds again and leaves the same state: `check_dirs` can be rerun.
      This needs nothing to lie under a build directory that does not exist. */
  lemma PrepareBuildRepeat(o: Out, refusals: map<string, Cause>, build: string)
    requires var root := "./" + build;
      forall p :: (p in o.dirs || p in o.files) && Under(p, root) ==> Exists(o, root)
    requires PrepareBuild(o, refusals, build).1.Pass?
    ensures var o' := PrepareBuild(o, refusals, build).0; PrepareBuild(o', refusals, build) == (o', Pass)
  {
    var root := "./" + build;
    var cleared := if Exists(o, root) then RemoveTree(o, refusals, root) else (o, None);
    var o' := PrepareBuild(o, refusals, build).0;
    assert o' == MakeDirs(cleared.0, refusals, build, BUILD_SUBDIRS).0;
    var s := cleared.0;
    assert forall p :: p in s.dirs || p in s.files ==> !Under(p, root);
    assert root !in refusals by {
      assert "./" + build + BUILD_SUBDIRS[0] == root;
    }
    assert root in o'.dirs && root !in o'.files;
    var again := RemoveTree(o', refusals, root);
    assert again.1 == None;
    assert again.0.files == s.files;
    assert again.0.dirs == s.dirs;
  }

  /* -------------------------------------------------------------- new */

  /** What `new` does: the development rewrite of the configuration,
      `check_dirs`, then loading the templates and the styles (each from the
      top of its directory into an empty map). The result is the output side
      afterwards and either the two maps or the first error. */
  function Setup(config: Config, isDev: bool, sources: map<string, Listing>, o: Out, refusals: map<string, Cause>)
    : (Out, Result<(FileMap, FileMap), UnreactError>)
  {
    var c := EffectiveConfig(config, isDev);
    var checked := CheckDirsSpec(c, sources, o, refusals);
    if checked.1.Fail? then (checked.0, Failure(checked.1.error))
    else
      assert c.templates in SourceDirs(c) && c.styles in SourceDirs(c);
      match Lib.LoadDir(map[], c.templates, "", sources[c.templates])
      case Failure(e) => (checked.0, Failure(e))
      case Success(templates) =>
        match Lib.LoadDir(map[], c.styles, "", sources[c.styles])
        case Failure(e) => (checked.0, Failure(e))
        case Success(styles) => (checked.0, Success((templates, styles)))
  }

  /** Once the directories check out, `new` succeeds exactly when both trees
      load (every folder lists and every file is UTF-8), and the session then
      holds each tree's files under their logical names, in listing order. */
  lemma SetupMeaning(config: Config, isDev: bool, sources: map<string, Listing>, o: Out, refusals: map<string, Cause>)
    requires var c := EffectiveConfig(config, isDev);
      && CheckDirsSpec(c, sources, o, refusals).1.Pass?
      && Lib.WellNamed(sources[c.templates]) && Lib.WellNamed(sources[c.styles])
    ensures var c, r := EffectiveConfig(config, isDev), Setup(config, isDev, sources, o, refusals);
      && (r.1.Success? <==> Lib.Loadable(sources[c.templates]) && Lib.Loadable(sources[c.styles]))
      && r.0 == CheckDirsSpec(c, sources, o, refusals).0
      && (r.1.Success? ==>
            && r.1.value.0 == Lib.Apply(map[], Lib.Insertions("", Lib.Leaves(sources[c.templates])))
            && r.1.value.1 == Lib.Apply(map[], Lib.Insertions("", Lib.Leaves(sources[c.styles]))))
  {
    var c := EffectiveConfig(config, isDev);
    Lib.LoadDirMeaning(map[], c.templates, "", sources[c.templates]);
    Lib.LoadDirMeaning(map[], c.styles, "", sources[c.styles]);
  }

  /** A session that `new` creates has the build directory it will write
      to prepared: `./.devbuild` in development, `./{build}` otherwise. */
  lemma SetupPreparesBuild(config: Config, isDev: bool, sources: map<string, Listing>, o: Out, refusals: map<string, Cause>)
    requires Setup(config, isDev, sources, o, refusals).1.Success?
    ensures var root, out := "./" + (if isDev then Lib.DEV_BUILD_DIR else config.build), Setup(config, isDev, sources, o, refusals).0;
      root in out.dirs && root + "/styles" in out.dirs && root + "/public" in out.dirs
  {
    var c := EffectiveConfig(config, isDev);
    PrepareBuildEffect(o, refusals, c.build);
  }

  class Unreact {
    /** The configuration, after the development rewrite. */
    const config: Config
    /** The templates, by logical name. */
    const templates: FileMap
    /** The styles, by logical name. */
    const styles: FileMap
    /** The pages registered so far, in order. */
    var pages: seq<File>
    /** Whether this is a development build. */
    const isDev: bool
    /** The production site's base URL. */
    const url: string
    /** The data merged into every render, or `Null` for none. */
    var globals: Json
    /** The libraries the session calls. */
    const ext: Externals

    /** The struct literal `new` ends with. */
    constructor Init(config: Config, templates: FileMap, styles: FileMap, isDev: bool, url: string, ext: Externals)
      ensures this.config == config && this.templates == templates && this.styles == styles
      ensures this.isDev == isDev && this.url == url && this.ext == ext
      ensures pages == [] && globals == Null
    {
      this.config, this.templates, this.styles := config, templates, styles;
      this.isDev, this.url, this.ext := isDev, url, ext;
      pages, globals := [], Null;
    }

    /** `check_dirs`. */
    static method CheckDirs(config: Config, disk: Disk) returns (r: Outcome<UnreactError>)
      modifies disk
      ensures (disk.out, r) == CheckDirsSpec(config, disk.sources, old(disk.out), disk.refusals)
    {
      var dirs := SourceDirs(config);
      for i := 0 to |dirs|
        invariant forall j :: 0 <= j < i ==> dirs[j] in disk.sources
      {
        if dirs[i] !in disk.sources {
          return Fail(DirNotExist(dirs[i]));
        }
      }
      assert FirstMissing(dirs, disk.sources) == 3;
      var root := "./" + config.build;
      ghost var cleared := disk.out;
      if Exists(disk.out, root) {
        var err := disk.RemoveAll(root);
        if err.Some? {
          return Fail(IoError(err.value, config.build));
        }
        cleared := disk.out;
      }
      var subs := BUILD_SUBDIRS;
      var i := 0;
      while i < |subs|
        invariant 0 <= i <= |subs|
        invariant MakeDirs(cleared, disk.refusals, config.build, subs) == MakeDirs(disk.out, disk.refusals, config.build, subs[i..])
      {
        assert subs[i..][1..] == subs[i + 1..];
        var err := disk.CreateDir("./" + config.build + subs[i]);
        if err.Some? {
          return Fail(IoError(err.value, config.build));
        }
        i := i + 1;
      }
      return Pass;
    }

    /** `new`: the session that `Setup` describes, with no pages and no
        global data yet, or the error it describes. */
    static method New(config: Config, isDev: bool, url: string, ext: Externals, disk: Disk) returns (r: Result<Unreact, UnreactError>)
      modifies disk
      ensures var s := Setup(config, isDev, disk.sources, old(disk.out), disk.refusals);
        && disk.out == s.0
        && r.Success? == s.1.Success?
        && (r.Failure? ==> r.error == s.1.error)
        && (r.Success? ==>
              && fresh(r.value)
              && r.value.config == EffectiveConfig(config, isDev)
              && r.value.templates == s.1.value.0 && r.value.styles == s.1.value.1
              && r.value.pages == [] && r.value.globals == Null
              && r.value.isDev == isDev && r.value.url == url && r.value.ext == ext)
    {
      var c := if isDev then config.(build := Lib.DEV_BUILD_DIR) else config;
      var checked := CheckDirs(c, disk);
      if checked.Fail? {
        return Failure(checked.error);
      }
      assert c.templates in SourceDirs(c) && c.styles in SourceDirs(c);
      var templates := Lib.LoadFilemap(map[], c.templates, "", disk.sources[c.templates]);
      if templates.Failure? {
        return Failure(templates.error);
      }
      var styles := Lib.LoadFilemap(map[], c.styles, "", disk.sources[c.styles]);
      if styles.Failure? {
        return Failure(styles.error);
      }
      var app := new Unreact.Init(c, templates.value, styles.value, isDev, url, ext);
      return Success(app);
    }

    /** `set_globals`: the new global data, and nothing else changes. */
    method SetGlobals(data: Json)
      modifies this`globals
      ensures globals == data
      ensures pages == old(pages)
    {
      globals := data;
    }

    /** `page_plain`: one more page at the end, the earlier ones unchanged. */
    method PagePlain(path: string, content: string)
      modifies this`pages
      ensures pages == old(pages) + [NewFile(path, content)]
      ensures globals == old(globals)
    {
      pages := pages + [NewFile(path, content)];
    }

    /* ----------------------------------------------------------- render */

    /** `inbuilt_partials`: `URL`, `DEV_SCRIPT`, `LINK` and `STYLE`, in this order. */
    function InbuiltPartials(): (ps: seq<(string, string)>)
      ensures |ps| == 4
      ensures ps[0].0 == "URL" && ps[1].0 == "DEV_SCRIPT" && ps[2].0 == "LINK" && ps[3].0 == "STYLE"
      ensures ps[0].1 == if isDev then "http://127.0.0.1:8080" else url
      ensures ps[1].1 == if isDev && config.devWarning then Server.DEV_SCRIPT else ""
      ensures ps[2].1 == LINK_PARTIAL && ps[3].1 == STYLE_PARTIAL
    {
      [("URL", if isDev then "http://" + Server.ADDRESS else url),
       ("DEV_SCRIPT", if isDev && config.devWarning then Server.DEV_SCRIPT else ""),
       ("LINK", LINK_PARTIAL),
       ("STYLE", STYLE_PARTIAL)]
    }

    /** The partials a render sees: every template, then the inbuilt ones. */
    function Registry(): map<string, string>
    {
      templates + PartialMap(InbuiltPartials())
    }

    /** Registering the inbuilt partials after the templates means an inbuilt
        partial replaces a template of the same name; every other template
        is seen as it is. */
    lemma RegistryShadowing(k: string)
      ensures k in Registry() <==> k in templates || k in {"URL", "DEV_SCRIPT", "LINK", "STYLE"}
      ensures forall i :: 0 <= i < 4 ==> InbuiltPartials()[i].0 in Registry() && Registry()[InbuiltPartials()[i].0] == InbuiltPartials()[i].1
      ensures k in templates && k !in {"URL", "DEV_SCRIPT", "LINK", "STYLE"} ==> Registry()[k] == templates[k]
    {
      var ps := InbuiltPartials();
      PartialMapKeys(ps);
      forall i | 0 <= i < 4 ensures ps[i].0 in PartialMap(ps) && PartialMap(ps)[ps[i].0] == ps[i].1 {
        PartialMapLookup(ps, i);
      }
      if k in {"URL", "DEV_SCRIPT", "LINK", "STYLE"} {
        assert exists i :: 0 <= i < |ps| && ps[i].0 == k;
      }
    }

    /** The data a template is rendered with. */
    function RenderData(data: Json): Json
      reads this
    {
      if globals.Null? then data else ext.mergeJson(data, globals)
    }

    /** The results `render(name, data)` can have. Which failing template a
        registration error names depends on the map's iteration order, so
        only that it names one is fixed. */
    ghost predicate RenderSpec(name: string, data: Json, r: Result<string, UnreactError>)
      reads this
    {
      if name !in templates then r == Failure(TemplateNotExist(name))
      else if exists k :: k in templates && ext.partialError(templates[k]).Some? then
        && r.Failure? && r.error.RegisterPartialFail? && r.error.name in templates
        && ext.partialError(templates[r.error.name]) == Some(r.error.cause)
      else
        var j := FirstRefused(InbuiltPartials(), ext.partialError);
        if j < 4 then
          r == Failure(RegisterInbuiltPartialFail(InbuiltPartials()[j].0, ext.partialError(InbuiltPartials()[j].1).value))
        else
          var out := ext.renderTemplate(Registry(), templates[name], RenderData(data));
          r == if out.Success? then Success(out.value) else Failure(HandlebarsFail(name, out.error))
    }

    /** The first loop of `render`: every template registered as a partial,
        in the map's iteration order, or the error of the first that fails. */
    method RegisterTemplates() returns (r: Result<map<string, string>, UnreactError>)
      ensures r.Success? <==> forall k :: k in templates ==> ext.partialError(templates[k]).None?
      ensures r.Success? ==> r.value == templates
      ensures r.Failure? ==> && r.error.RegisterPartialFail? && r.error.name in templates
                             && ext.partialError(templates[r.error.name]) == Some(r.error.cause)
    {
      var order := IterationOrder(templates.Keys);
      var reg: map<string, string> := map[];
      var i := 0;
      while i < |order|
        invariant 0 <= i <= |order|
        invariant reg == map k | k in order[..i] :: templates[k]
        invariant forall j :: 0 <= j < i ==> ext.partialError(templates[order[j]]).None?
      {
        var k := order[i];
        var err := ext.partialError(templates[k]);
        if err.Some? {
          return Failure(RegisterPartialFail(k, err.value));
        }
        assert order[..i + 1] == order[..i] + [k];
        reg := reg[k := templates[k]];
        i := i + 1;
      }
      assert order[..i] == order;
      forall k | k in templates ensures ext.partialError(templates[k]).None? {
        var j :| 0 <= j < |order| && order[j] == k;
      }
      return Success(reg);
    }

    /** The second loop of `render`: the inbuilt partials registered on top
        of `reg`, in order, or the error of the first that fails. */
    method RegisterInbuilt(reg: map<string, string>) returns (r: Result<map<string, string>, UnreactError>)
      ensures var j := FirstRefused(InbuiltPartials(), ext.partialError);
        r == if j < 4 then Failure(RegisterInbuiltPartialFail(InbuiltPartials()[j].0, ext.partialError(InbuiltPartials()[j].1).value))
             else Success(reg + PartialMap(InbuiltPartials()))
    {
      r := RegisterInbuiltList(reg, InbuiltPartials(), ext.partialError);
    }

    /** `render`: it changes nothing, fails with `TemplateNotExist(name)`
        exactly when there is no such template, and otherwise registers every
        template and the inbuilt partials and renders the template. */
    method Render(name: string, data: Json) returns (r: Result<string, UnreactError>)
      ensures RenderSpec(name, data, r)
      ensures r == Failure(TemplateNotExist(name)) <==> name !in templates
    {
      if name !in templates {
        return Failure(TemplateNotExist(name));
      }
      var template := templates[name];
      var reg := RegisterTemplates();
      if reg.Failure? {
        return Failure(reg.error);
      }
      reg := RegisterInbuilt(reg.value);
      if reg.Failure? {
        return Failure(reg.error);
      }
      var d := data;
      if !globals.Null? {
        d := ext.mergeJson(d, globals);
      }
      var out := ext.renderTemplate(reg.value, template, d);
      if out.Success? {
        return Success(out.value);
      } else {
        return Failure(HandlebarsFail(name, out.error));
      }
    }

    /* ----------------------------------------------------- page registry */

    /** What `page(path, template, data)` may do: render, then either add the
        rendered page or fail with the render's error and add nothing. */
    ghost predicate PageSpec(path: string, template: string, data: Json, before: seq<File>, after: seq<File>, r: Outcome<UnreactError>)
      reads this
    {
      exists out :: RenderSpec(template, data, out) &&
        if out.Success? then r == Pass && after == before + [NewFile(path, out.value)]
        else r == Fail(out.error) && after == before
    }

    /** `page`. */
    method Page(path: string, template: string, data: Json) returns (r: Outcome<UnreactError>)
      modifies this`pages
      ensures PageSpec(path, template, data, old(pages), pages, r)
      ensures r == Fail(TemplateNotExist(template)) <==> template !in templates
    {
      var out := Render(template, data);
      if out.Failure? {
        return Fail(out.error);
      }
      PagePlain(path, out.value);
      return Pass;
    }

    /** `index`: the page at path `index`. */
    method Index(template: string, data: Json) returns (r: Outcome<UnreactError>)
      modifies this`pages
      ensures PageSpec("index", template, data, old(pages), pages, r)
    {
      r := Page("index", template, data);
    }

    /** `not_found`: the page at path `404`, which the development server
        falls back to. */
    method NotFound(template: string, data: Json) returns (r: Outcome<UnreactError>)
      modifies this`pages
      ensures PageSpec("404", template, data, old(pages), pages, r)
    {
      r := Page("404", template, data);
    }

    /* ----------------------------------------------------------- finish */

    /** Where `finish` writes the page at `path`. */
    function PageFile(path: string): string
    {
      "./" + config.build + "/" + path + ".html"
    }

    /** The file the operating system writes a page at `path` to: the
        output path with each run of `/` read as one. */
    function PageOnDisk(path: string): string
    {
      CollapseSlashes(PageFile(path))
    }

    /** The directory styles go in, relative to the working directory. */
    function StylesDir(): string
    {
      config.build + "/" + config.styles
    }

    /** Where `finish` writes the style named `name`. */
    function StyleFile(name: string): string
    {
      "./" + StylesDir() + "/" + name + ".css"
    }

    /** A page's text as written: minified (doctype and comments kept) when
        the configuration asks for it. */
    function HtmlOutput(content: string): string
    {
      if config.minify then ext.minifyHtml(content) else content
    }

    /** A style's text as written: compiled from SCSS, then minified when the
        configuration asks for it; each step's failure names the style. */
    function CssOutput(name: string, scss: string): (r: Result<string, UnreactError>)
      ensures r.Failure? ==> (r.error.ScssConvertFail? || r.error.MinifyCssFail?) && r.error.name == name
      ensures (r.Failure? && r.error.ScssConvertFail?) <==> ext.compileScss(scss).Failure?
      ensures r.Success? && !config.minify ==> Success(r.value) == ext.compileScss(scss)
    {
      match ext.compileScss(scss)
      case Failure(e) => Failure(ScssConvertFail(name, e))
      case Success(css) =>
        if !config.minify then Success(css)
        else
          match ext.minifyCss(css)
          case Failure(e) => Failure(MinifyCssFail(name, e))
          case Success(small) => Success(small)
    }

    /** The first loop of `finish`: for each page in order, the folders its
        path needs, then its file; the first failure stops the loop. */
    function WritePages(o: Out, refusals: map<string, Cause>, ps: seq<File>): (Out, Outcome<UnreactError>)
      decreases |ps|
    {
      if ps == [] then (o, Pass)
      else
        var made := Lib.CreateAll(o, refusals, Lib.PrefixDirs(config.build, ps[0].path));
        if made.1.Fail? then made
        else
          var file := PageFile(ps[0].path);
          var w := WriteFile(made.0, refusals, file, HtmlOutput(ps[0].content));
          if w.1.Some? then (w.0, Fail(IoError(w.1.value, file)))
          else WritePages(w.0, refusals, ps[1..])
    }

    /** The second loop of `finish`, over the styles in `names`' order: the
        folders, then the compiled text, then the file. */
    function WriteStyles(o: Out, refusals: map<string, Cause>, names: seq<string>): (Out, Outcome<UnreactError>)
      requires forall i :: 0 <= i < |names| ==> names[i] in styles
      decreases |names|
    {
      if names == [] then (o, Pass)
      else
        var n := names[0];
        var made := Lib.CreateAll(o, refusals, Lib.PrefixDirs(StylesDir(), n));
        if made.1.Fail? then made
        else
          match CssOutput(n, styles[n])
          case Failure(e) => (made.0, Fail(e))
          case Success(css) =>
            var file := StyleFile(n);
            var w := WriteFile(made.0, refusals, file, css);
            if w.1.Some? then (w.0, Fail(IoError(w.1.value, file)))
            else WriteStyles(w.0, refusals, names[1..])
    }

    /** `finish` with the styles taken in the order `order`: the pages, the
        styles, then copying `./{public}` to `./{build}/public`. */
    function FinishWith(o: Out, refusals: map<string, Cause>, ps: seq<File>, order: seq<string>): (Out, Outcome<UnreactError>)
      requires forall i :: 0 <= i < |order| ==> order[i] in styles
    {
      var wp := WritePages(o, refusals, ps);
      if wp.1.Fail? then wp
      else
        var ws := WriteStyles(wp.0, refusals, order);
        if ws.1.Fail? then ws
        else
          var copied := ext.copyDir("./" + config.public, "./" + config.build + "/public");
          if copied.Some? then (ws.0, Fail(IoError(copied.value, "./" + config.public)))
          else (ws.0, Pass)
    }

    /** The page loop of `finish`. */
    method WritePagesLoop(disk: Disk) returns (r: Outcome<UnreactError>)
      modifies disk
      ensures (disk.out, r) == WritePages(old(disk.out), disk.refusals, pages)
    {
      var i := 0;
      while i < |pages|
        invariant 0 <= i <= |pages|
        invariant WritePages(old(disk.out), disk.refusals, pages) == WritePages(disk.out, disk.refusals, pages[i..])
      {
        var file := pages[i];
        assert pages[i..][1..] == pages[i + 1..];
        var made := Lib.CreateDirAllSafe(disk, config.build, file.path);
        if made.Fail? {
          return made;
        }
        var output := if config.minify then ext.minifyHtml(file.content) else file.content;
        var target := "./" + config.build + "/" + file.path + ".html";
        var err := disk.Write(target, output);
        if err.Some? {
          return Fail(IoError(err.value, target));
        }
        i := i + 1;
      }
      return Pass;
    }

    /** The style loop of `finish`, over the styles in the order `order`. */
    method WriteStylesLoop(disk: Disk, order: seq<string>) returns (r: Outcome<UnreactError>)
      requires forall i :: 0 <= i < |order| ==> order[i] in styles
      modifies disk
      ensures (disk.out, r) == WriteStyles(old(disk.out), disk.refusals, order)
    {
      var parent := config.build + "/" + config.styles;
      var j := 0;
      while j < |order|
        invariant 0 <= j <= |order|
        invariant WriteStyles(old(disk.out), disk.refusals, order) == WriteStyles(disk.out, disk.refusals, order[j..])
      {
        var name := order[j];
        assert order[j..][1..] == order[j + 1..];
        var made := Lib.CreateDirAllSafe(disk, parent, name);
        if made.Fail? {
          return made;
        }
        var parsed := ext.compileScss(styles[name]);
        if parsed.Failure? {
          return Fail(ScssConvertFail(name, parsed.error));
        }
        var output := parsed.value;
        if config.minify {
          var small := ext.minifyCss(parsed.value);
          if small.Failure? {
            return Fail(MinifyCssFail(name, small.error));
          }
          output := small.value;
        }
        var target := "./" + parent + "/" + name + ".css";
        var err := disk.Write(target, output);
        if err.Some? {
          return Fail(IoError(err.value, target));
        }
        j := j + 1;
      }
      return Pass;
    }

    /** `finish`: it changes the session in no way, and does to the output
        side what `FinishWith` says for the order the styles map yields. */
    method Finish(disk: Disk) returns (r: Outcome<UnreactError>)
      modifies disk
      ensures exists order :: Enumerates(order, styles.Keys) && (disk.out, r) == FinishWith(old(disk.out), disk.refusals, pages, order)
    {
      var order := IterationOrder(styles.Keys);
      r := WritePagesLoop(disk);
      if r.Fail? {
        return;
      }
      r := WriteStylesLoop(disk, order);
      if r.Fail? {
        return;
      }
      var copied := ext.copyDir("./" + config.public, "./" + config.build + "/public");
      if copied.Some? {
        r := Fail(IoError(copied.value, "./" + config.public));
      }
    }

    /** No two pages share a file, no two styles do, and no page's file is a
        style's. */
    lemma OutputFilesDistinct(p: string, q: string)
      ensures PageFile(p) == PageFile(q) ==> p == q
      ensures StyleFile(p) == StyleFile(q) ==> p == q
      ensures PageFile(p) != StyleFile(q)
    {
      var a, b := "./" + config.build + "/", "./" + StylesDir() + "/";
      assert PageFile(p) == a + p + ".html" && PageFile(q) == a + q + ".html";
      assert StyleFile(p) == b + p + ".css" && StyleFile(q) == b + q + ".css";
      if PageFile(p) == PageFile(q) {
        Unwrap(a, p, q, ".html");
      }
      if StyleFile(p) == StyleFile(q) {
        Unwrap(b, p, q, ".css");
      }
      assert PageFile(p)[|PageFile(p)| - 1] == 'l' && StyleFile(q)[|StyleFile(q)| - 1] == 's';
    }

    /** Page paths that differ only in repeated or leading `/` (`n` and
        `/n`) give two output keys but one file on disk: the later page
        overwrites the earlier one. */
    lemma PageAliases(n: string)
      ensures PageFile("/" + n) != PageFile(n)
      ensures PageOnDisk("/" + n) == PageOnDisk(n)
    {
      var a := "./" + config.build;
      assert PageFile("/" + n) == a + "//" + (n + ".html");
      assert PageFile(n) == a + "/" + (n + ".html");
      CollapseSlashesDup(a, n + ".html");
    }

    /** No page is written to the same file on disk as a style: one ends
        in `.html`, the other in `.css`, whatever the slashes. */
    lemma PageStyleDistinctOnDisk(p: string, q: string)
      ensures PageOnDisk(p) != CollapseSlashes(StyleFile(q))
    {
      assert PageFile(p)[|PageFile(p)| - 1] == 'l' && StyleFile(q)[|StyleFile(q)| - 1] == 's';
      CollapseSlashesLast(PageFile(p));
      CollapseSlashesLast(StyleFile(q));
    }

    /** The files the page loop writes, in order. */
    function PageWrites(ps: seq<File>): (w: seq<(string, Body)>)
      ensures |w| == |ps|
      ensures forall i :: 0 <= i < |ps| ==> w[i] == (PageFile(ps[i].path), Text(HtmlOutput(ps[i].content)))
    {
      seq(|ps|, i requires 0 <= i < |ps| => (PageFile(ps[i].path), Text(HtmlOutput(ps[i].content))))
    }

    /** The files the style loop writes, in order, when every style compiles. */
    function StyleWrites(names: seq<string>): (w: seq<(string, Body)>)
      requires forall i :: 0 <= i < |names| ==> names[i] in styles && CssOutput(names[i], styles[names[i]]).Success?
      ensures |w| == |names|
      ensures forall i :: 0 <= i < |names| ==> w[i] == (StyleFile(names[i]), Text(CssOutput(names[i], styles[names[i]]).value))
    {
      seq(|names|, i requires 0 <= i < |names| => (StyleFile(names[i]), Text(CssOutput(names[i], styles[names[i]]).value)))
    }

    /** The page loop only adds directories; its errors are I/O errors; and
        when it gets through, the files are the old ones with each page
        written in order, so a later page at the same path replaces an
        earlier one. */
    lemma {:induction false} WritePagesEffect(o: Out, refusals: map<string, Cause>, ps: seq<File>)
      ensures var r := WritePages(o, refusals, ps);
        && o.dirs <= r.0.dirs
        && (r.1.Fail? ==> r.1.error.IoError?)
        && (r.1.Pass? ==> r.0.files == Lib.Apply(o.files, PageWrites(ps)))
      decreases |ps|
    {
      if ps != [] {
        var made := Lib.CreateAll(o, refusals, Lib.PrefixDirs(config.build, ps[0].path));
        Lib.CreateAllFrame(o, refusals, Lib.PrefixDirs(config.build, ps[0].path));
        if made.1.Pass? {
          var file := PageFile(ps[0].path);
          var w := WriteFile(made.0, refusals, file, HtmlOutput(ps[0].content));
          if w.1.None? {
            WritePagesEffect(w.0, refusals, ps[1..]);
            assert PageWrites(ps)[1..] == PageWrites(ps[1..]);
          }
        }
      }
    }

    /** The style loop only adds directories; a compile or minify error names
        a style of the loop's that fails to compile or minify, with that
        failure; and when it gets through, every style compiled and the files
        are the old ones with each style's CSS written in order. */
    lemma WriteStylesEffect(o: Out, refusals: map<string, Cause>, names: seq<string>)
      requires forall i :: 0 <= i < |names| ==> names[i] in styles
      ensures var r := WriteStyles(o, refusals, names);
        && o.dirs <= r.0.dirs
        && (r.1.Fail? && !r.1.error.IoError? ==>
              && (r.1.error.ScssConvertFail? || r.1.error.MinifyCssFail?)
              && r.1.error.name in names && CssOutput(r.1.error.name, styles[r.1.error.name]) == Failure(r.1.error))
        && (r.1.Pass? ==>
              && (forall i :: 0 <= i < |names| ==> CssOutput(names[i], styles[names[i]]).Success?)
              && r.0.files == Lib.Apply(o.files, StyleWrites(names)))
    {
      WriteStylesFailures(o, refusals, names);
      WriteStylesWritten(o, refusals, names);
    }

    /** The first half of `WriteStylesEffect`: directories and failures. */
    lemma {:induction false} WriteStylesFailures(o: Out, refusals: map<string, Cause>, names: seq<string>)
      requires forall i :: 0 <= i < |names| ==> names[i] in styles
      ensures var r := WriteStyles(o, refusals, names);
        && o.dirs <= r.0.dirs
        && (r.1.Fail? && !r.1.error.IoError? ==>
              && (r.1.error.ScssConvertFail? || r.1.error.MinifyCssFail?)
              && r.1.error.name in names && CssOutput(r.1.error.name, styles[r.1.error.name]) == Failure(r.1.error))
      decreases |names|
    {
      if names != [] {
        var n := names[0];
        var made := Lib.CreateAll(o, refusals, Lib.PrefixDirs(StylesDir(), n));
        Lib.CreateAllFrame(o, refusals, Lib.PrefixDirs(StylesDir(), n));
        if made.1.Pass? && CssOutput(n, styles[n]).Success? {
          var file := StyleFile(n);
          var w := WriteFile(made.0, refusals, file, CssOutput(n, styles[n]).value);
          WriteFileFrame(made.0, refusals, file, CssOutput(n, styles[n]).value);
          if w.1.None? {
            var rest := names[1..];
            assert forall i :: 0 <= i < |rest| ==> rest[i] == names[i + 1];
            WriteStylesFailures(w.0, refusals, rest);
          }
        }
      }
    }

    /** The second half of `WriteStylesEffect`: what a successful loop wrote. */
    lemma {:induction false} WriteStylesWritten(o: Out, refusals: map<string, Cause>, names: seq<string>)
      requires forall i :: 0 <= i < |names| ==> names[i] in styles
      ensures var r := WriteStyles(o, refusals, names);
        r.1.Pass? ==>
          && (forall i :: 0 <= i < |names| ==> CssOutput(names[i], styles[names[i]]).Success?)
          && r.0.files == Lib.Apply(o.files, StyleWrites(names))
      decreases |names|
    {
      if names != [] {
        var n := names[0];
        var made := Lib.CreateAll(o, refusals, Lib.PrefixDirs(StylesDir(), n));
        Lib.CreateAllFrame(o, refusals, Lib.PrefixDirs(StylesDir(), n));
        if made.1.Pass? && CssOutput(n, styles[n]).Success? {
          var file := StyleFile(n);
          var w := WriteFile(made.0, refusals, file, CssOutput(n, styles[n]).value);
          WriteFileFrame(made.0, refusals, file, CssOutput(n, styles[n]).value);
          if w.1.None? {
            var rest := names[1..];
            assert forall i :: 0 <= i < |rest| ==> rest[i] == names[i + 1];
            WriteStylesWritten(w.0, refusals, rest);
            var r := WriteStyles(w.0, refusals, rest);
            if r.1.Pass? {
              var sw := StyleWrites(names);
              assert sw[1..] == StyleWrites(rest);
              assert Lib.Apply(o.files, sw) == Lib.Apply(o.files[sw[0].0 := sw[0].1], sw[1..]);
              assert o.files[sw[0].0 := sw[0].1] == w.0.files;
            }
          }
        }
      }
    }

    /** After a successful finish, a page that no later page overwrites on
        disk has its text in its file. */
    lemma FinishPageFile(o: Out, refusals: map<string, Cause>, ps: seq<File>, order: seq<string>, i: nat)
      requires Enumerates(order, styles.Keys)
      requires FinishWith(o, refusals, ps, order).1.Pass?
      requires i < |ps| && forall j :: i < j < |ps| ==> PageOnDisk(ps[j].path) != PageOnDisk(ps[i].path)
      ensures var out := FinishWith(o, refusals, ps, order).0;
        PageFile(ps[i].path) in out.files && out.files[PageFile(ps[i].path)] == Text(HtmlOutput(ps[i].content))
    {
      var wp := WritePages(o, refusals, ps);
      WritePagesEffect(o, refusals, ps);
      WriteStylesEffect(wp.0, refusals, order);
      var sw := StyleWrites(order);
      var pw := PageWrites(ps);
      forall j | i < j < |ps| ensures pw[j].0 != pw[i].0 {
        OutputFilesDistinct(ps[j].path, ps[i].path);
      }
      Lib.ApplyLastWins(o.files, pw, i);
      forall k | 0 <= k < |sw| ensures sw[k].0 != PageFile(ps[i].path) {
        OutputFilesDistinct(ps[i].path, order[k]);
      }
      Lib.ApplyUntouched(wp.0.files, sw, PageFile(ps[i].path));
    }

    /** After a successful finish, every style compiled and its file holds
        its CSS. */
    lemma FinishStyleFile(o: Out, refusals: map<string, Cause>, ps: seq<File>, order: seq<string>, n: string)
      requires Enumerates(order, styles.Keys)
      requires FinishWith(o, refusals, ps, order).1.Pass?
      requires n in styles
      ensures var out := FinishWith(o, refusals, ps, order).0;
        && CssOutput(n, styles[n]).Success?
        && StyleFile(n) in out.files && out.files[StyleFile(n)] == Text(CssOutput(n, styles[n]).value)
    {
      var wp := WritePages(o, refusals, ps);
      WriteStylesEffect(wp.0, refusals, order);
      var sw := StyleWrites(order);
      var i :| 0 <= i < |order| && order[i] == n;
      forall j | i < j < |order| ensures sw[j].0 != sw[i].0 {
        OutputFilesDistinct(order[j], order[i]);
      }
      Lib.ApplyLastWins(wp.0.files, sw, i);
    }

    /** A finish that succeeds leaves every page's file holding its text
        (the last page written to a file on disk wins), every style's file holding
        its CSS, and the public directory copied. */
    lemma FinishWritesSite(o: Out, refusals: map<string, Cause>, ps: seq<File>, order: seq<string>)
      requires Enumerates(order, styles.Keys)
      requires FinishWith(o, refusals, ps, order).1.Pass?
      ensures var out := FinishWith(o, refusals, ps, order).0;
        && (forall i :: 0 <= i < |ps| && (forall j :: i < j < |ps| ==> PageOnDisk(ps[j].path) != PageOnDisk(ps[i].path)) ==>
              PageFile(ps[i].path) in out.files && out.files[PageFile(ps[i].path)] == Text(HtmlOutput(ps[i].content)))
        && (forall n :: n in styles ==>
              && CssOutput(n, styles[n]).Success?
              && StyleFile(n) in out.files && out.files[StyleFile(n)] == Text(CssOutput(n, styles[n]).value))
        && ext.copyDir("./" + config.public, "./" + config.build + "/public").None?
    {
      forall i | 0 <= i < |ps| && (forall j :: i < j < |ps| ==> PageOnDisk(ps[j].path) != PageOnDisk(ps[i].path))
        ensures var out := FinishWith(o, refusals, ps, order).0;
          PageFile(ps[i].path) in out.files && out.files[PageFile(ps[i].path)] == Text(HtmlOutput(ps[i].content))
      {
        FinishPageFile(o, refusals, ps, order, i);
      }
      forall n | n in styles
        ensures var out := FinishWith(o, refusals, ps, order).0;
          && CssOutput(n, styles[n]).Success?
          && StyleFile(n) in out.files && out.files[StyleFile(n)] == Text(CssOutput(n, styles[n]).value)
      {
        FinishStyleFile(o, refusals, ps, order, n);
      }
    }

    /** A style that does not compile or minify makes `finish` fail; such an
        error comes only once every page is written and names a style that
        fails that way. */
    lemma FinishStyleFailures(o: Out, refusals: map<string, Cause>, ps: seq<File>, order: seq<string>)
      requires Enumerates(order, styles.Keys)
      ensures var r := FinishWith(o, refusals, ps, order);
        && ((exists n :: n in styles && CssOutput(n, styles[n]).Failure?) ==> r.1.Fail?)
        && (r.1.Fail? && (r.1.error.ScssConvertFail? || r.1.error.MinifyCssFail?) ==>
              && WritePages(o, refusals, ps).1.Pass?
              && r.1.error.name in styles && CssOutput(r.1.error.name, styles[r.1.error.name]) == Failure(r.1.error))
    {
      var wp := WritePages(o, refusals, ps);
      WritePagesEffect(o, refusals, ps);
      WriteStylesEffect(wp.0, refusals, order);
      if exists n :: n in styles && CssOutput(n, styles[n]).Failure? {
        var n :| n in styles && CssOutput(n, styles[n]).Failure?;
        assert n in order;
      }
    }

    /** `check_dirs` prepares `./{build}/styles` whatever the styles
        directory is called, while `finish` writes into `./{build}/{styles}`:
        a top-level style whose folder does not exist fails to be written
        with `ENOENT`, after it compiled. */
    lemma StyleNeedsItsFolder(o: Out, refusals: map<string, Cause>, n: string)
      requires n in styles && '/' !in n
      requires !Exists(o, "./" + StylesDir())
      requires StyleFile(n) !in refusals && StyleFile(n) !in o.dirs
      requires CssOutput(n, styles[n]).Success?
      ensures WriteStyles(o, refusals, [n]).1 == Fail(IoError(NOT_FOUND, StyleFile(n)))
    {
      Lib.PrefixDirsShape(StylesDir(), n);
      assert StyleFile(n) == ("./" + StylesDir()) + "/" + (n + ".css");
      ParentOfJoin("./" + StylesDir(), n + ".css");
    }

    /** In development the server answers `/{p}` with the text of the last
        page written to that file on disk, once `finish` has succeeded. */
    lemma DevPageServed(o: Out, refusals: map<string, Cause>, ps: seq<File>, order: seq<string>, i: nat)
      requires config.build == Lib.DEV_BUILD_DIR
      requires Enumerates(order, styles.Keys)
      requires FinishWith(o, refusals, ps, order).1.Pass?
      requires i < |ps| && forall j :: i < j < |ps| ==> PageOnDisk(ps[j].path) != PageOnDisk(ps[i].path)
      requires var p := ps[i].path; p != "" && p[0] != '/' && NoDoubleSlash(p) && !Server.ServedAsIs("/" + p)
      ensures Server.Resolve(FinishWith(o, refusals, ps, order).0.files, "/" + ps[i].path) == Some(HtmlOutput(ps[i].content))
    {
      FinishPageFile(o, refusals, ps, order, i);
      assert PageFile(ps[i].path) == Server.InBuild(ps[i].path + ".html");
      Server.PageServed(FinishWith(o, refusals, ps, order).0.files, ps[i].path, HtmlOutput(ps[i].content));
    }

    /** In development, a `404` page that `finish` wrote is what the server
        falls back to for a missing page. */
    lemma DevNotFoundServed(o: Out, refusals: map<string, Cause>, ps: seq<File>, order: seq<string>, i: nat)
      requires config.build == Lib.DEV_BUILD_DIR
      requires Enumerates(order, styles.Keys)
      requires FinishWith(o, refusals, ps, order).1.Pass?
      requires i < |ps| && ps[i].path == "404" && forall j :: i < j < |ps| ==> PageOnDisk(ps[j].path) != PageOnDisk("404")
      ensures Server.Resolve(FinishWith(o, refusals, ps, order).0.files, "404") == Some(HtmlOutput(ps[i].content))
    {
      FinishWritesSite(o, refusals, ps, order);
      assert PageFile("404") == Server.InBuild("404.html");
      Server.Custom404Page(FinishWith(o, refusals, ps, order).0.files, HtmlOutput(ps[i].content));
    }
  }

}
