# unreact, modelled in Dafny

unreact is a small static-site generator. A program builds an `Unreact`
session from a `Config`:

- the session checks that the template, public and style directories exist;
- it empties and recreates the build directory;
- it flattens the `templates` and `styles` trees into maps keyed by logical
  name (`blog/post` for `templates/blog/post.hbs`).

The program then registers pages (`page_plain`, `page`, `index`,
`not_found`). Each page is rendered by handlebars, with every template
registered as a partial plus four inbuilt partials (`URL`, `DEV_SCRIPT`,
`LINK`, `STYLE`). `finish` then writes the site:

- every page to `./{build}/{path}.html`;
- every style, compiled from SCSS, to `./{build}/{styles}/{name}.css`;
- a copy of the public directory to `./{build}/public`.

In development mode the build goes to `./.devbuild`. A small server then
answers requests from that directory, trying `{path}.html` and then
`{path}/index.html`, and falls back to a custom `404` page. The repository
also keeps an older version of that server, and an example driver whose
switch is `--dev` / `-d`.

The model has these files:

- `types.dfy` (`Types`): the error type, the text each error displays as,
  and the page record.
- `strings.dfy` (`Strings`): the parts of Rust's string API that the paths
  are built with. These are `split`, `join`, single-character `replace`,
  `ends_with`, and the way the operating system reads a run of `/` when it
  opens a file.
- `fs.dfy` (`Fs`): an in-memory file system. The source side is a tree of
  listings, as `read_dir` yields them. The output side is a set of
  directories and a map of files. A `Disk` object carries both, and its
  `create_dir`, `write` and `remove_dir_all` change `out` in place.
- `http.dfy` (`Http`): the request method and path, the status, and the
  response.
- `lib.dfy` (`Lib`): `load_filemap`, `get_file_name` and
  `create_dir_all_safe`. Both loops are imperative methods proved against
  recursive specification functions, with a declarative reference for what
  a load stores.
- `app.dfy` (`App`): the configuration and the `Unreact` class. Its fields
  that the source updates (`pages`, `globals`) are `var`s. Its methods are
  `new`, `check_dirs`, the page registry, `render` with its two
  registration loops, and `finish` with its two writing loops. Each is
  proved against a function of the old state.
- `server.dfy` (`Server`) and `server2.dfy` (`Server2`): the current and the
  older request handlers of the development server.
- `cli.dfy` (`Cli`): `is_dev`.

The libraries the session calls are functions the session is given
(`Externals`): handlebars' `register_partial` and `render_template`,
`merge_json`, `minify_html`, grass, css-minify and dircpy. A `HashMap`'s
iteration order is not fixed by the model. `IterationOrder` yields some
enumeration of the keys, each exactly once. The contracts of `Render` and
`Finish` hold for every such order.

Where the doc comments and the code differ, the model follows the
code:

- The `STYLE` partial always links to `/styles/{name}.css`, whatever the
  style directory is called.
- `check_dirs` always creates `./{build}/styles`, but `finish` writes styles
  into `./{build}/{styles}`. With a non-default style directory, a
  top-level style therefore fails with `ENOENT` unless that folder exists
  (`App.Unreact.StyleNeedsItsFolder`).
- `load_filemap` skips directory entries that cannot be read, and entries
  whose name is not UTF-8, rather than failing. A directory that cannot be
  listed, or a file that is not UTF-8, fails the whole load.
- Every `IoError` that `check_dirs` raises names the build directory as
  given, not `./{build}`. The write errors of `finish` name the full file path; its copy error names `./{public}`.
- `lib.rs` as it stands is an older revision of the crate root: its errors
  are boxed. In the model, the errors of both `load_filemap` and
  `create_dir_all_safe` are the `IoError` variant of the newer error type,
  carrying the path that failed.

## Model

| member | source | states |
|---|---|---|
| Types.NewFile | src/types.rs:123-128 | `File::new` keeps the path and the content it is given |
| Types.MessageNamesSubjectAndTag | src/types.rs:73-107 | every message quotes the error's name or path and carries a tag; the tag is the variant's own name except for `HandlebarsFail`, whose tag is `RenderFail` |
| Types.DirNotExistMessage | src/types.rs:75-78 | the full text of a missing-directory error |
| Types.TemplateNotExistMessage | src/types.rs:79-82 | the full text of a missing-template error |
| Types.MissingMessagesAreInjective | src/types.rs:75-82 | different missing directories, and different missing templates, give different messages |
| Strings.Split | src/lib.rs:85 | the pieces of a split hold no separator, there is at least one, and joining them gives the string back |
| Strings.SplitJoin | src/lib.rs:85-87 | splitting a join of separator-free pieces gives the pieces back |
| Lib.GetFileName | src/lib.rs:98-110 | the name is a prefix of the path's last component (with `\` read as `/`), ends where that component does or at its first `.`, and holds no `/`, `\` or `.` |
| Lib.FileNameIgnoresDirectory | src/lib.rs:98-110 | the directory a file is listed in does not affect its name |
| Lib.FileNameOfPlain | src/lib.rs:104-108 | for a plain name `stem.rest` with no `.` in `stem`, the name is `stem` (so `a.b.hbs` gives `a`) |
| Lib.FileNameOfNested | src/lib.rs:98-110 | a file `stem.rest` joined to any directory is named `stem` |
| Lib.LoadFilemap | src/lib.rs:52-81 | the loop with its recursion into folders computes `LoadDir`: errors from listing and from reading, skipped entries, keys `child` + slash + leaf |
| Lib.LoadDirMeaning | src/lib.rs:52-81 | for a tree with well-formed names, loading succeeds exactly when every folder lists and every file reached is UTF-8; the map is then the old one with each file inserted in visiting order under its folder-path key |
| Lib.LoadEntriesMeaning | src/lib.rs:57-78 | the same for a sequence of entries |
| Lib.LoadEntryMeaning | src/lib.rs:58-76 | the same for one entry: a folder is descended into with the child path extended, a file is stored, an unreadable or non-UTF-8-named entry is skipped |
| Lib.KeyPathJoin | src/lib.rs:62-67 | below the top level, a key is the child path, its folders and the leaf joined by `/` |
| Lib.TopKeyPath | src/lib.rs:62-73 | at the top level the key has no leading slash: it is the folders and the leaf joined by `/` |
| Lib.LogicalNameParts | src/lib.rs:62-73 | a file's logical name splits back into its folders and its file name, and does not start with `/` |
| Lib.TopLevelLoad | src/lib.rs:62-73 | loading a well-formed tree from its top succeeds and stores every file under its logical name, with its text |
| Lib.ApplyLastWins | src/lib.rs:70-73 | when two insertions share a key, the value inserted last is kept |
| Lib.ApplyUntouched | src/lib.rs:73 | a key no insertion names keeps its old value |
| Lib.CreateDirAllSafe | src/lib.rs:84-95 | the loop over `1..folders.len()` does to the output what `CreateAll` says for the prefix directories |
| Lib.PrefixDirsShape | src/lib.rs:84-95 | the directories asked for are proper ancestors of the target, each the parent of the next, the first in `./{parent}`; a child without `/` asks for none |
| Lib.TargetParent | src/lib.rs:85-87 | the file's own directory is the last directory asked for, or `./{parent}` |
| Lib.CreateAllEffect | src/lib.rs:86-92 | no file is touched, and only directories asked for are added; on success all of them exist; a failure names a missing directory that was refused (its own error), lay under a file (`ENOTDIR`) or had no parent (`ENOENT`) |
| Lib.CreateAllFrame | src/lib.rs:86-92 | no file is touched, no directory removed, and every failure is an I/O error |
| Lib.CreateChain | src/lib.rs:86-92 | a chain of directories in an existing base, nothing refused and no file in the way, is created without error |
| Lib.DirChainReady | src/lib.rs:84-95 | with `./{parent}` an existing directory, nothing refused and no file in the way, the call succeeds and the target file's directory exists |
| Lib.CreateAllExisting | src/lib.rs:89-91 | directories that already exist are skipped, and nothing changes |
| Lib.CreateAllIdempotent | src/lib.rs:89-91 | repeating a successful call creates nothing new |
| Fs.Disk.CreateDir | src/app.rs:544 | `fs::create_dir`: a refusal, already exists, a parent that is a file (`ENOTDIR`) or a missing parent (`ENOENT`), else the directory is added |
| Fs.Disk.Write | src/app.rs:345 | `fs::write`: a refusal, a directory in the way, a parent that is a file (`ENOTDIR`) or a missing parent (`ENOENT`), else the file is set |
| Fs.WriteFileFrame | src/app.rs:345 | a write changes at most the file it names and no directory; a failed write changes nothing |
| Fs.Disk.RemoveAll | src/app.rs:536 | `fs::remove_dir_all`: everything at or under the path is removed |
| App.EffectiveConfig | src/app.rs:108-117 | in development `build` becomes `.devbuild` and every other field is kept; otherwise the configuration is unchanged |
| App.EffectiveConfigIdempotent | src/app.rs:108-117 | rewriting twice is rewriting once |
| App.FirstMissing | src/app.rs:520-532 | the index of the first configured directory that does not exist; all before it exist |
| App.MakeDirs | src/app.rs:541-547 | creates `./{build}`, `./{build}/styles`, `./{build}/public` in turn; only those are added, no file changes; an error names the build directory |
| App.PrepareBuild | src/app.rs:534-547 | any failure, in removing or creating, is an `IoError` naming the build directory |
| App.CheckDirsSpec | src/app.rs:518-550 | fails with `DirNotExist` exactly when a source directory is missing, naming the first missing one in the order templates, public, styles, and leaving the output untouched; on success all three exist |
| App.Unreact.CheckDirs | src/app.rs:518-550 | the two loops of `check_dirs` (templates, public, styles; then the three build folders) do what `CheckDirsSpec` says for the same file system |
| App.PrepareBuildEffect | src/app.rs:534-547 | nothing outside the build directory changes, no file is written; on success the three folders exist, and an existing build directory ends up holding exactly them |
| App.PrepareBuildOutside | src/app.rs:534-547 | outside the build directory nothing changes, and no file is written anywhere |
| App.PrepareBuildInside | src/app.rs:534-547 | on success the three folders exist, and an existing build directory ends up holding exactly them |
| App.PrepareBuildRepeat | src/app.rs:534-547 | preparing the build directory again after a success succeeds and leaves the same state |
| App.Unreact.New | src/app.rs:106-132 | the session holds the rewritten configuration, the two loaded maps, no pages and `Null` globals; or `new` returns the first error, after the file-system effects `Setup` describes |
| App.SetupMeaning | src/app.rs:123-131 | once the directories check out, `new` succeeds exactly when both trees load, and then holds their files under their logical names |
| App.SetupPreparesBuild | src/app.rs:106-120 | a session `new` creates has `./.devbuild` (in development) or `./{build}` prepared with its `styles` and `public` folders |
| App.Unreact.Init | src/app.rs:123-131 | the struct literal: the given fields, an empty page list and `Null` globals |
| App.Unreact.SetGlobals | src/app.rs:153-156 | the globals are replaced and the pages are kept |
| App.Unreact.PagePlain | src/app.rs:183-186 | exactly one page, with the given path and content, is appended; the earlier pages and the globals are unchanged |
| App.Unreact.Page | src/app.rs:217-220 | either the render fails and the pages are untouched, or the rendered page is appended; it fails with `TemplateNotExist` exactly when there is no such template |
| App.Unreact.Index | src/app.rs:250-252 | `page` at path `index` |
| App.Unreact.NotFound | src/app.rs:282-284 | `page` at path `404` |
| App.Unreact.InbuiltPartials | src/app.rs:476-508 | exactly `URL`, `DEV_SCRIPT`, `LINK`, `STYLE`, in that order. `URL` is `http://127.0.0.1:8080` in development, else the site URL. `DEV_SCRIPT` is the development notice in development with the warning enabled, else empty. `LINK` and `STYLE` are the fixed partials |
| App.Unreact.RegistryShadowing | src/app.rs:445-460 | the partials a render sees are the templates and the four inbuilt names; an inbuilt partial replaces a template of the same name, and every other template is kept |
| App.PartialMapLookup | src/app.rs:453-460 | after registering in order, a name holds the text registered last under it |
| App.PartialMapKeys | src/app.rs:453-460 | the registered names are exactly the names in the sequence |
| App.RegisterInbuiltList | src/app.rs:453-460 | registers in order and stops at the first partial that does not parse, reporting it; otherwise the registry has all of them added |
| App.Unreact.RegisterTemplates | src/app.rs:445-450 | succeeds exactly when every template parses, then holding all templates; otherwise it reports a template that does not parse, with its error |
| App.Unreact.RegisterInbuilt | src/app.rs:452-460 | the error of the first inbuilt partial that does not parse, or the registry extended by all four |
| App.IterationOrder | src/app.rs:446 | some enumeration of a map's keys: each key exactly once |
| App.Unreact.Render | src/app.rs:435-473 | `TemplateNotExist(name)` exactly when there is no such template, before anything else. Then a template registration error naming a failing template; then the first failing inbuilt partial; then the render of the template with the data, merged with the globals unless they are `Null`. The session is not changed |
| App.Unreact.CssOutput | src/app.rs:359-387 | compile errors are `ScssConvertFail` and minify errors `MinifyCssFail`, both naming the style; a compile error happens exactly when grass fails; without minifying, the CSS is grass's output |
| App.Unreact.Finish | src/app.rs:319-412 | the page loop, the style loop and the public copy do to the output what `FinishWith` says for the order the styles map yields; the session is not changed |
| App.Unreact.WritePagesLoop | src/app.rs:321-351 | the page loop does to the output what `WritePages` says: for each page in order, the folders its path needs, then its file, stopping at the first failure |
| App.Unreact.WriteStylesLoop | src/app.rs:354-393 | the style loop does to the output what `WriteStyles` says: for each style, the folders, the compile and the optional minify, then the file, stopping at the first failure |
| App.Unreact.OutputFilesDistinct | src/app.rs:345-391 | distinct page paths give distinct output keys, and so do distinct style names; no page's key is a style's (keys as written, before the operating system collapses `/`) |
| App.Unreact.PageAliases | src/app.rs:345-350 | the page paths `n` and `/n` give two output keys but one file on disk, so the later page overwrites the earlier |
| App.Unreact.PageStyleDistinctOnDisk | src/app.rs:345-391 | no page is written to the same file on disk as a style |
| App.Unreact.WritePagesEffect | src/app.rs:321-351 | the page loop only adds directories, fails only with I/O errors, and on success writes each page in order |
| App.Unreact.WriteStylesEffect | src/app.rs:354-393 | the style loop only adds directories; a non-I/O error comes from a style of the loop that fails to compile or minify; on success every style compiled and each was written in order |
| App.Unreact.WriteStylesFailures | src/app.rs:354-393 | the style loop only adds directories, and a non-I/O error names a style that fails to compile or minify |
| App.Unreact.WriteStylesWritten | src/app.rs:354-393 | a style loop that gets through compiled every style and wrote each one in order |
| App.Unreact.FinishPageFile | src/app.rs:321-351 | after a successful finish, a page with no later page written to the same file on disk has its text in its file |
| App.Unreact.FinishStyleFile | src/app.rs:354-393 | after a successful finish, every style compiled and its file holds its CSS |
| App.Unreact.FinishWritesSite | src/app.rs:319-412 | a successful finish leaves every page that no later page overwrites on disk, and every style, written, and the public directory copied |
| App.Unreact.FinishStyleFailures | src/app.rs:354-393 | any style that does not compile or minify makes `finish` fail; such an error comes only after all pages are written, and names a failing style with its error |
| App.Unreact.StyleNeedsItsFolder | src/app.rs:355-391 | a top-level style whose output folder does not exist fails to be written with `ENOENT` |
| App.Unreact.DevPageServed | src/app.rs:345-350 | in development, after a successful finish the server answers `/{p}` with the text of the last page written to that file on disk |
| App.Unreact.DevNotFoundServed | src/server.rs:62-65 | in development, the last page finish wrote to the `404` file on disk is what the server falls back to |
| Server.PossibleFiles | src/server.rs:109-115 | one candidate (the path itself) exactly when the path ends in `.html` or starts with `/styles` or `/public`; otherwise two, the first ending in `.html` and the second in `/index.html`; each starts with the path; the exact names are fixed by `PageServed`, `FolderIndexServed` and `Custom404Page` |
| Server.GetBestPossibleFile | src/server.rs:78-100 | the loop returns the text of the first candidate that is a file, nothing when that file is not UTF-8, and nothing when there is none |
| Server.Router | src/server.rs:53-71 | a GET that resolves gets that content with OK, anything else the custom `404` page with OK if it resolves, else the fixed text with NOT_FOUND |
| Server.FirstTextServes | src/server.rs:81-90 | the first candidate that is a UTF-8 file is served, whatever follows |
| Server.FirstTextHides | src/server.rs:91-95 | a first existing candidate that is not UTF-8 stops the search with nothing |
| Server.FirstTextFrom | src/server.rs:78-100 | what is served is the text of a candidate that exists, with no existing candidate before it |
| Server.SlashedCandidate | src/server.rs:82 | the doubled `/` in `./.devbuild//{path}` opens the same file as a single one |
| Server.PageServed | src/server.rs:109-115 | a page written as `{p}.html` is served for `/{p}` |
| Server.FolderIndexServed | src/server.rs:113 | without `{p}.html`, a folder's `index.html` is served for `/{p}` |
| Server.RootServesIndex | src/server.rs:113 | `/` is served from `index.html` |
| Server.Custom404Page | src/server.rs:62-65 | a written `404.html` is what `404` resolves to |
| Server2.PossibleFiles | src/server2.rs:65-74 | one candidate exactly when the path ends in `.html`, else two; all under `./.devbuild/` and all `.html` files; the exact names and their order are fixed by `PageServed`, `FolderIndexServed` and `HtmlPathServed` |
| Server2.PageServed | src/server2.rs:58-73 | a page written as `{p}.html` is served for `/{p}`: it is the first candidate |
| Server2.FolderIndexServed | src/server2.rs:69-72 | without `{p}.html`, the folder's `{p}/index.html` is served for `/{p}`: it is the second candidate |
| Server2.HtmlPathServed | src/server2.rs:65-67 | a path ending in `.html` is looked up as it is, and no other file is tried |
| Server2.Respond | src/server2.rs:22-46 | a non-GET request gets `Not Found` with NOT_FOUND; a GET gets what the first existing candidate decides |
| Server2.FirstDecides | src/server2.rs:29-37 | the first existing candidate decides: its text, or a panic when it is not UTF-8 |
| Server2.OnlyHtmlServed | src/server2.rs:65-74 | only `.html` files are ever served |
| Server2.NoCandidateNotFound | src/server2.rs:42-45 | with no candidate present the reply is `Not Found` with NOT_FOUND; there is no custom 404 page |
| Cli.IsDev | src/main.rs:51-54 | true exactly when some argument is `--dev` or `-d` |
| Cli.IsDevIgnoresOrder | src/main.rs:52-53 | reordering the arguments does not change the answer |
| Cli.IsDevAppend | src/main.rs:52-53 | the answer for two parts together is whether either part has a flag |
| Cli.IsDevExactMatch | src/main.rs:53 | arguments that only start like a flag (`--develop`, `-dx`) do not count |
| Cli.IsDevProgramName | src/main.rs:52 | the program name is inspected too |

## Left out

- `listen` and the server start-up in both servers: the tokio and hyper runtimes, socket binding, threads. Only the per-request decision is modelled. `finish` in development ends where `listen` would be called.
- Handlebars (partial parsing, rendering), `merge_json`, `minify_html`, grass, css-minify and dircpy: these are foreign libraries, modelled as functions of their inputs.
- The files dircpy copies into `./{build}/public` are not recorded in the output. Only its error is. So `App.Unreact.FinishPageFile` and `App.Unreact.DevPageServed` hold partly because of this: in the source, a page at `public/x` would be overwritten by a copied `public/x.html`.
- `Debug` and `to_string` formatting of foreign error payloads. A payload is the text it formats as.
- The real operating system. The model does not cover symlinks, or permissions beyond a map of refused paths. It does not resolve `.` and `..`, so it cannot see a page path escaping the build directory. The `is_dir` test on the `\`-replaced path is read as the entry's kind.
- The source side and the output side are separate. A configuration whose build directory is also a source directory, or lies inside one, is not modelled.
- A file that exists but cannot be read by the server (`fs::read(..).expect(..)` panics) cannot occur in the model.
- Real UTF-8 decoding. A file or a name is marked valid or not.
- `Lib.LoadFilemap`: on an error the Rust map keeps the insertions made before it. The model returns only the error, because every caller discards the map then.
- Output paths are stored as written: `create_dir` and `write` do not read a run of `/` as one, though `Lookup` does when a file is opened. A page path containing `//` is therefore stored under a key the server's lookup does not find, while the real file system would serve it. `App.Unreact.DevPageServed` requires a page path without `//`. Likewise two page paths that the operating system reads as one file (`about` and `/about`, `a/b` and `a//b`) are two keys in the model (`App.Unreact.PageAliases`); the page lemmas therefore speak of the last page written to a file on disk (`PageOnDisk`), and say nothing about which key an earlier aliasing page left behind.
- `Fs.MkDir` and `Fs.WriteFile` report `ENOTDIR` only when the immediate parent is a file; a file further up the path gives `ENOENT` in the model, where the operating system says `ENOTDIR`. The build creates prefixes in order, so it never meets that case.
- A path that is both a directory and a file on the output side is not ruled out by `Fs.Out`; `Lib.CreateChain` and `Lib.DirChainReady` state that their base is a directory and not a file.
- JSON numbers are modelled as `real`. Nothing in the model inspects them.
- The body of `main`, which drives an older API. Only `is_dev` is modelled.
- `println!` tracing in the servers and in `main`.
