/** The development server: it maps a request path to candidate files in
    the development build directory, serves the first one that exists, and
    falls back to a custom `404` page and then to a fixed not-found reply. */
module Server {
  import opened Wrappers
  import opened Strings
  import opened Fs
  import opened Http
  import Lib

  /** The local address the server listens on. */
  const ADDRESS := "127.0.0.1:8080"

  /** The development notice registered as the `DEV_SCRIPT` partial. */
  const DEV_SCRIPT := "\n  <script>\n    console.warn(\"This document is in *development mode*\");\n  </script>\n"

  /** The body of the reply when not even a custom 404 page exists. */
  const FALLBACK_404 := "404 - File not found. Custom 404 page not found."

  /** A request path that names its file directly: an `.html` page, or
      anything under `/styles` or `/public` (a raw prefix test, so
      `/stylesheet` counts too). */
  predicate ServedAsIs(path: string)
  {
    EndsWith(path, ".html") || "/styles" <= path || "/public" <= path
  }

  /** `possible_files_from_path`: the path itself when it names its file,
      otherwise its page and its folder's index page, in that order. */
  function PossibleFiles(path: string): (files: seq<string>)
    ensures |files| == if ServedAsIs(path) then 1 else 2
    ensures forall i :: 0 <= i < |files| ==> path <= files[i]
    ensures files[0] == path <==> ServedAsIs(path)
    ensures !ServedAsIs(path) ==> EndsWith(files[0], ".html") && EndsWith(files[1], "/index.html")
  {
    if ServedAsIs(path) then [path] else [path + ".html", path + "/index.html"]
  }

  /** Where a candidate is looked for: `./{DEV_BUILD_DIR}/{file}`. */
  function InBuild(file: string): string
  {
    "./" + Lib.DEV_BUILD_DIR + "/" + file
  }

  /** The candidates for `path`, placed in the development build directory. */
  function Candidates(path: string): (cs: seq<string>)
    ensures |cs| == |PossibleFiles(path)|
    ensures forall i :: 0 <= i < |cs| ==> cs[i] == InBuild(PossibleFiles(path)[i])
  {
    var files := PossibleFiles(path);
    seq(|files|, i requires 0 <= i < |files| => InBuild(files[i]))
  }

  /** The content served from the first candidate that is a file: its text,
      or nothing when it is not UTF-8 (later candidates are not tried). */
  function FirstText(files: map<string, Body>, cs: seq<string>): Option<string>
    decreases |cs|
  {
    if cs == [] then None
    else match Lookup(files, cs[0])
      case None => FirstText(files, cs[1..])
      case Some(Text(s)) => Some(s)
      case Some(NonUtf8) => None
  }

  /** What `get_best_possible_file(path)` returns against the build files `files`. */
  function Resolve(files: map<string, Body>, path: string): Option<string>
  {
    FirstText(files, Candidates(path))
  }

  /** `get_best_possible_file`. */
  method GetBestPossibleFile(files: map<string, Body>, path: string) returns (r: Option<string>)
    ensures r == Resolve(files, path)
  {
    var possible := PossibleFiles(path);
    ghost var cs := Candidates(path);
    var i := 0;
    while i < |possible|
      invariant 0 <= i <= |possible|
      invariant FirstText(files, cs) == FirstText(files, cs[i..])
    {
      var file := InBuild(possible[i]);
      assert cs[i..][0] == file && cs[i..][1..] == cs[i + 1..];
      var found := Lookup(files, file);
      if found.Some? {
        if found.value.Text? {
          return Some(found.value.text);
        } else {
          return None;
        }
      }
      i := i + 1;
    }
    return None;
  }

  /** `router`: a GET for a path that resolves gets that content; anything
      else gets the custom `404` page if one resolves, else the fixed
      not-found reply with status NOT_FOUND. */
  method Router(files: map<string, Body>, req: Request) returns (resp: Response)
    ensures req.verb == Get && Resolve(files, req.path).Some? ==>
      resp == Response(OK, Resolve(files, req.path).value)
    ensures !(req.verb == Get && Resolve(files, req.path).Some?) && Resolve(files, "404").Some? ==>
      resp == Response(OK, Resolve(files, "404").value)
    ensures !(req.verb == Get && Resolve(files, req.path).Some?) && Resolve(files, "404").None? ==>
      resp == Response(NOT_FOUND, FALLBACK_404)
  {
    if req.verb == Get {
      var file := GetBestPossibleFile(files, req.path);
      if file.Some? {
        return Response(OK, file.value);
      }
    }
    var custom := GetBestPossibleFile(files, "404");
    if custom.Some? {
      return Response(OK, custom.value);
    }
    return Response(NOT_FOUND, FALLBACK_404);
  }

  /* ---------------------------------------------------------- meaning */

  /** The first candidate that is a UTF-8 file is served, whatever follows it. */
  lemma {:induction false} FirstTextServes(files: map<string, Body>, cs: seq<string>, i: nat, s: string)
    requires i < |cs|
    requires forall k :: 0 <= k < i ==> Lookup(files, cs[k]).None?
    requires Lookup(files, cs[i]) == Some(Text(s))
    ensures FirstText(files, cs) == Some(s)
    decreases i
  {
    if i > 0 {
      assert forall k :: 0 <= k < i - 1 ==> cs[1..][k] == cs[k + 1];
      FirstTextServes(files, cs[1..], i - 1, s);
    }
  }

  /** A first candidate that is not UTF-8 hides every later one. */
  lemma {:induction false} FirstTextHides(files: map<string, Body>, cs: seq<string>, i: nat)
    requires i < |cs|
    requires forall k :: 0 <= k < i ==> Lookup(files, cs[k]).None?
    requires Lookup(files, cs[i]) == Some(NonUtf8)
    ensures FirstText(files, cs) == None
    decreases i
  {
    if i > 0 {
      assert forall k :: 0 <= k < i - 1 ==> cs[1..][k] == cs[k + 1];
      FirstTextHides(files, cs[1..], i - 1);
    }
  }

  /** Whatever is served is the text of one of the candidates, and no
      candidate before that one exists. */
  lemma {:induction false} FirstTextFrom(files: map<string, Body>, cs: seq<string>)
    ensures FirstText(files, cs).Some? ==>
      exists i :: 0 <= i < |cs| && Lookup(files, cs[i]) == Some(Text(FirstText(files, cs).value))
        && forall k :: 0 <= k < i ==> Lookup(files, cs[k]).None?
    decreases |cs|
  {
    if cs != [] && Lookup(files, cs[0]).None? {
      FirstTextFrom(files, cs[1..]);
      if FirstText(files, cs).Some? {
        var t := cs[1..];
        var i :| 0 <= i < |t| && Lookup(files, t[i]) == Some(Text(FirstText(files, cs).value))
          && forall k :: 0 <= k < i ==> Lookup(files, t[k]).None?;
        assert cs[i + 1] == t[i];
        forall k | 0 <= k < i + 1 ensures Lookup(files, cs[k]).None? {
          if k > 0 { assert cs[k] == t[k - 1]; }
        }
      }
    }
  }

  /** A candidate with a doubled `/` after the build directory reads the
      file written without it. */
  lemma SlashedCandidate(files: map<string, Body>, x: string)
    requires NoDoubleSlash(x) && (x == [] || x[0] != '/')
    ensures Lookup(files, "./" + Lib.DEV_BUILD_DIR + "//" + x) == if InBuild(x) in files then Some(files[InBuild(x)]) else None
  {
    var dir := "./" + Lib.DEV_BUILD_DIR;
    assert NoDoubleSlash(dir + "/") by {
      assert dir + "/" == "./.devbuild/";
    }
    NoDoubleSlashAppend(dir + "/", x);
    assert InBuild(x) == (dir + "/") + x;
    CollapseSlashesDup(dir, x);
    CollapseSlashesPlain(InBuild(x));
  }

  /** A page registered at `p` (written to `./.devbuild/{p}.html`) is what a
      request for `/{p}` gets. */
  lemma PageServed(files: map<string, Body>, p: string, s: string)
    requires p != "" && p[0] != '/' && NoDoubleSlash(p) && !ServedAsIs("/" + p)
    requires InBuild(p + ".html") in files && files[InBuild(p + ".html")] == Text(s)
    ensures Resolve(files, "/" + p) == Some(s)
  {
    var cs := Candidates("/" + p);
    assert cs[0] == "./" + Lib.DEV_BUILD_DIR + "//" + (p + ".html");
    NoDoubleSlashAppend(p, ".html");
    SlashedCandidate(files, p + ".html");
    FirstTextServes(files, cs, 0, s);
  }

  /** The custom not-found page is the page registered at `404`. */
  lemma Custom404Page(files: map<string, Body>, s: string)
    requires InBuild("404.html") in files && files[InBuild("404.html")] == Text(s)
    ensures Resolve(files, "404") == Some(s)
  {
    assert !ServedAsIs("404");
    assert Candidates("404")[0] == InBuild("404.html");
    assert NoDoubleSlash(InBuild("404.html"));
    CollapseSlashesPlain(InBuild("404.html"));
    FirstTextServes(files, Candidates("404"), 0, s);
  }

  /** A request for `/{p}` with no page `p` gets the folder's index page
      `./.devbuild/{p}/index.html`. */
  lemma FolderIndexServed(files: map<string, Body>, p: string, s: string)
    requires p != "" && p[0] != '/' && p[|p| - 1] != '/' && NoDoubleSlash(p) && !ServedAsIs("/" + p)
    requires InBuild(p + ".html") !in files
    requires InBuild(p + "/index.html") in files && files[InBuild(p + "/index.html")] == Text(s)
    ensures Resolve(files, "/" + p) == Some(s)
  {
    var cs := Candidates("/" + p);
    assert Lookup(files, cs[0]).None? by {
      assert cs[0] == "./" + Lib.DEV_BUILD_DIR + "//" + (p + ".html");
      NoDoubleSlashAppend(p, ".html");
      SlashedCandidate(files, p + ".html");
    }
    assert Lookup(files, cs[1]) == Some(Text(s)) by {
      assert cs[1] == "./" + Lib.DEV_BUILD_DIR + "//" + (p + "/index.html");
      NoDoubleSlashAppend(p, "/index.html");
      SlashedCandidate(files, p + "/index.html");
    }
    FirstTextServes(files, cs, 1, s);
  }

  /** The site root `/` is its `index.html`, unless a page with the empty
      path was written (`./.devbuild/.html`). */
  lemma RootServesIndex(files: map<string, Body>, s: string)
    requires InBuild(".html") !in files
    requires InBuild("index.html") in files && files[InBuild("index.html")] == Text(s)
    ensures Resolve(files, "/") == Some(s)
  {
    var dir := "./" + Lib.DEV_BUILD_DIR;
    var cs := Candidates("/");
    assert !ServedAsIs("/");
    assert cs[0] == dir + "//" + ".html";
    assert cs[1] == dir + "//" + "/index.html";
    assert dir + "//" + "/index.html" == (dir + "/") + "//" + "index.html";
    CollapseSlashesDup(dir + "/", "index.html");
    assert (dir + "/") + "/" + "index.html" == dir + "//" + "index.html";
    SlashedCandidate(files, ".html");
    SlashedCandidate(files, "index.html");
    FirstTextServes(files, cs, 1, s);
  }
}
