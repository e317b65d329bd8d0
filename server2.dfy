/** The earlier development server: GET requests are mapped to candidate
    files (only `.html` paths pass through unchanged), the first existing one
    is read as text, and everything else gets a plain not-found reply. */
module Server2 {
  import opened Wrappers
  import opened Strings
  import opened Fs
  import opened Http
  import Lib
  import Server

  /** The local address the server listens on. */
  const ADDRESS := "127.0.0.1:8080"

  /** The body of the default reply. */
  const NOT_FOUND_BODY := "Not Found"

  /** The message of the panic when a candidate file is not UTF-8. */
  const READ_PANIC := "Could not read file"

  /** What the handler does with one request: it answers, or the request's
      task panics (`read_to_string(..).expect(..)` on a file that is not UTF-8). */
  datatype Reply = Served(response: Response) | Panicked(message: string)

  /** `possible_files_from_path`: candidates already placed in the build
      directory; only a path ending in `.html` is used as it is. */
  function PossibleFiles(path: string): (files: seq<string>)
    ensures |files| == if EndsWith(path, ".html") then 1 else 2
    ensures forall i :: 0 <= i < |files| ==> "./" + Lib.DEV_BUILD_DIR + "/" + path <= files[i]
    ensures forall i :: 0 <= i < |files| ==> EndsWith(files[i], ".html")
  {
    var base := "./" + Lib.DEV_BUILD_DIR + "/" + path;
    if EndsWith(path, ".html") then [base] else [base + ".html", base + "/index.html"]
  }

  /** The reply to a GET for `path`, against the build files `files`. */
  function Answer(files: map<string, Body>, path: string): Reply
  {
    var cs := PossibleFiles(path);
    var j := FirstPresent(files, cs);
    if j == |cs| then Served(Response(NOT_FOUND, NOT_FOUND_BODY))
    else match Lookup(files, cs[j]).value
      case Text(s) => Served(Response(OK, s))
      case NonUtf8 => Panicked(READ_PANIC)
  }

  /** The request handler of `listen`. */
  method Respond(files: map<string, Body>, req: Request) returns (reply: Reply)
    ensures req.verb != Get ==> reply == Served(Response(NOT_FOUND, NOT_FOUND_BODY))
    ensures req.verb == Get ==> reply == Answer(files, req.path)
  {
    if req.verb == Get {
      var possible := PossibleFiles(req.path);
      var i := 0;
      while i < |possible|
        invariant 0 <= i <= |possible|
        invariant forall k :: 0 <= k < i ==> Lookup(files, possible[k]).None?
      {
        var found := Lookup(files, possible[i]);
        if found.Some? {
          assert FirstPresent(files, possible) == i;
          if found.value.Text? {
            return Served(Response(OK, found.value.text));
          } else {
            return Panicked(READ_PANIC);
          }
        }
        i := i + 1;
      }
      assert FirstPresent(files, possible) == |possible|;
    }
    return Served(Response(NOT_FOUND, NOT_FOUND_BODY));
  }

  /** The first existing candidate decides the reply; nothing is read past
      it, so a non-UTF-8 file there panics even when a later one is text. */
  lemma FirstDecides(files: map<string, Body>, path: string, i: nat)
    requires i < |PossibleFiles(path)|
    requires forall k :: 0 <= k < i ==> Lookup(files, PossibleFiles(path)[k]).None?
    requires Lookup(files, PossibleFiles(path)[i]).Some?
    ensures Answer(files, path) == match Lookup(files, PossibleFiles(path)[i]).value
      case Text(s) => Served(Response(OK, s))
      case NonUtf8 => Panicked(READ_PANIC)
  {
  }

  /** Only `.html` files are ever served: a stylesheet or an image is
      unreachable through this server. */
  lemma OnlyHtmlServed(files: map<string, Body>, path: string, s: string)
    requires Answer(files, path) == Served(Response(OK, s))
    ensures exists c :: c in PossibleFiles(path) && EndsWith(c, ".html") && Lookup(files, c) == Some(Text(s))
  {
    var cs := PossibleFiles(path);
    var j := FirstPresent(files, cs);
    assert cs[j] in cs;
  }

  /** Without any existing candidate the reply is the plain not-found one;
      there is no custom 404 page. */
  lemma NoCandidateNotFound(files: map<string, Body>, path: string)
    requires forall c :: c in PossibleFiles(path) ==> Lookup(files, c).None?
    ensures Answer(files, path) == Served(Response(NOT_FOUND, NOT_FOUND_BODY))
  {
  }

  /** A page registered at `p` (written to `./.devbuild/{p}.html`) is what a
      request for `/{p}` gets: the first candidate is `{path}.html`. */
  lemma PageServed(files: map<string, Body>, p: string, s: string)
    requires p != "" && p[0] != '/' && NoDoubleSlash(p) && !EndsWith("/" + p, ".html")
    requires Server.InBuild(p + ".html") in files && files[Server.InBuild(p + ".html")] == Text(s)
    ensures Answer(files, "/" + p) == Served(Response(OK, s))
  {
    var cs := PossibleFiles("/" + p);
    assert cs[0] == "./" + Lib.DEV_BUILD_DIR + "//" + (p + ".html");
    NoDoubleSlashAppend(p, ".html");
    Server.SlashedCandidate(files, p + ".html");
    assert FirstPresent(files, cs) == 0;
  }

  /** Without a page `p`, a request for `/{p}` gets the folder's index page
      `./.devbuild/{p}/index.html`: the second candidate. */
  lemma FolderIndexServed(files: map<string, Body>, p: string, s: string)
    requires p != "" && p[0] != '/' && p[|p| - 1] != '/' && NoDoubleSlash(p) && !EndsWith("/" + p, ".html")
    requires Server.InBuild(p + ".html") !in files
    requires Server.InBuild(p + "/index.html") in files && files[Server.InBuild(p + "/index.html")] == Text(s)
    ensures Answer(files, "/" + p) == Served(Response(OK, s))
  {
    var cs := PossibleFiles("/" + p);
    assert Lookup(files, cs[0]).None? by {
      assert cs[0] == "./" + Lib.DEV_BUILD_DIR + "//" + (p + ".html");
      NoDoubleSlashAppend(p, ".html");
      Server.SlashedCandidate(files, p + ".html");
    }
    assert Lookup(files, cs[1]) == Some(Text(s)) by {
      assert cs[1] == "./" + Lib.DEV_BUILD_DIR + "//" + (p + "/index.html");
      NoDoubleSlashAppend(p, "/index.html");
      Server.SlashedCandidate(files, p + "/index.html");
    }
    assert FirstPresent(files, cs) == 1;
  }

  /** A request naming an `.html` file gets that file or the plain
      not-found reply: no other candidate is tried. */
  lemma HtmlPathServed(files: map<string, Body>, p: string)
    requires p != "" && p[0] != '/' && NoDoubleSlash(p) && EndsWith("/" + p, ".html")
    ensures Answer(files, "/" + p) ==
      if Server.InBuild(p) !in files then Served(Response(NOT_FOUND, NOT_FOUND_BODY))
      else match files[Server.InBuild(p)]
        case Text(t) => Served(Response(OK, t))
        case NonUtf8 => Panicked(READ_PANIC)
  {
    var cs := PossibleFiles("/" + p);
    assert "./" + Lib.DEV_BUILD_DIR + "/" + ("/" + p) == "./" + Lib.DEV_BUILD_DIR + "//" + p;
    assert cs == ["./" + Lib.DEV_BUILD_DIR + "//" + p];
    Server.SlashedCandidate(files, p);
  }
}
