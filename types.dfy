/** The error type and the page record shared by the whole library, with the
    text each error displays as. */
module Types {

  /** A payload from a foreign library (an `io::Error`, a handlebars
      `RenderError` or `TemplateError`, a message from the SCSS compiler or the
      CSS minifier), represented by the text its Debug formatting (`{:?}`)
      produces. */
  datatype Cause = Cause(debug: string)

  /** Every way a build can fail. */
  datatype UnreactError =
    | DirNotExist(path: string)
    | TemplateNotExist(name: string)
    | ScssConvertFail(name: string, cause: Cause)
    | MinifyCssFail(name: string, cause: Cause)
    | HandlebarsFail(name: string, cause: Cause)
    | RegisterPartialFail(name: string, cause: Cause)
    | RegisterInbuiltPartialFail(name: string, cause: Cause)
    | IoError(cause: Cause, path: string)

  /** Name-to-text map for templates and styles. */
  type FileMap = map<string, string>

  /** One output page: where it goes (without `.html`) and its text. */
  datatype File = File(path: string, content: string)

  /** `File::new`: stores both arguments as they are. */
  function NewFile(path: string, content: string): (f: File)
    ensures f.path == path && f.content == content
  {
    File(path, content)
  }

  /** The `Display` text of an error. Every variant's format string has the
      same shape: a lead-in, the subject in single quotes, the tag
      `(UnreactError::<tag>)`, and for the variants that carry a foreign
      payload, ` - ` and that payload's Debug text (for `IoError` the payload
      comes first, inside the lead-in). */
  function Message(e: UnreactError): string
  {
    Lead(e) + Quoted(Subject(e)) + " " + Tagged(Tag(e)) + Detail(e)
  }

  function Quoted(s: string): string { "'" + s + "'" }

  function Tagged(tag: string): string { "(UnreactError::" + tag + ")" }

  function Lead(e: UnreactError): string
  {
    match e
    case DirNotExist(_) => "Directory does not exist at "
    case TemplateNotExist(_) => "Template does not exist with name "
    case ScssConvertFail(_, _) => "Failed to convert SCSS to CSS for "
    case MinifyCssFail(_, _) => "Failed to minify CSS file for "
    case HandlebarsFail(_, _) => "Failed to render template with name "
    case RegisterPartialFail(_, _) => "Failed to register custom partial with name "
    case RegisterInbuiltPartialFail(_, _) => "Failed to register *inbuilt* partial "
    case IoError(err, _) => "File Error: " + err.debug + ", at path "
  }

  /** The tag each message ends its sentence with. */
  function Tag(e: UnreactError): string
  {
    match e
    case HandlebarsFail(_, _) => "RenderFail"
    case _ => VariantName(e)
  }

  function Detail(e: UnreactError): string
  {
    match e
    case DirNotExist(_) => ""
    case TemplateNotExist(_) => ""
    case IoError(_, _) => ""
    case ScssConvertFail(_, err) => " - " + err.debug
    case MinifyCssFail(_, err) => " - " + err.debug
    case HandlebarsFail(_, err) => " - " + err.debug
    case RegisterPartialFail(_, err) => " - " + err.debug
    case RegisterInbuiltPartialFail(_, err) => " - " + err.debug
  }

  /** The name or path an error is about. */
  function Subject(e: UnreactError): string
  {
    match e
    case DirNotExist(path) => path
    case IoError(_, path) => path
    case TemplateNotExist(name) => name
    case ScssConvertFail(name, _) => name
    case MinifyCssFail(name, _) => name
    case HandlebarsFail(name, _) => name
    case RegisterPartialFail(name, _) => name
    case RegisterInbuiltPartialFail(name, _) => name
  }

  /** The declared name of the variant. */
  function VariantName(e: UnreactError): string
  {
    match e
    case DirNotExist(_) => "DirNotExist"
    case TemplateNotExist(_) => "TemplateNotExist"
    case ScssConvertFail(_, _) => "ScssConvertFail"
    case MinifyCssFail(_, _) => "MinifyCssFail"
    case HandlebarsFail(_, _) => "HandlebarsFail"
    case RegisterPartialFail(_, _) => "RegisterPartialFail"
    case RegisterInbuiltPartialFail(_, _) => "RegisterInbuiltPartialFail"
    case IoError(_, _) => "IoError"
  }

  predicate OccursAt(s: string, t: string, k: nat)
  {
    k + |t| <= |s| && s[k..k + |t|] == t
  }

  /** `t` occurs somewhere inside `s`. */
  ghost predicate Infix(s: string, t: string)
  {
    exists k: nat :: OccursAt(s, t, k)
  }

  lemma InfixOf(a: string, t: string, b: string)
    ensures Infix(a + t + b, t)
  {
    var s := a + t + b;
    assert s[|a|..|a| + |t|] == t;
    assert OccursAt(s, t, |a|);
  }

  /** The message names the subject in single quotes and carries the tag
      `(UnreactError::<tag>)`; the tag is the variant's own name for every
      variant except `HandlebarsFail`, whose tag is `RenderFail`, a name no
      variant has. */
  lemma MessageNamesSubjectAndTag(e: UnreactError)
    ensures Infix(Message(e), Quoted(Subject(e)))
    ensures Infix(Message(e), Tagged(Tag(e)))
    ensures Tag(e) == VariantName(e) <==> !e.HandlebarsFail?
    ensures e.HandlebarsFail? ==> Tag(e) == "RenderFail"
  {
    var lead, q, t, d := Lead(e), Quoted(Subject(e)), Tagged(Tag(e)), Detail(e);
    assert Message(e) == lead + q + (" " + t + d);
    InfixOf(lead, q, " " + t + d);
    assert Message(e) == (lead + q + " ") + t + d;
    InfixOf(lead + q + " ", t, d);
  }

  /** Every message is its lead and an opening quote, the subject, and the
      closing quote followed by the tag and the detail. */
  lemma MessageAround(e: UnreactError)
    ensures Message(e) == (Lead(e) + "'") + Subject(e) + ("' " + Tagged(Tag(e)) + Detail(e))
  {
    var l, s, t, d := Lead(e), Subject(e), Tagged(Tag(e)), Detail(e);
    assert "'" + " " == "' ";
    calc {
      Message(e);
    ==
      l + ("'" + s + "'") + " " + t + d;
    ==
      (l + "'") + s + (("'" + " ") + t + d);
    }
  }

  /** The exact text of a missing-directory error. */
  lemma DirNotExistMessage(path: string)
    ensures Message(DirNotExist(path))
         == "Directory does not exist at '" + path + "' (UnreactError::DirNotExist)"
  {
    var e := DirNotExist(path);
    MessageAround(e);
    assert Lead(e) + "'" == "Directory does not exist at '";
    DirNotExistTail();
  }

  /** The closing quote and tag of a missing-directory error, spelled out. */
  lemma DirNotExistTail()
    ensures "' " + Tagged("DirNotExist") + "" == "' (UnreactError::DirNotExist)"
  {
  }

  /** The exact text of a missing-template error. */
  lemma TemplateNotExistMessage(name: string)
    ensures Message(TemplateNotExist(name))
         == "Template does not exist with name '" + name + "' (UnreactError::TemplateNotExist)"
  {
    var e := TemplateNotExist(name);
    MessageAround(e);
    assert Lead(e) + "'" == "Template does not exist with name '";
    TemplateNotExistTail();
  }

  /** The closing quote and tag of a missing-template error, spelled out. */
  lemma TemplateNotExistTail()
    ensures "' " + Tagged("TemplateNotExist") + "" == "' (UnreactError::TemplateNotExist)"
  {
  }

  /** Text wrapped between a fixed prefix and a fixed suffix can be recovered. */
  lemma {:induction false} Unwrap(a: string, p: string, q: string, b: string)
    requires a + p + b == a + q + b
    ensures p == q
  {
    var s, t := a + p + b, a + q + b;
    assert |p| == |q|;
    assert s[|a|..|a| + |p|] == p;
    assert t[|a|..|a| + |q|] == q;
  }

  /** Different directories give different messages, and so do different
      template names: the message identifies what is missing. */
  lemma MissingMessagesAreInjective(p: string, q: string)
    ensures Message(DirNotExist(p)) == Message(DirNotExist(q)) ==> p == q
    ensures Message(TemplateNotExist(p)) == Message(TemplateNotExist(q)) ==> p == q
  {
    DirNotExistMessage(p);
    DirNotExistMessage(q);
    if Message(DirNotExist(p)) == Message(DirNotExist(q)) {
      Unwrap("Directory does not exist at '", p, q, "' (UnreactError::DirNotExist)");
    }
    TemplateNotExistMessage(p);
    TemplateNotExistMessage(q);
    if Message(TemplateNotExist(p)) == Message(TemplateNotExist(q)) {
      Unwrap("Template does not exist with name '", p, q, "' (UnreactError::TemplateNotExist)");
    }
  }
}
