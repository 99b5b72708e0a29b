/**
 * The two helpers for Atlassian Document Format, the tree of paragraphs and
 * text runs the issue tracker uses for rich-text fields: extracting its plain
 * text, and building a one-paragraph document from a string.
 */
module Adf {
  import opened Wrappers
  import opened JsValue
  import JsString

  /** Concatenation of two partial texts; the first failure wins. */
  function Cat(a: Result<string, Error>, b: Result<string, Error>): (r: Result<string, Error>)
    ensures r.Success? <==> a.Success? && b.Success?
    ensures r.Success? ==> r.value == a.value + b.value
  {
    match a
    case Failure(e) => Failure(e)
    case Success(x) =>
      match b
      case Failure(e) => Failure(e)
      case Success(y) => Success(x + y)
  }

  lemma CatUnit(a: Result<string, Error>)
    ensures Cat(a, Success("")) == a && Cat(Success(""), a) == a
  {
    if a.Success? {
      assert a.value + "" == a.value;
      assert "" + a.value == a.value;
    }
  }

  lemma CatAssoc(a: Result<string, Error>, b: Result<string, Error>, c: Result<string, Error>)
    ensures Cat(Cat(a, b), c) == Cat(a, Cat(b, c))
  {
    if a.Success? && b.Success? && c.Success? {
      assert a.value + b.value + c.value == a.value + (b.value + c.value);
    }
  }

  /** What one child of a paragraph adds: its `text` if its `type` is "text", else nothing. */
  function RunText(run: Json): (r: Result<string, Error>)
    ensures r.Failure? <==> run.Undefined? || run.Null?
    ensures r.Success? && GetOpt(run, "type") != Str("text") ==> r.value == ""
  {
    match Get(run, "type")
    case Failure(e) => Failure(e)
    case Success(t) => if t == Str("text") then Success(ToJsString(GetOpt(run, "text"))) else Success("")
  }

  /** The inner reduce: the texts of a paragraph's children, in order. */
  function RunsText(runs: seq<Json>): Result<string, Error> {
    if runs == [] then Success("") else Cat(RunText(runs[0]), RunsText(runs[1..]))
  }

  /**
   * What one top-level node adds: for a paragraph with content, the text of
   * its children followed by a newline; nothing for any other node. Content
   * that is not an array has no `reduce` and throws.
   */
  function ItemText(item: Json): (r: Result<string, Error>)
    ensures item.Undefined? || item.Null? ==> r.Failure?
  {
    match Get(item, "type")
    case Failure(e) => Failure(e)
    case Success(t) =>
      var content := GetOpt(item, "content");
      if t == Str("paragraph") && Truthy(content) then
        if content.Arr? then Cat(RunsText(content.items), Success("\n")) else Failure(TypeError)
      else Success("")
  }

  /** The outer reduce over the document's top-level nodes. */
  function ItemsText(items: seq<Json>): Result<string, Error> {
    if items == [] then Success("") else Cat(ItemText(items[0]), ItemsText(items[1..]))
  }

  /** extractTextFromADF: the text of the top-level paragraphs, trimmed; a TypeError where a reduce would throw. */
  function ExtractTextFromAdf(adf: Json): (r: Result<string, Error>)
    ensures !Truthy(adf) || !Truthy(GetOpt(adf, "content")) ==> r == Success("")
    ensures Truthy(adf) && Truthy(GetOpt(adf, "content")) && !GetOpt(adf, "content").Arr? ==> r.Failure?
    ensures r.Success? && r.value != [] ==> !JsString.IsSpace(r.value[0]) && !JsString.IsSpace(r.value[|r.value| - 1])
  {
    if !Truthy(adf) then Success("")
    else
      var content := GetOpt(adf, "content");
      if !Truthy(content) then Success("")
      else if !content.Arr? then Failure(TypeError)
      else
        match ItemsText(content.items)
        case Failure(e) => Failure(e)
        case Success(t) =>
          Success(JsString.Trim(t))
  }

  /** A document node over the given top-level nodes. */
  function Doc(items: seq<Json>): Json {
    Obj(map["version" := Num(1), "type" := Str("doc"), "content" := Arr(items)])
  }

  function Paragraph(runs: seq<Json>): Json {
    Obj(map["type" := Str("paragraph"), "content" := Arr(runs)])
  }

  function TextRun(text: string): Json {
    Obj(map["type" := Str("text"), "text" := Str(text)])
  }

  /** createADF: a version-1 document holding one paragraph holding one text run. */
  function CreateAdf(text: string): Json {
    Doc([Paragraph([TextRun(text)])])
  }

  lemma TextRunText(text: string)
    ensures RunsText([TextRun(text)]) == Success(text)
  {
    var run := TextRun(text);
    assert GetOpt(run, "type") == Str("text");
    assert ToJsString(GetOpt(run, "text")) == text;
    assert RunText(run) == Success(text);
    CatUnit(RunText(run));
  }

  lemma ParagraphText(runs: seq<Json>)
    ensures ItemText(Paragraph(runs)) == Cat(RunsText(runs), Success("\n"))
  {
    var p := Paragraph(runs);
    assert Get(p, "type") == Success(Str("paragraph"));
    assert GetOpt(p, "content") == Arr(runs);
  }

  lemma DocText(items: seq<Json>)
    ensures ItemsText(items).Success? ==> ExtractTextFromAdf(Doc(items)) == Success(JsString.Trim(ItemsText(items).value))
  {
    var d := Doc(items);
    assert Truthy(d);
    assert GetOpt(d, "content") == Arr(items);
  }

  /** Extracted text is already trimmed. */
  lemma ExtractedTextIsTrimmed(adf: Json)
    requires ExtractTextFromAdf(adf).Success?
    ensures JsString.Trim(ExtractTextFromAdf(adf).value) == ExtractTextFromAdf(adf).value
  {
    var r := ExtractTextFromAdf(adf).value;
    if r != [] {
      assert JsString.TrimStart(r) == r;
      assert JsString.TrimEnd(r) == r;
    }
  }

  /** Extracting the text of a document built by createADF gives the text back, trimmed. */
  lemma AdfRoundTrip(text: string)
    ensures ExtractTextFromAdf(CreateAdf(text)) == Success(JsString.Trim(text))
  {
    var para := Paragraph([TextRun(text)]);
    TextRunText(text);
    ParagraphText([TextRun(text)]);
    CatUnit(ItemText(para));
    assert ItemsText([para]) == Success(text + "\n");
    DocText([para]);
    JsString.TrimAppendSpace(text, "\n");
  }

  /** The outer fold distributes over concatenation of node lists. */
  lemma {:induction false} ItemsTextConcat(a: seq<Json>, b: seq<Json>)
    ensures ItemsText(a + b) == Cat(ItemsText(a), ItemsText(b))
  {
    if a != [] {
      assert (a + b)[1..] == a[1..] + b;
      ItemsTextConcat(a[1..], b);
      CatAssoc(ItemText(a[0]), ItemsText(a[1..]), ItemsText(b));
    } else {
      assert a + b == b;
      CatUnit(ItemsText(b));
    }
  }

  /** The inner fold distributes over concatenation of runs. */
  lemma {:induction false} RunsTextConcat(a: seq<Json>, b: seq<Json>)
    ensures RunsText(a + b) == Cat(RunsText(a), RunsText(b))
  {
    if a != [] {
      assert (a + b)[1..] == a[1..] + b;
      RunsTextConcat(a[1..], b);
      CatAssoc(RunText(a[0]), RunsText(a[1..]), RunsText(b));
    } else {
      assert a + b == b;
      CatUnit(RunsText(b));
    }
  }

  /** A top-level node that is not a paragraph with content adds nothing, wherever it stands. */
  lemma OtherNodeIgnored(a: seq<Json>, node: Json, b: seq<Json>)
    requires !(node.Undefined? || node.Null?)
    requires GetOpt(node, "type") != Str("paragraph") || !Truthy(GetOpt(node, "content"))
    ensures ItemsText(a + [node] + b) == ItemsText(a + b)
  {
    ItemsTextConcat(a + [node], b);
    ItemsTextConcat(a, [node]);
    ItemsTextConcat(a, b);
    CatUnit(ItemsText([]));
    assert ItemsText([node]) == Success("");
    CatUnit(ItemsText(a));
  }

  /** A child of a paragraph that is not a text run adds nothing, wherever it stands. */
  lemma OtherRunIgnored(a: seq<Json>, run: Json, b: seq<Json>)
    requires !(run.Undefined? || run.Null?)
    requires GetOpt(run, "type") != Str("text")
    ensures RunsText(a + [run] + b) == RunsText(a + b)
  {
    RunsTextConcat(a + [run], b);
    RunsTextConcat(a, [run]);
    RunsTextConcat(a, b);
    CatUnit(RunsText([]));
    assert RunsText([run]) == Success("");
    CatUnit(RunsText(a));
  }
}
