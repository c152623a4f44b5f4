/**
 * `JinaReaderClient.parse`: turning the reader's reply for one URL into the
 * page record (url, title, word count, content), on the JSON path, the
 * plain-text path and the request-failure path.
 */
module JinaReader {
  import opened Wrappers
  import opened Text

  const NoTitle: string := "No Title Found"

  /**
   * The string fields of a decoded JSON object that the reader looks at;
   * `otherKeys` records whether it has any other key.
   */
  datatype JsonObject = JsonObject(title: Option<string>, content: Option<string>, url: Option<string>, otherKeys: bool)

  /** `not data`: the object has no key at all. */
  predicate IsEmptyObject(o: JsonObject) {
    o.title.None? && o.content.None? && o.url.None? && !o.otherKeys
  }

  /**
   * The `data` member of a JSON object body: `NoData` when it is absent or
   * falsy (`null`, `false`, `0`, `""`, `[]`), an object, or `DataOther`
   * for any truthy value that is not an object, named by its Python type
   * (`str`, `list`, `int`, ...).
   */
  datatype DataMember = NoData | DataObject(obj: JsonObject) | DataOther(typeName: string)

  /**
   * The reader's reply: a request exception, a JSON body whose root is an
   * object (with its `data` member), a JSON body whose root is not an
   * object (named by its Python type), or a body that is not JSON.
   */
  datatype ReaderReply =
    | ReaderFailed(message: string)
    | JsonBody(root: JsonObject, data: DataMember)
    | JsonNotObject(typeName: string)
    | TextBody(text: string)

  datatype Page = Page(url: string, title: string, wordCount: nat, mainContent: string)

  /** `{"error": msg}` or the page record. */
  datatype ParseResult = ParseError(message: string) | Parsed(page: Page)

  /**
   * What one `parse` call comes to: an exception escaping it (by its
   * message), or the record it returns.
   */
  datatype ParseOutcome = Raised(reason: string) | Returned(result: ParseResult)

  /** The message of the `AttributeError` that `.get` on a non-dictionary raises. */
  function NoGet(typeName: string): string {
    "'" + typeName + "' object has no attribute 'get'"
  }

  /**
   * The object the fields are read from: `data` unless it is missing or
   * falsy, else the root; none when `data` is truthy but not an object, so
   * that reading a field from it raises.
   */
  function Payload(root: JsonObject, data: DataMember): (p: Option<JsonObject>)
    ensures p.None? <==> data.DataOther?
    ensures data.DataObject? && !IsEmptyObject(data.obj) ==> p == Some(data.obj)
    ensures data.NoData? || (data.DataObject? && IsEmptyObject(data.obj)) ==> p == Some(root)
  {
    match data
    case DataOther(_) => None
    case DataObject(obj) => if IsEmptyObject(obj) then Some(root) else Some(obj)
    case NoData => Some(root)
  }

  /** The title of a markdown body: its first line without `"# "`, stripped, when it is a heading. */
  function MarkdownTitle(text: string): string {
    var line := FirstLine(text);
    if StartsWith(line, "# ") then Strip(line[2..], IsSpace) else NoTitle
  }

  /** `len(content.split())`. */
  function WordCount(content: string): nat {
    |Words(content)|
  }

  /**
   * `parse(url)` given the reader's reply.  Only request exceptions and
   * bodies that are not JSON are caught; the `AttributeError` of a JSON
   * body that is not an object, or whose `data` is truthy but not an
   * object, escapes.
   */
  function Parse(url: string, reply: ReaderReply): (r: ParseOutcome)
    ensures r.Raised? <==> reply.JsonNotObject? || (reply.JsonBody? && reply.data.DataOther?)
    ensures reply.JsonNotObject? ==> r == Raised(NoGet(reply.typeName))
    ensures reply.JsonBody? && reply.data.DataOther? ==> r == Raised(NoGet(reply.data.typeName))
    ensures r.Returned? && r.result.ParseError? <==> reply.ReaderFailed?
    ensures reply.ReaderFailed? ==> r == Returned(ParseError(reply.message))
    ensures r.Returned? && r.result.Parsed? ==> r.result.page.wordCount == WordRuns(r.result.page.mainContent)
    ensures reply.JsonBody? && !reply.data.DataOther? ==>
      var p := Payload(reply.root, reply.data).value;
      r == Returned(Parsed(Page(p.url.GetOr(url), p.title.GetOr(NoTitle), r.result.page.wordCount, p.content.GetOr(""))))
    ensures reply.TextBody? ==>
      r == Returned(Parsed(Page(url, MarkdownTitle(reply.text), r.result.page.wordCount, reply.text)))
  {
    match reply
    case ReaderFailed(message) => Returned(ParseError(message))
    case JsonNotObject(typeName) => Raised(NoGet(typeName))
    case JsonBody(root, data) =>
      (match Payload(root, data)
       case None => Raised(NoGet(data.typeName))
       case Some(p) =>
         var content := p.content.GetOr("");
         WordCountIsRuns(content);
         Returned(Parsed(Page(p.url.GetOr(url), p.title.GetOr(NoTitle), WordCount(content), content))))
    case TextBody(text) =>
      WordCountIsRuns(text);
      Returned(Parsed(Page(url, MarkdownTitle(text), WordCount(text), text)))
  }

  /** A body whose first line is the heading `"# " + h` is titled `h` stripped of whitespace. */
  lemma HeadingTitle(h: string, rest: string)
    requires '\n' !in h
    requires rest == [] || rest[0] == '\n'
    ensures MarkdownTitle("# " + h + rest) == Strip(h, IsSpace)
  {
    var text := "# " + h + rest;
    var line := "# " + h;
    assert text == line + rest;
    FirstLineOf(line, rest);
    assert line[2..] == h;
  }

  /** A body that does not begin with `"# "` has no title. */
  lemma NoHeadingNoTitle(text: string)
    requires !StartsWith(text, "# ")
    ensures MarkdownTitle(text) == NoTitle
  {
  }
}
