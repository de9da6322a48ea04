/**
 * `compile`: tokenize the whole input, link the page header, validate the
 * page and encode it.
 *
 * The source links the page header before it validates, and linking
 * dereferences the title and the author; a page without either crashes
 * there instead of raising the validation error `validate` was written to
 * raise. `CompileAsWritten` models that order; `Output` and the method
 * `Compile` validate first, as intended.
 */
module Compiler {
  import opened Common
  import opened Tree
  import opened Errors
  import opened Parser
  import opened Tokenizer
  import opened Html

  /** `HTML::validate`: a title is required first, then an author. */
  function Validate(title: Option<string>, author: Option<string>): (r: Option<Error>)
    ensures r.None? <==> title.Some? && author.Some?
    ensures r.Some? ==> r.value.ValidationError?
    ensures title.None? ==> r == Some(ValidationError("Title not found"))
    ensures title.Some? && author.None? ==> r == Some(ValidationError("Author not found"))
  {
    if title.None? then Some(ValidationError("Title not found"))
    else if author.None? then Some(ValidationError("Author not found"))
    else None
  }

  /** The `<head>` and `<body>` children of the page once its header is linked. */
  function LinkedPage(title: string, author: string): (seq<HeaderChild>, seq<BodyChild>) {
    ([TabTitle(title)], [SummaryBlock, PageTitle(title), PageAuthor(author), MainBody])
  }

  /** Linking a page that holds only the main section gives `LinkedPage`. */
  lemma LinkFromFreshPage(title: string, author: string)
    ensures ([] + [TabTitle(title)], [SummaryBlock, PageTitle(title), PageAuthor(author)] + ([] + [MainBody]))
            == LinkedPage(title, author)
    ensures LinkAsWritten([], [MainBody], Some(title), Some(author)) == Some(LinkedPage(title, author))
  {
    assert [] + [TabTitle(title)] == [TabTitle(title)];
    assert [] + [MainBody] == [MainBody];
    assert [SummaryBlock, PageTitle(title), PageAuthor(author)] + [MainBody] ==
           [SummaryBlock, PageTitle(title), PageAuthor(author), MainBody];
  }

  /** The page `compile` writes for a linked title and author and the two trees. */
  function Render(title: string, author: string, sections: seq<Section>, summary: seq<Entry>): string
    requires Encodable(sections, summary)
  {
    var (header, body) := LinkedPage(title, author);
    PageHtml(header, body, sections, summary)
  }

  /** What `compile` writes for `input`, or the error it raises, validating before linking. */
  function Output(input: seq<char>): Result<string, Error> {
    match Parse(input)
    case Err(e) => Err(e)
    case Ok(s) =>
      match Validate(s.title, s.author)
      case Some(e) => Err(e)
      case None =>
        WellFormedEncodable(s.sections, s.summary);
        Ok(Render(s.title.value, s.author.value, s.sections, s.summary))
  }

  /**
   * The outcome of `compile`: a crash on a null dereference, an error it
   * raises, or the text it writes.
   */
  datatype Outcome = Crashed | Failed(error: Error) | Written(text: string)

  /**
   * `link_page_header` as written, on the children of `<head>` and `<body>`:
   * it pushes the author and then the title to the front of the body, and
   * `push_front_child` writes the child's parent field, so a missing one is
   * a null dereference (`None`).
   */
  function LinkAsWritten(header: seq<HeaderChild>, body: seq<BodyChild>, title: Option<string>, author: Option<string>)
    : (r: Option<(seq<HeaderChild>, seq<BodyChild>)>)
    ensures r.Some? <==> title.Some? && author.Some?
  {
    if author.None? || title.None? then None
    else Some((header + [TabTitle(title.value)], [SummaryBlock, PageTitle(title.value), PageAuthor(author.value)] + body))
  }

  /** `compile` as written: link the page header, then validate, then encode. */
  function CompileAsWritten(input: seq<char>): Outcome {
    match Parse(input)
    case Err(e) => Failed(e)
    case Ok(s) =>
      match LinkAsWritten([], [MainBody], s.title, s.author)
      case None => Crashed
      case Some((header, body)) =>
        match Validate(s.title, s.author)
        case Some(e) => Failed(e)
        case None =>
          WellFormedEncodable(s.sections, s.summary);
          Written(PageHtml(header, body, s.sections, s.summary))
  }

  // ---------------------------------------------------------------------------
  // Properties
  // ---------------------------------------------------------------------------

  /**
   * `compile` succeeds exactly when tokenizing succeeds and both a title and
   * an author were given; a missing title is reported before a missing
   * author, and tokenizing errors are reported as they are.
   */
  lemma OutputOutcome(input: seq<char>)
    ensures Output(input).Ok? <==> Parse(input).Ok? && Parse(input).value.title.Some? && Parse(input).value.author.Some?
    ensures Output(input) == Err(ValidationError("Title not found")) <==>
              Parse(input).Ok? && Parse(input).value.title.None?
    ensures Output(input) == Err(ValidationError("Author not found")) <==>
              Parse(input).Ok? && Parse(input).value.title.Some? && Parse(input).value.author.None?
    ensures Parse(input).Err? ==> Output(input) == Err(Parse(input).error)
  {
  }

  /**
   * The page `compile` writes: the `<head>` holds the tab title; the
   * `<body>` holds the summary, the title, the author and the main section,
   * in that order.
   */
  lemma RenderLayout(title: string, author: string, sections: seq<Section>, summary: seq<Entry>)
    requires Encodable(sections, summary)
    ensures Render(title, author, sections, summary) ==
              PageOpen + (HeadOpen + ("<title>" + title + "</title>\n") + "</head>\n") +
              ("<body>\n" + (SummaryHtml(summary) + ("<h1 id='title'>" + title + "</h1>\n") +
               ("<h3 id='author'>" + author + "</h3>\n") + MainHtml(sections)) + "</body>\n") +
              "</html>\n"
  {
    var (header, body) := LinkedPage(title, author);
    assert HeaderChildrenHtml(header, 1) == "" + HeaderChildHtml(header[0]);
    assert "" + HeaderChildHtml(header[0]) == "<title>" + title + "</title>\n";
    var parts := [SummaryHtml(summary), "<h1 id='title'>" + title + "</h1>\n",
                  "<h3 id='author'>" + author + "</h3>\n", MainHtml(sections)];
    assert BodyChildrenHtml(body, 1, sections, summary) == "" + parts[0] == parts[0];
    assert BodyChildrenHtml(body, 2, sections, summary) == parts[0] + parts[1];
    assert BodyChildrenHtml(body, 3, sections, summary) == parts[0] + parts[1] + parts[2];
    assert BodyChildrenHtml(body, 4, sections, summary) == parts[0] + parts[1] + parts[2] + parts[3];
  }

  /**
   * As written, `compile` crashes exactly when it would have had to report
   * a missing title or author, and otherwise does what `Output` does: the
   * validation errors are never raised.
   */
  lemma AsWrittenCrashesInsteadOfValidating(input: seq<char>)
    ensures CompileAsWritten(input).Crashed? <==> Output(input).Err? && Output(input).error.ValidationError?
    ensures CompileAsWritten(input).Failed? <==> Output(input).Err? && Output(input).error.CompilingError?
    ensures CompileAsWritten(input).Failed? ==> Output(input) == Err(CompileAsWritten(input).error)
    ensures CompileAsWritten(input).Written? <==> Output(input).Ok?
    ensures CompileAsWritten(input).Written? ==> Output(input) == Ok(CompileAsWritten(input).text)
  {
    var parsed := Parse(input);
    if parsed.Ok? && parsed.value.title.Some? && parsed.value.author.Some? {
      LinkFromFreshPage(parsed.value.title.value, parsed.value.author.value);
    }
  }

  /** The empty input: `compile` as written crashes where a missing title should be reported. */
  lemma EmptyInputCrashes()
    ensures CompileAsWritten("") == Crashed
    ensures Output("") == Err(ValidationError("Title not found"))
  {
    var s := Initial("");
    InitialInv("");
    assert Run(s) == Ok(s);
  }

  // ---------------------------------------------------------------------------
  // The compile routine
  // ---------------------------------------------------------------------------

  /**
   * The end of `compile` once the title and the author are known: a page
   * root with the main section in its body, linked, then encoded to a
   * fresh stream.
   */
  method WritePage(title: string, author: string, sections: seq<Section>, summary: seq<Entry>) returns (text: string)
    requires Encodable(sections, summary)
    ensures text == Render(title, author, sections, summary)
  {
    var root := new HtmlRoot();
    root.AddToBody(MainBody);
    root.LinkPageHeader(title, author);
    LinkFromFreshPage(title, author);
    var w := new Writer();
    root.EncodeTo(w, sections, summary);
    text := w.text;
  }

  /**
   * `compile`, with validation moved before linking: tokenize, check the
   * title and the author, then write the page.
   */
  method Compile(input: seq<char>) returns (r: Result<string, Error>)
    ensures r == Output(input)
  {
    var parsed := Tokenize(input);
    if parsed.Err? {
      return Err(parsed.error);
    }
    var s := parsed.value;
    var invalid := Validate(s.title, s.author);
    if invalid.Some? {
      return Err(invalid.value);
    }
    WellFormedEncodable(s.sections, s.summary);
    var text := WritePage(s.title.value, s.author.value, s.sections, s.summary);
    return Ok(text);
  }
}
