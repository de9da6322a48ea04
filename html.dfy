/**
 * The renderer: the `encode_to` overrides of every node class, which walk
 * the tree and append their text to the output stream.
 *
 * The text each node produces is first defined as a function of the two
 * arenas (`SectionHtml`, `EntryHtml`, `PageHtml`, ...). The output stream is
 * the class `Writer`, whose text only grows, and the `Encode...` methods are
 * the tree walks; each is proved to append exactly the text its function
 * defines.
 */
module Html {
  import opened Common
  import opened Numbers
  import opened Tree
  import opened Errors
  import opened Parser
  import opened Structure

  // ---------------------------------------------------------------------------
  // What the trees must satisfy to be encoded
  // ---------------------------------------------------------------------------

  /** Every section child of a body section comes later in the arena. */
  ghost predicate Forward(sections: seq<Section>) {
    forall p, c :: 0 <= p < |sections| && 0 <= c < |sections[p].children| && sections[p].children[c].Sub? ==>
      p < sections[p].children[c].index < |sections|
  }

  /** Every child of a summary section comes later in the arena. */
  ghost predicate EntriesForward(summary: seq<Entry>) {
    forall p, c :: 0 <= p < |summary| && 0 <= c < |summary[p].children| ==> p < summary[p].children[c] < |summary|
  }

  /** Every section but the main one has a non-empty id, so `get_id_str` is defined on it. */
  ghost predicate Labelled(sections: seq<Section>) {
    forall i :: 0 < i < |sections| ==> sections[i].id != []
  }

  ghost predicate EntriesLabelled(summary: seq<Entry>) {
    forall i :: 0 < i < |summary| ==> summary[i].id != []
  }

  /** Both trees as `compile` leaves them. */
  ghost predicate Encodable(sections: seq<Section>, summary: seq<Entry>) {
    |sections| > 0 && |summary| > 0 &&
    Forward(sections) && Labelled(sections) && EntriesForward(summary) && EntriesLabelled(summary)
  }

  /** The trees the main loop builds can be encoded. */
  lemma WellFormedEncodable(sections: seq<Section>, summary: seq<Entry>)
    requires WellFormed(sections, summary)
    ensures Encodable(sections, summary)
  {
    forall p, c | 0 <= p < |sections| && 0 <= c < |sections[p].children| && sections[p].children[c].Sub?
      ensures p < sections[p].children[c].index < |sections|
    {
      var j := sections[p].children[c].index;
      SubsMembers(sections[p].children, j);
      var subs := Subs(sections[p].children);
      var k :| 0 <= k < |subs| && subs[k] == j;
    }
    forall i | 0 < i < |sections|
      ensures sections[i].id != []
    {
      EmptyIdIsMain(sections, summary, i);
    }
  }

  // ---------------------------------------------------------------------------
  // The text of each node
  // ---------------------------------------------------------------------------

  /** `Paragraph::encode_to`. */
  function ParagraphHtml(text: string): string {
    "<p>\n" + text + "</p>\n"
  }

  /** The heading line of a body section: its anchor is the id string, its text the id string and the name. */
  function Heading(name: string, id: seq<int>): string
    requires id != []
  {
    var h, idStr := HeadingTag(id), IdString(id);
    "<" + h + " id='" + idStr + "'>" + idStr + " " + name + "</" + h + ">" + "\n"
  }

  /** `BodySection::encode_to` of section `i`. */
  function SectionHtml(sections: seq<Section>, i: nat): string
    requires Forward(sections) && Labelled(sections) && 0 < i < |sections|
    decreases |sections| - i, 2, 0
  {
    "<div class='section'>\n" + Heading(sections[i].name, sections[i].id) +
    ItemsHtml(sections, i, |sections[i].children|) + "</div>\n"
  }

  /** `encode_childrens` of body section `i`, up to (not including) child `k`. */
  function ItemsHtml(sections: seq<Section>, i: nat, k: nat): string
    requires Forward(sections) && Labelled(sections) && i < |sections| && k <= |sections[i].children|
    decreases |sections| - i, 1, k
  {
    if k == 0 then "" else ItemsHtml(sections, i, k - 1) + ItemHtml(sections, i, k - 1)
  }

  /** `encode_to` of child `c` of body section `i`: a paragraph or a sub-section. */
  function ItemHtml(sections: seq<Section>, i: nat, c: nat): string
    requires Forward(sections) && Labelled(sections) && i < |sections| && c < |sections[i].children|
    decreases |sections| - i, 0, 0
  {
    match sections[i].children[c]
    case Para(text) => ParagraphHtml(text)
    case Sub(j) => SectionHtml(sections, j)
  }

  /** `MainBodySection::encode_to`: no heading of its own. */
  function MainHtml(sections: seq<Section>): string
    requires Forward(sections) && Labelled(sections) && |sections| > 0
  {
    "<div class='section'>\n" + ItemsHtml(sections, 0, |sections[0].children|) + "</div>\n"
  }

  /** The list item of a summary section: a link to the heading with the same id string. */
  function EntryLine(name: string, id: seq<int>): string
    requires id != []
  {
    var idStr := IdString(id);
    "<li><a href='#" + idStr + "'>" + idStr + " " + name + "</a></li>\n"
  }

  /** `SummarySection::encode_to` of entry `i`: the nested list only when it has children. */
  function EntryHtml(summary: seq<Entry>, i: nat): string
    requires EntriesForward(summary) && EntriesLabelled(summary) && 0 < i < |summary|
    decreases |summary| - i, 1
  {
    EntryLine(summary[i].name, summary[i].id) +
    if |summary[i].children| != 0 then "<ul>\n" + EntriesHtml(summary, i, |summary[i].children|) + "</ul>\n"
    else ""
  }

  /** `encode_childrens` of summary section `i`, up to (not including) child `k`. */
  function EntriesHtml(summary: seq<Entry>, i: nat, k: nat): string
    requires EntriesForward(summary) && EntriesLabelled(summary) && i < |summary| && k <= |summary[i].children|
    decreases |summary| - i, 0, k
  {
    if k == 0 then "" else EntriesHtml(summary, i, k - 1) + EntryHtml(summary, summary[i].children[k - 1])
  }

  /** `MainSummarySection::encode_to`: the table of contents. */
  function SummaryHtml(summary: seq<Entry>): string
    requires EntriesForward(summary) && EntriesLabelled(summary) && |summary| > 0
  {
    "<div id='summary'>\n<h3>Table des matieres :</h3>\n<ul>\n" + EntriesHtml(summary, 0, |summary[0].children|) +
    "</ul>\n</div>\n"
  }

  // ---------------------------------------------------------------------------
  // The page
  // ---------------------------------------------------------------------------

  /** A child of the `<head>` node: the tab title, which shows the page title's name. */
  datatype HeaderChild = TabTitle(name: string)

  /** A child of the `<body>` node. */
  datatype BodyChild = SummaryBlock | PageTitle(name: string) | PageAuthor(name: string) | MainBody

  function HeaderChildHtml(c: HeaderChild): string {
    "<title>" + c.name + "</title>\n"
  }

  function BodyChildHtml(c: BodyChild, sections: seq<Section>, summary: seq<Entry>): string
    requires Encodable(sections, summary)
  {
    match c
    case SummaryBlock => SummaryHtml(summary)
    case PageTitle(name) => "<h1 id='title'>" + name + "</h1>\n"
    case PageAuthor(name) => "<h3 id='author'>" + name + "</h3>\n"
    case MainBody => MainHtml(sections)
  }

  /** The children of the `<head>` node up to (not including) `k`. */
  function HeaderChildrenHtml(children: seq<HeaderChild>, k: nat): string
    requires k <= |children|
  {
    if k == 0 then "" else HeaderChildrenHtml(children, k - 1) + HeaderChildHtml(children[k - 1])
  }

  /** The children of the `<body>` node up to (not including) `k`. */
  function BodyChildrenHtml(children: seq<BodyChild>, k: nat, sections: seq<Section>, summary: seq<Entry>): string
    requires Encodable(sections, summary) && k <= |children|
  {
    if k == 0 then "" else BodyChildrenHtml(children, k - 1, sections, summary) + BodyChildHtml(children[k - 1], sections, summary)
  }

  /** The fixed part of `HTML_Header::encode_to`, before its children. */
  const HeadOpen := "<head>\n" + "<meta charset='UTF-8'>\n" + "<link rel='stylesheet' href='style.css'>\n"

  /** The fixed part of `HTML::encode_to`, before its children. */
  const PageOpen := "<!DOCTYPE html>\n" + "<html lang='en'>\n"

  /** `HTML::encode_to`: the header node, then the body node. */
  function PageHtml(header: seq<HeaderChild>, body: seq<BodyChild>, sections: seq<Section>, summary: seq<Entry>): string
    requires Encodable(sections, summary)
  {
    PageOpen +
    (HeadOpen + HeaderChildrenHtml(header, |header|) + "</head>\n") +
    ("<body>\n" + BodyChildrenHtml(body, |body|, sections, summary) + "</body>\n") +
    "</html>\n"
  }

  // ---------------------------------------------------------------------------
  // Properties of the text
  // ---------------------------------------------------------------------------

  /**
   * The summary entry of a section links to the anchor of that section's
   * heading: both are the dot-joined id, and both show it before the name.
   */
  lemma LinkTargetsHeading(sections: seq<Section>, summary: seq<Entry>, i: nat)
    requires WellFormed(sections, summary) && 0 < i < |sections|
    ensures sections[i].id != [] && summary[i].id == sections[i].id && summary[i].name == sections[i].name
    ensures var anchor, name, h := Join(sections[i].id), sections[i].name, HeadingTag(sections[i].id);
            Heading(name, sections[i].id) == "<" + h + " id='" + anchor + "'>" + anchor + " " + name + "</" + h + ">" + "\n" &&
            EntryLine(summary[i].name, summary[i].id) == "<li><a href='#" + anchor + "'>" + anchor + " " + name + "</a></li>\n"
  {
    EmptyIdIsMain(sections, summary, i);
    IdStringIsJoin(sections[i].id);
  }

  /** Two different sections never have the same anchor. */
  lemma AnchorsUnique(sections: seq<Section>, summary: seq<Entry>, i: nat, j: nat)
    requires WellFormed(sections, summary) && 0 < i < |sections| && 0 < j < |sections| && i != j
    ensures sections[i].id != [] && sections[j].id != []
    ensures IdString(sections[i].id) != IdString(sections[j].id)
  {
    EmptyIdIsMain(sections, summary, i);
    EmptyIdIsMain(sections, summary, j);
    IdStringIsJoin(sections[i].id);
    IdStringIsJoin(sections[j].id);
    if IdString(sections[i].id) == IdString(sections[j].id) {
      JoinInjective(sections[i].id, sections[j].id);
      IdsDistinct(sections, summary, i, j);
    }
  }

  /** A section's heading tag is two below its depth: top-level sections get `<h3>`. */
  lemma HeadingLevel(sections: seq<Section>, summary: seq<Entry>, i: nat)
    requires WellFormed(sections, summary) && i < |sections|
    ensures HeadingTag(sections[i].id) == "h" + IntToString(Depth(sections, i) + 2)
  {
    IdLengthIsDepth(sections, summary, i);
  }

  /** A summary entry is followed by a nested `<ul>` exactly when it has children. */
  lemma NestedListIffChildren(summary: seq<Entry>, i: nat)
    requires EntriesForward(summary) && EntriesLabelled(summary) && 0 < i < |summary|
    ensures summary[i].children == [] <==> EntryHtml(summary, i) == EntryLine(summary[i].name, summary[i].id)
  {
    var line := EntryLine(summary[i].name, summary[i].id);
    if summary[i].children != [] {
      assert |EntryHtml(summary, i)| > |line|;
    }
  }

  // ---------------------------------------------------------------------------
  // The output stream and the tree walks
  // ---------------------------------------------------------------------------

  /** The output stream: text is only ever appended to it. */
  class Writer {
    var text: string

    constructor ()
      ensures text == ""
    {
      text := "";
    }

    /** `output << s`. */
    method Write(s: string)
      modifies this
      ensures text == old(text) + s
    {
      text := text + s;
    }
  }

  /** `Paragraph::encode_to`. */
  method EncodeParagraph(w: Writer, text: string)
    modifies w
    ensures w.text == old(w.text) + ParagraphHtml(text)
  {
    AppendAssoc(w.text, "<p>\n", text);
    w.Write("<p>\n");
    w.Write(text);
    AppendAssoc(old(w.text), "<p>\n" + text, "</p>\n");
    w.Write("</p>\n");
  }

  /** `BodySection::encode_to` of section `i`. */
  method EncodeSection(w: Writer, sections: seq<Section>, i: nat)
    requires Forward(sections) && Labelled(sections) && 0 < i < |sections|
    modifies w
    ensures w.text == old(w.text) + SectionHtml(sections, i)
    decreases |sections| - i, 2
  {
    var open := "<div class='section'>\n" + Heading(sections[i].name, sections[i].id);
    w.Write(open);
    EncodeChildren(w, sections, i);
    var items := ItemsHtml(sections, i, |sections[i].children|);
    AppendAssoc(old(w.text), open, items);
    w.Write("</div>\n");
    AppendAssoc(old(w.text), open + items, "</div>\n");
  }

  /** `encode_childrens` of body section `i`: each child in order. */
  method EncodeChildren(w: Writer, sections: seq<Section>, i: nat)
    requires Forward(sections) && Labelled(sections) && i < |sections|
    modifies w
    ensures w.text == old(w.text) + ItemsHtml(sections, i, |sections[i].children|)
    decreases |sections| - i, 1
  {
    for k := 0 to |sections[i].children|
      invariant w.text == old(w.text) + ItemsHtml(sections, i, k)
    {
      EncodeItem(w, sections, i, k);
      AppendAssoc(old(w.text), ItemsHtml(sections, i, k), ItemHtml(sections, i, k));
    }
  }

  /** `child->encode_to(output)` for child `c` of body section `i`. */
  method EncodeItem(w: Writer, sections: seq<Section>, i: nat, c: nat)
    requires Forward(sections) && Labelled(sections) && i < |sections| && c < |sections[i].children|
    modifies w
    ensures w.text == old(w.text) + ItemHtml(sections, i, c)
    decreases |sections| - i, 0
  {
    match sections[i].children[c]
    case Para(text) => EncodeParagraph(w, text);
    case Sub(j) => EncodeSection(w, sections, j);
  }

  /** `MainBodySection::encode_to`. */
  method EncodeMain(w: Writer, sections: seq<Section>)
    requires Forward(sections) && Labelled(sections) && |sections| > 0
    modifies w
    ensures w.text == old(w.text) + MainHtml(sections)
  {
    w.Write("<div class='section'>\n");
    EncodeChildren(w, sections, 0);
    AppendAssoc(old(w.text), "<div class='section'>\n", ItemsHtml(sections, 0, |sections[0].children|));
    w.Write("</div>\n");
    AppendAssoc(old(w.text), "<div class='section'>\n" + ItemsHtml(sections, 0, |sections[0].children|), "</div>\n");
  }

  /** `SummarySection::encode_to` of entry `i`. */
  method EncodeEntry(w: Writer, summary: seq<Entry>, i: nat)
    requires EntriesForward(summary) && EntriesLabelled(summary) && 0 < i < |summary|
    modifies w
    ensures w.text == old(w.text) + EntryHtml(summary, i)
    decreases |summary| - i, 1
  {
    var line := EntryLine(summary[i].name, summary[i].id);
    w.Write(line);
    if |summary[i].children| != 0 {
      w.Write("<ul>\n");
      EncodeEntries(w, summary, i);
      var entries := EntriesHtml(summary, i, |summary[i].children|);
      AppendAssoc(old(w.text) + line, "<ul>\n", entries);
      w.Write("</ul>\n");
      AppendAssoc(old(w.text) + line, "<ul>\n" + entries, "</ul>\n");
      AppendAssoc(old(w.text), line, "<ul>\n" + entries + "</ul>\n");
    } else {
      assert line + "" == line;
    }
  }

  /** `encode_childrens` of summary section `i`. */
  method EncodeEntries(w: Writer, summary: seq<Entry>, i: nat)
    requires EntriesForward(summary) && EntriesLabelled(summary) && i < |summary|
    modifies w
    ensures w.text == old(w.text) + EntriesHtml(summary, i, |summary[i].children|)
    decreases |summary| - i, 0
  {
    for k := 0 to |summary[i].children|
      invariant w.text == old(w.text) + EntriesHtml(summary, i, k)
    {
      var child := summary[i].children[k];
      EncodeEntry(w, summary, child);
      assert EntriesHtml(summary, i, k + 1) == EntriesHtml(summary, i, k) + EntryHtml(summary, child);
      AppendAssoc(old(w.text), EntriesHtml(summary, i, k), EntryHtml(summary, child));
    }
  }

  /** `MainSummarySection::encode_to`. */
  method EncodeSummary(w: Writer, summary: seq<Entry>)
    requires EntriesForward(summary) && EntriesLabelled(summary) && |summary| > 0
    modifies w
    ensures w.text == old(w.text) + SummaryHtml(summary)
  {
    var open := "<div id='summary'>\n<h3>Table des matieres :</h3>\n<ul>\n";
    w.Write(open);
    EncodeEntries(w, summary, 0);
    var entries := EntriesHtml(summary, 0, |summary[0].children|);
    AppendAssoc(old(w.text), open, entries);
    w.Write("</ul>\n</div>\n");
    AppendAssoc(old(w.text), open + entries, "</ul>\n</div>\n");
  }

  /** `encode_to` of a child of the `<body>` node. */
  method EncodeBodyChild(w: Writer, c: BodyChild, sections: seq<Section>, summary: seq<Entry>)
    requires Encodable(sections, summary)
    modifies w
    ensures w.text == old(w.text) + BodyChildHtml(c, sections, summary)
  {
    match c
    case SummaryBlock => EncodeSummary(w, summary);
    case PageTitle(name) =>
      w.Write("<h1 id='title'>" + name + "</h1>\n");
    case PageAuthor(name) =>
      w.Write("<h3 id='author'>" + name + "</h3>\n");
    case MainBody => EncodeMain(w, sections);
  }

  /**
   * The root node `HTML`: the children of its `<head>` and `<body>` nodes,
   * and the title and author it was linked with.
   */
  class HtmlRoot {
    var header: seq<HeaderChild>
    var body: seq<BodyChild>
    var title: Option<string>
    var author: Option<string>

    /** A page whose `<head>` and `<body>` nodes are still empty. */
    constructor ()
      ensures header == [] && body == [] && title == None && author == None
    {
      header, body := [], [];
      title, author := None, None;
    }

    /** `add_to_body`: `n` becomes the last child of the `<body>` node. */
    method AddToBody(n: BodyChild)
      modifies this
      ensures body == old(body) + [n]
      ensures header == old(header) && title == old(title) && author == old(author)
    {
      body := body + [n];
    }

    /**
     * `link_page_header`: record the title and author, add the tab title to
     * the `<head>` node and push the summary, the title and the author to
     * the front of the `<body>` node, in reverse order of appearance. Both
     * must exist: the source dereferences them.
     */
    method LinkPageHeader(t: string, a: string)
      modifies this
      ensures title == Some(t) && author == Some(a)
      ensures header == old(header) + [TabTitle(t)]
      ensures body == [SummaryBlock, PageTitle(t), PageAuthor(a)] + old(body)
    {
      title, author := Some(t), Some(a);
      header := header + [TabTitle(t)];
      body := [PageAuthor(a)] + body;
      body := [PageTitle(t)] + body;
      body := [SummaryBlock] + body;
    }

    /** `HTML::encode_to` of the whole page. */
    method EncodeTo(w: Writer, sections: seq<Section>, summary: seq<Entry>)
      requires Encodable(sections, summary)
      modifies w
      ensures w.text == old(w.text) + PageHtml(header, body, sections, summary)
    {
      w.Write(PageOpen);
      var head := EncodeHeader(w, header);
      var bodyText := EncodeBody(w, body, sections, summary);
      w.Write("</html>\n");
      AppendAssoc(old(w.text), PageOpen, head);
      AppendAssoc(old(w.text), PageOpen + head, bodyText);
      AppendAssoc(old(w.text), PageOpen + head + bodyText, "</html>\n");
    }
  }

  /** `HTML_Header::encode_to`; `written` is what it appended. */
  method EncodeHeader(w: Writer, children: seq<HeaderChild>) returns (written: string)
    modifies w
    ensures written == HeadOpen + HeaderChildrenHtml(children, |children|) + "</head>\n"
    ensures w.text == old(w.text) + written
  {
    w.Write(HeadOpen);
    for k := 0 to |children|
      invariant w.text == old(w.text) + HeadOpen + HeaderChildrenHtml(children, k)
    {
      AppendAssoc(old(w.text) + HeadOpen, HeaderChildrenHtml(children, k), HeaderChildHtml(children[k]));
      w.Write(HeaderChildHtml(children[k]));
    }
    w.Write("</head>\n");
    written := HeadOpen + HeaderChildrenHtml(children, |children|) + "</head>\n";
    AppendAssoc(old(w.text), HeadOpen, HeaderChildrenHtml(children, |children|));
    AppendAssoc(old(w.text), HeadOpen + HeaderChildrenHtml(children, |children|), "</head>\n");
  }

  /** `HTML_Body::encode_to`; `written` is what it appended. */
  method EncodeBody(w: Writer, children: seq<BodyChild>, sections: seq<Section>, summary: seq<Entry>) returns (written: string)
    requires Encodable(sections, summary)
    modifies w
    ensures written == "<body>\n" + BodyChildrenHtml(children, |children|, sections, summary) + "</body>\n"
    ensures w.text == old(w.text) + written
  {
    w.Write("<body>\n");
    EncodeBodyChildren(w, children, sections, summary);
    var inner := BodyChildrenHtml(children, |children|, sections, summary);
    w.Write("</body>\n");
    written := "<body>\n" + inner + "</body>\n";
    AppendAssoc(old(w.text), "<body>\n", inner);
    AppendAssoc(old(w.text), "<body>\n" + inner, "</body>\n");
  }

  /** `encode_childrens` of the `<body>` node. */
  method EncodeBodyChildren(w: Writer, children: seq<BodyChild>, sections: seq<Section>, summary: seq<Entry>)
    requires Encodable(sections, summary)
    modifies w
    ensures w.text == old(w.text) + BodyChildrenHtml(children, |children|, sections, summary)
  {
    for k := 0 to |children|
      invariant w.text == old(w.text) + BodyChildrenHtml(children, k, sections, summary)
    {
      EncodeBodyChild(w, children[k], sections, summary);
      BodyChildrenStep(children, k, sections, summary, old(w.text));
    }
  }

  lemma BodyChildrenStep(children: seq<BodyChild>, k: nat, sections: seq<Section>, summary: seq<Entry>, start: string)
    requires Encodable(sections, summary) && k < |children|
    ensures start + BodyChildrenHtml(children, k, sections, summary) + BodyChildHtml(children[k], sections, summary) ==
            start + BodyChildrenHtml(children, k + 1, sections, summary)
  {
    AppendAssoc(start, BodyChildrenHtml(children, k, sections, summary), BodyChildHtml(children[k], sections, summary));
  }
}
