# Lithium, modelled in Dafny

Lithium compiles a line-oriented markup into one HTML page. It reads its
input one character at a time through a reader that tracks the line and
column. Each line is one of four kinds:

- a blank line, which is skipped;
- a `>` command line: `>Titre <title>` or `>Auteur <author>`;
- a section header: a run of `=` whose length is the nesting level, a space, then the name;
- a paragraph line: any other first character.

While it reads, Lithium builds two trees:

- the body tree holds the sections, each with its paragraphs;
- the summary tree mirrors the body's sections and becomes the table of contents.

Each section gets a dotted number. The parent of a new section is found by comparing the new level with the current one: one deeper, the same, or one shallower. At the end the page header is linked and the page is validated: a title and an author are required. The tree is then encoded as HTML.

The model is in Dafny and follows the program's structure:

| module | file | what it holds |
|---|---|---|
| `Common` | `common.dfy` | `Option`, `Result`, one sequence lemma |
| `Numbers` | `numbers.dfy` | `to_string` on integers, with its injectivity |
| `Reader` | `reader.dfy` | the reader (`InputFacade`): its counters as a class, `get`, `get(delimiter)`, `get_pos`, and their pure counterparts over a cursor |
| `Tree` | `tree.dfy` | sections and summary entries as two arenas (index 0 is the main section), `push_back_child`, id editing, `get_id_str`, `get_h` |
| `Errors` | `errors.dfy` | `CompilingError` and `ValidationError` and their `what()` |
| `Parser` | `parser.dfy` | one iteration of the main loop of `compile` as pure functions, the loop invariant, and its preservation |
| `Structure` | `structure.dfy` | what the numbering rule guarantees about the finished tree |
| `Rules` | `rules.dfy` | the rule for each kind of line, stated outright |
| `Tokenizer` | `tokenizer.dfy` | the main loop as it runs: the level loop, the paragraph do-while, and the locals of `compile` as the fields of a class; each proved equal to `Parser` |
| `Html` | `html.dfy` | every `encode_to` as a text function and as a tree walk that appends to an output stream; anchors, heading levels and nested lists |
| `Compiler` | `compiler.dfy` | `compile` itself, its order of linking and validation, and the finding below |

The source keeps the trees as objects linked by pointers. The model keeps
them in two sequences that are indexed by position. A section's parent is
an index, and its section children are the indices listed among its
items. The loop invariant `Parser.Inv` says what the pointers guarantee in
the source:

- every parent comes before its child;
- the k-th section child of a section is numbered with the parent's id followed by k + 1;
- the summary tree has the same shape as the body tree;
- the current section is the last one opened, and its id has as many numbers as the current level.

Where the program's description and its code disagree, the model follows the code:

- The lines of a paragraph are joined with nothing between them, because `text += buffer` adds no newline.
- A second `>Titre` or `>Auteur` line replaces the first one, without an error.
- The summary is a second tree, built in step with the body tree.
- The main section is still wrapped in `<div class='section'>`.
- A page with no title or no author does not raise the validation error. It crashes first (see Findings).
- A command written `> Titre <text>`, with a space after `>`, is an error. `get(' ')` stops at that space, so the keyword is empty and the error is "Unknown >command ''" at (1, 2) on a first line. Only `>Titre <text>` sets the title.
- A level change of more than one is reported before the section name is read, at the position just after the space (Lithium.cpp:545-550).
- A paragraph whose first line is a single character ends after that line, because the first `get('\n')` returns an empty string. So `a` followed by `bcd` on the next line gives two paragraphs.
- A paragraph whose first line has two or more characters continues over every following non-empty line. So a header or command line directly after such a line is absorbed into the paragraph's text.

## Model

| member | source | states |
|---|---|---|
| `Reader.CountersAfter` | Lithium.cpp:68-88 | after reading a prefix, `lines_read` is the number of newlines in it, and `chars_since_line_start` counts exactly the characters after its last newline |
| `Reader.PositionAtStart` | Lithium.cpp:41-50 | before anything is read, the position reported is (0, 0) |
| `Reader.PositionOfLastConsumed` | Lithium.cpp:41-50 | `get_pos` reports the last consumed character: its line is one more than the newlines before it, and its column counts from the start of its line up to it |
| `Reader.Position` | Lithium.cpp:41-50 | `get_pos` on the counters, with its column-0 rule; `PositionOfLastConsumed` pins it to the last consumed character and `PositionAtStart` to (0, 0) before any read |
| `Reader.Advance` | Lithium.cpp:78-85 | the counter update of `get()`; `CountersAfter` proves that repeated updates count the newlines and the characters since the last one |
| `Reader.NextChar` | Lithium.cpp:68-88 | `get()` returns the next character and consumes it; at end of input it returns nothing and consumes nothing |
| `Reader.ReadUntil` | Lithium.cpp:91-101 | `get(delimiter)` returns the input before the first delimiter or before the end of input; the result never contains the delimiter, and the delimiter is consumed when it is found |
| `Reader.InputFacade.constructor` | Lithium.cpp:35-38 | a fresh reader is at the start of its input with zeroed counters |
| `Reader.InputFacade.GetPos` | Lithium.cpp:41-50 | the position computed from the three counters is the position of the consumed prefix |
| `Reader.InputFacade.Get` | Lithium.cpp:68-88 | reads like `NextChar`; a newline increments `lines_read`, saves the line length and resets the column; any other character increments the column; the counters keep describing the consumed prefix |
| `Reader.InputFacade.GetUntil` | Lithium.cpp:91-101 | its loop returns exactly what `ReadUntil` describes and leaves the reader where `ReadUntil` does |
| `Numbers.IntToString` | Lithium.cpp:119 | `to_string` gives a non-empty string with no dot: digits for a non-negative number, a leading `-` otherwise |
| `Numbers.IntToStringInjective` | Lithium.cpp:119 | different integers give different strings |
| `Numbers.IntToStringNumeral` | Lithium.cpp:119 | a rendered integer holds only digits and a minus sign, so it never contains the `,` that separates line and column |
| `Errors.RaiseAt` | Lithium.cpp:111-115 | a compiling error carries its reason and the reader's `get_pos` at the moment it is raised |
| `Errors.What` | Lithium.cpp:117-120 | a compiling error's message is its reason, ` at (`, the line, `, `, the column and `)`; a validation error's message is its reason alone (lines 133-136) |
| `Errors.WhatDeterminesPosition` | Lithium.cpp:117-120 | two compiling errors with the same reason and the same message were raised at the same line and column |
| `Tree.PushBackChild` | Lithium.cpp:191-195 | the item becomes the last child of section `p`; nothing else in the arena changes |
| `Tree.AttachSection` | Lithium.cpp:553-584 | a new body section, with its name, id, parent and no children, is added at the end of the arena and becomes the last child of its parent; every other section is unchanged |
| `Tree.AttachEntry` | Lithium.cpp:554-585 | the same for the summary tree |
| `Tree.IncrementLast` | Lithium.cpp:572 | `id.back()++`: same length, same prefix, last number one more |
| `Tree.IncrementLastOf` | Lithium.cpp:572 | incrementing `base + [k]` gives `base + [k + 1]` |
| `Tree.Dotted` | Lithium.cpp:231-233 | the loop's string ends with the dot that `pop_back` removes |
| `Tree.DottedIsJoin` | Lithium.cpp:227-236 | the loop's string is the dot-joined id followed by one dot |
| `Tree.IdStringIsJoin` | Lithium.cpp:227-236 | `get_id_str` is the id's numbers joined with dots |
| `Tree.IdString` | Lithium.cpp:227-236 | `get_id_str`, equal to the dot-join `Join` by `IdStringIsJoin`, and injective by `JoinInjective` |
| `Tree.HeadingTag` | Lithium.cpp:240-242 | `get_h`, shown by `Html.HeadingLevel` to be `h` followed by the section's depth plus two |
| `Tree.JoinInjective` | Lithium.cpp:227-236 | two different non-empty ids never give the same id string |
| `Parser.ChildId` | Lithium.cpp:557-585 | a section's id is its parent's id with one more number |
| `Parser.EmptyIdIsMain` | Lithium.cpp:557-585 | only the main section has an empty id |
| `Parser.CountLevel` | Lithium.cpp:535-538 | the level is the length of the run of `=`; the character that ends the run, if any, is returned and consumed; at end of input there is none |
| `Parser.ReadParagraph` | Lithium.cpp:597-601 | the do-while only moves the reader forward, over the same input |
| `Parser.ParagraphText` | Lithium.cpp:593-601 | the paragraph's text is its first character followed by the consumed input with its newlines removed |
| `Parser.ParagraphEnd` | Lithium.cpp:597-601 | a paragraph ends at the end of input or at an empty line: a newline that is the first consumed character or that follows another newline |
| `Parser.ParagraphEndsAtFirstEmptyLine` | Lithium.cpp:597-601 | the paragraph stops at the first empty line: every newline it consumes before the last one closes a non-empty line |
| `Parser.Command` | Lithium.cpp:520-531 | a `>` line keeps the loop invariant and moves the reader forward; its only error is a compiling error |
| `Parser.OpenSection` | Lithium.cpp:552-590 | a new section with the given name and level becomes current in both trees and keeps the invariant; the reader, title and author are unchanged |
| `Parser.OpenDeeper` | Lithium.cpp:559-565 | a deeper section becomes the first and only section child of the current section in both trees, with the current id followed by 1; the level goes up by one and every other section is unchanged |
| `Parser.OpenSibling` | Lithium.cpp:574-581 | a section at the same level becomes the last child of the current section's parent in both trees, with the current id's last number incremented; the level is unchanged and every other section is unchanged |
| `Parser.OpenShallower` | Lithium.cpp:566-573 | a shallower section becomes the last child of the current section's grandparent in both trees, with the current id's last number dropped and the new last number incremented; the level goes down by one and every other section is unchanged |
| `Parser.Attach` | Lithium.cpp:552-590 | the new section, with its name, id and parent, is appended to both trees, listed last among its parent's children and made current at the given level; every other section and entry, the reader, the title and the author are unchanged |
| `Parser.Header` | Lithium.cpp:533-591 | a header line keeps the invariant and moves the reader forward; it fails only with a compiling error |
| `Parser.AddParagraph` | Lithium.cpp:592-605 | a paragraph keeps the invariant and moves the reader forward |
| `Parser.ProcessLine` | Lithium.cpp:512-605 | one iteration of the main loop keeps the invariant, moves the reader forward, and fails only with a compiling error |
| `Parser.Run` | Lithium.cpp:511-606 | the main loop either fails with a compiling error or consumes the whole input, with the invariant still holding |
| `Parser.InitialInv` | Lithium.cpp:493-503 | the state before the first line (only the two main sections, level 0) satisfies the invariant |
| `Parser.Parse` | Lithium.cpp:486-606 | tokenizing a whole input ends with the reader at its end and well-formed trees, or with a compiling error |
| `Parser.AttachKeepsInv` | Lithium.cpp:559-565 | attaching a section below the current one keeps the invariant |
| `Parser.SiblingStep` | Lithium.cpp:574-581 | attaching a sibling with the last number incremented keeps the invariant |
| `Parser.ShallowerStep` | Lithium.cpp:566-573 | attaching below the grandparent, with the last number dropped and the new last number incremented, keeps the invariant |
| `Parser.SameLevelFacts` | Lithium.cpp:576-580 | at the same level the current section has a parent in both trees and a non-empty id, so `get_parent()` and `id.back()` are defined |
| `Parser.ShallowerFacts` | Lithium.cpp:567-572 | going shallower, the current section has a grandparent in both trees and an id with at least two numbers |
| `Parser.ParagraphKeepsInv` | Lithium.cpp:603-604 | appending a paragraph to the current section keeps the invariant |
| `Structure.IdLengthIsDepth` | Lithium.cpp:557-585 | a section's id has one number per level of nesting |
| `Structure.CurrentDepthIsLevel` | Lithium.cpp:590 | the current section is nested as deep as `current_s_lvl` |
| `Structure.SiblingsCountUp` | Lithium.cpp:559-581 | the section children of a section are numbered 1, 2, 3, … in order, each one after its parent's id |
| `Structure.IdsDistinct` | Lithium.cpp:557-585 | no two sections have the same id |
| `Structure.ListedOnce` | Lithium.cpp:552-590 | each section but main occurs exactly once among all the children of the body tree and exactly once among all the children of the summary tree, under its parent in both; so, with `AnchorsUnique`, each summary link names the anchor of exactly one section |
| `Rules.CommandRule` | Lithium.cpp:520-531 | `Titre` and `Auteur` store the rest of the line, replacing any earlier value, and change nothing else; any other keyword raises "Unknown >command '…'" at the position just after the keyword |
| `Rules.HeaderRule` | Lithium.cpp:533-550 | after the run of `=`, a missing space (end of input included) raises the separator error, a level change greater than one raises the indentation error, both at the position after the run; otherwise the rest of the line is the name of the new section |
| `Rules.ParagraphRule` | Lithium.cpp:592-605 | the paragraph's text is appended as the last child of the current body section; the summary, the cursors, the title and the author are unchanged |
| `Tokenizer.ReadLevel` | Lithium.cpp:535-538 | the level loop computes exactly `CountLevel` |
| `Tokenizer.ReadParagraphText` | Lithium.cpp:593-601 | the do-while loop computes exactly `ReadParagraph` |
| `Tokenizer.RaiseHere` | Lithium.cpp:111-115 | the error is built from the reader's counters, at the position `RaiseAt` gives |
| `Tokenizer.CompileState.constructor` | Lithium.cpp:487-503 | the locals of `compile` start as the initial parser state, which satisfies the invariant |
| `Tokenizer.CompileState.CommandLine` | Lithium.cpp:520-531 | a `>` line updates the locals exactly as `Command` does, or returns its error |
| `Tokenizer.CompileState.HeaderLine` | Lithium.cpp:533-591 | a `=` line updates the locals exactly as `Header` does, or returns its error |
| `Tokenizer.SectionPlace` | Lithium.cpp:557-581 | the parent in each tree and the edited copy of the current id are the ones `OpenSection` attaches with |
| `Tokenizer.CompileState.OpenSectionHere` | Lithium.cpp:552-590 | creating, attaching and making current a new section gives `OpenSection` and keeps the invariant |
| `Tokenizer.CompileState.ParagraphLine` | Lithium.cpp:592-605 | a paragraph line updates the locals exactly as `AddParagraph` does |
| `Tokenizer.CompileState.Run` | Lithium.cpp:511-606 | the main loop returns the state or the error that `Parser.Run` describes |
| `Tokenizer.Tokenize` | Lithium.cpp:486-606 | tokenizing an input gives `Parse` of it |
| `Html.WellFormedEncodable` | Lithium.cpp:245-281 | the trees the main loop builds can be encoded: children come later in the arena, and every section but main has an id for `get_id_str` |
| `Html.LinkTargetsHeading` | Lithium.cpp:245-281 | a summary entry and its body section have the same name and id; the heading's anchor and the entry's link target are the same dot-joined id, and both show it before the name |
| `Html.AnchorsUnique` | Lithium.cpp:245-281 | two different sections never have the same anchor |
| `Html.HeadingLevel` | Lithium.cpp:240-242 | a section's heading tag is `h` followed by its depth plus two: top-level sections get `h3` |
| `Html.NestedListIffChildren` | Lithium.cpp:271-281 | a summary entry is followed by a nested `<ul>` exactly when it has children |
| `Html.ParagraphHtml` | Lithium.cpp:336-339 | `Paragraph::encode_to`; `EncodeParagraph` appends exactly this text |
| `Html.Heading` | Lithium.cpp:249-252 | the heading line of a section; `LinkTargetsHeading` shows its anchor is the dot-joined id that the summary links to, and `HeadingLevel` fixes its tag |
| `Html.SectionHtml` | Lithium.cpp:245-257 | `BodySection::encode_to`; `EncodeSection` appends exactly this text |
| `Html.MainHtml` | Lithium.cpp:298-303 | `MainBodySection::encode_to`; `EncodeMain` appends exactly this text |
| `Html.EntryLine` | Lithium.cpp:273-274 | the link line of a summary entry; `LinkTargetsHeading` shows it targets the heading of the same section, and `AnchorsUnique` that no other section has the same anchor |
| `Html.EntryHtml` | Lithium.cpp:271-281 | `SummarySection::encode_to`; `NestedListIffChildren` shows the nested list appears exactly when there are children, and `EncodeEntry` appends exactly this text |
| `Html.SummaryHtml` | Lithium.cpp:318-322 | `MainSummarySection::encode_to`; `EncodeSummary` appends exactly this text |
| `Html.PageHtml` | Lithium.cpp:443-449 | `HTML::encode_to`; `HtmlRoot.EncodeTo` appends exactly this text, and `Compiler.RenderLayout` spells out the page `compile` writes |
| `Html.Writer.Write` | Lithium.cpp:245-257 | the output stream only grows: writing appends the text |
| `Html.EncodeParagraph` | Lithium.cpp:336-339 | appends the paragraph's `<p>` block |
| `Html.EncodeSection` | Lithium.cpp:245-257 | appends a section's `div`, its heading, and the encoding of its children in order |
| `Html.EncodeChildren` | Lithium.cpp:169-175 | the loop over a body section's children appends each child's encoding in order |
| `Html.EncodeItem` | Lithium.cpp:171-173 | appends the encoding of one child: a paragraph or a sub-section |
| `Html.EncodeMain` | Lithium.cpp:298-303 | appends the main section's `div` with its children and no heading |
| `Html.EncodeEntry` | Lithium.cpp:271-281 | appends a summary entry's link line and, only when it has children, a nested list of them |
| `Html.EncodeEntries` | Lithium.cpp:169-175 | the loop over a summary entry's children appends each child's encoding in order |
| `Html.EncodeSummary` | Lithium.cpp:318-322 | appends the summary block: its heading and the list of top-level entries |
| `Html.HeaderChildHtml` | Lithium.cpp:389-392 | `TabTitle::encode_to`, the page title's name inside `<title>`; `EncodeHeader` appends exactly this text for each child of `<head>` |
| `Html.BodyChildHtml` | Lithium.cpp:352-376 | `PageAuthor::encode_to` and `PageTitle::encode_to` (the name inside `<h3 id='author'>` and `<h1 id='title'>`), or the summary or main section; `EncodeBodyChild` appends exactly this text |
| `Html.EncodeBodyChild` | Lithium.cpp:171-173 | appends one child of `<body>`: the summary, the title, the author or the main section |
| `Html.HtmlRoot.constructor` | Lithium.cpp:434-441 | a new page has an empty head, an empty body, and no title or author |
| `Html.HtmlRoot.AddToBody` | Lithium.cpp:466-469 | appends a child to the body; the head, title and author are unchanged |
| `Html.HtmlRoot.LinkPageHeader` | Lithium.cpp:452-463 | records the title and author, appends the tab title to the head, and puts the summary, the title and the author before the body's existing children in that order |
| `Html.HtmlRoot.EncodeTo` | Lithium.cpp:443-449 | appends the doctype, the `<html>` element, the head, the body and the closing tag |
| `Html.EncodeHeader` | Lithium.cpp:415-422 | appends the `<head>` element: the meta and stylesheet lines, then each child |
| `Html.EncodeBody` | Lithium.cpp:401-406 | appends the `<body>` element with each child in order |
| `Html.EncodeBodyChildren` | Lithium.cpp:169-175 | the loop over the body's children appends each one's encoding in order |
| `Compiler.LinkedPage` | Lithium.cpp:452-463 | the `<head>` and `<body>` children of a page that held only the main section, once its header is linked; `HtmlRoot.LinkPageHeader` and `LinkFromFreshPage` show linking produces exactly these |
| `Compiler.Render` | Lithium.cpp:609-617 | the page text `compile` writes for a title, an author and the two trees; `RenderLayout` spells it out and `WritePage` writes exactly it |
| `Compiler.Validate` | Lithium.cpp:471-481 | validation succeeds exactly when there is both a title and an author; otherwise it is "Title not found" when the title is missing (whatever the author) and "Author not found" when only the author is missing |
| `Compiler.LinkAsWritten` | Lithium.cpp:452-463 | linking succeeds exactly when there is both a title and an author; `push_front_child` on a missing one dereferences null |
| `Compiler.OutputOutcome` | Lithium.cpp:609-617 | with validation before linking, compiling succeeds exactly when tokenizing succeeds with a title and an author; "Title not found" exactly when the title is missing; "Author not found" exactly when only the author is missing; tokenizing errors pass through |
| `Compiler.RenderLayout` | Lithium.cpp:443-463 | the page is the doctype, then a head with the tab title, then a body holding the summary, the title, the author and the main section, in that order |
| `Compiler.AsWrittenCrashesInsteadOfValidating` | Lithium.cpp:609-613 | as written, `compile` crashes exactly when validation should have failed, and otherwise does what the corrected order does |
| `Compiler.EmptyInputCrashes` | Lithium.cpp:609-613 | the empty input crashes as written, where "Title not found" was meant |
| `Compiler.CompileAsWritten` | Lithium.cpp:609-617 | `compile` as written, linking before validating; by `AsWrittenCrashesInsteadOfValidating` it crashes exactly where `Output` reports a validation error, and otherwise agrees with `Output` |
| `Compiler.Output` | Lithium.cpp:484-620 | `compile` with validation before linking; `OutputOutcome` gives its success and error cases, `RenderLayout` its page, and `Compile` computes it |
| `Compiler.WritePage` | Lithium.cpp:609-617 | building the page root with the main section, linking the header and encoding writes exactly `Render` |
| `Compiler.Compile` | Lithium.cpp:484-620 | `compile` with validation before linking returns exactly `Output`: the page text, or the first error |

## Left out

- `main` (Lithium.cpp:622-658): argument checking, file opening and error printing are I/O. The input is a character sequence, and the output is the `Writer`'s text.
- The `cout` progress messages, `debug_pos` and `c_to_string` only log, so they are not modelled.
- Memory: the destructor, leaked nodes and pointer aliasing are not modelled. Nodes are values in an arena and are referred to by index. The `parent` field that `MainBodySection` redeclares (line 286) is never read, so it is left out.
- Exceptions are modelled as `Result` and `Error` values. The null dereference in `link_page_header` is the `Crashed` outcome.
- Integer width: the reader's counters and the numbers in section ids are unbounded. The source's `int` would overflow past 2^31 - 1 lines, columns or sections.
- The input is a sequence of characters, not bytes. `EOF` is modelled as `None`. So the `(char)result != ' '` test at end of input is "no character".
- `TabTitle` keeps a copy of the title's name instead of a pointer to the `PageTitle` node. Nothing changes the title after linking, so the text is the same.
- `Writer` keeps the concatenated text, not the separate `<<` fragments.
- `Compiler.Compile` creates the page root after tokenizing rather than before. The tokenizing loop never touches the root, so the output is the same.
- `TreeNode::validate` and `validate_childrens` (Lithium.cpp:177-188): the only override that checks anything is `HTML::validate`, which is modelled as `Compiler.Validate`. The recursive walk does nothing else.
- The generic `TreeNode::encode_to` (lines 163-166) is only reached through the overrides, and each override is modelled.
- Html.MainHtml: the heading of each section appearing exactly once in the page is stated on the trees (`Structure.ListedOnce` and `Html.AnchorsUnique`). It is not stated as a count of occurrences in the page text.

## Findings

| source | as written | input that shows it | evidently intended | confidence | as-written member | corrected member |
|---|---|---|---|---|---|---|
| Lithium.cpp:609-613 (with 452-463 and 198-202) | `compile` links the page header before it validates. `link_page_header` calls `push_front_child` on the title and author pointers, which write `child->parent`. So a missing title or author dereferences null before `validate` can raise its error. | the empty input `""` (no `>Titre` line) | raise `ValidationError("Title not found")`, or "Author not found" when only the author is missing | not executed | `Compiler.CompileAsWritten`, `Compiler.EmptyInputCrashes`, `Compiler.AsWrittenCrashesInsteadOfValidating` | `Compiler.OutputOutcome`, `Compiler.Compile` |
