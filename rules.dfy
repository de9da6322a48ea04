/**
 * The rules each kind of line follows in `compile`, stated about one
 * iteration of the main loop: metadata lines, section headers and their
 * numbering, and paragraphs.
 */
module Rules {
  import opened Common
  import opened Reader
  import opened Tree
  import opened Errors
  import opened Parser

  /**
   * A `>` line: `Titre` and `Auteur` store the rest of the line, replacing
   * any earlier value, and change nothing else; any other keyword is an
   * error naming it, at the position after the keyword.
   */
  lemma CommandRule(s: State)
    requires Inv(s)
    ensures var (keyword, r1) := ReadUntil(s.reader, ' ');
            var (value, r2) := ReadUntil(r1, '\n');
            && (keyword == "Titre" ==> Command(s) == Ok(s.(reader := r2, title := Some(value))))
            && (keyword == "Auteur" ==> Command(s) == Ok(s.(reader := r2, author := Some(value))))
            && (keyword != "Titre" && keyword != "Auteur" ==>
                  Command(s) == Err(CompilingError("Unknown >command '" + keyword + "'", PositionOf(r1).line, PositionOf(r1).col)))
  {
  }

  /**
   * A `=` line: after the run of `=` that `CountLevel` reads, the run must
   * be followed by a space (end of input is not one), and the level may
   * differ from the current one by at most one. Both errors are reported
   * after the character that ends the run; otherwise the rest of the line
   * names the new section.
   */
  lemma HeaderRule(s: State)
    requires Inv(s)
    ensures var (level, after, r1) := CountLevel(s.reader, 1);
            && (after != Some(' ') ==> Header(s) == Err(RaiseAt(MissingSpace, r1)))
            && (after == Some(' ') && Abs(level - s.level) > 1 ==> Header(s) == Err(RaiseAt(IndentJump, r1)))
            && (after == Some(' ') && Abs(level - s.level) <= 1 ==>
                  var (name, r2) := ReadUntil(r1, '\n');
                  Header(s) == Ok(OpenSection(s.(reader := r2), name, level)))
  {
  }

  /**
   * A paragraph: its text is the leading character followed by the rest of
   * the consumed lines with their newlines removed; it becomes the last
   * child of the current body section, and nothing else changes.
   */
  lemma ParagraphRule(s: State, c: char)
    requires Inv(s)
    ensures var r := AddParagraph(s, c);
            var cur := s.currentBody;
            var consumed := s.reader.input[s.reader.next..r.reader.next];
            var text := [c] + WithoutNewlines(consumed);
            && |r.sections| == |s.sections|
            && r.sections[cur].children == s.sections[cur].children + [Para(text)]
            && (forall q :: 0 <= q < |s.sections| && q != cur ==> r.sections[q] == s.sections[q])
            && r.summary == s.summary && r.currentBody == cur && r.level == s.level
            && r.title == s.title && r.author == s.author
  {
    ParagraphText(s.reader, [c]);
  }
}
