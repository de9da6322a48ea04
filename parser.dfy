/**
 * The tokenizer/parser loop of `compile`, stated as pure functions over a
 * parser state: one call of `ProcessLine` is one iteration of the main loop
 * after its leading character was read, and `Run` is the whole loop.
 *
 * The state holds the reader, the two arenas (body tree and summary tree),
 * the two cursors `current_body_s` / `current_sum_s` and `current_s_lvl`,
 * and the title and author read so far.
 */
module Parser {
  import opened Common
  import opened Reader
  import opened Tree
  import opened Errors

  const UnknownCommand := "Unknown >command '"
  const MissingSpace := "Section equals and name needs to be separated by a space character"
  const IndentJump := "More than one identation level change is not allowed"

  datatype State = State(
    reader: Cursor,
    sections: seq<Section>,
    summary: seq<Entry>,
    currentBody: nat,
    currentSummary: nat,
    level: nat,
    title: Option<string>,
    author: Option<string>)

  /** The state before the first character is read: only the two main sections exist. */
  function Initial(input: seq<char>): State {
    State(Cursor(input, 0),
          [Section("main", [], None, [])],
          [Entry("MainSummarySection", [], None, [])],
          0, 0, 0, None, None)
  }

  function Abs(x: int): nat {
    if x < 0 then -x else x
  }

  // ---------------------------------------------------------------------------
  // Invariants of the two trees and the cursors
  // ---------------------------------------------------------------------------

  /** Index 0 is the main section of each tree: no parent, empty id. */
  ghost predicate Rooted(sections: seq<Section>, summary: seq<Entry>) {
    |sections| > 0 && |summary| == |sections| &&
    sections[0].parent.None? && sections[0].id == [] &&
    summary[0].parent.None? && summary[0].id == []
  }

  /** Every other section has an earlier parent, among whose section children it is listed. */
  ghost predicate ParentLinks(sections: seq<Section>) {
    forall i :: 0 < i < |sections| ==>
      sections[i].parent.Some? && sections[i].parent.value < i &&
      i in Subs(sections[sections[i].parent.value].children)
  }

  /**
   * The k-th section child of `p` is a later section whose parent is `p` and
   * whose id is `p`'s id followed by k + 1: sibling numbers count 1, 2, 3, ...
   */
  ghost predicate Numbered(sections: seq<Section>) {
    forall p, k :: 0 <= p < |sections| && 0 <= k < |Subs(sections[p].children)| ==>
      var j := Subs(sections[p].children)[k];
      p < j < |sections| && sections[j].parent == Some(p) && sections[j].id == sections[p].id + [k + 1]
  }

  /** The summary tree is the section skeleton of the body tree: same ids, parents, names and section children. */
  ghost predicate Mirrored(sections: seq<Section>, summary: seq<Entry>) {
    |summary| == |sections| &&
    forall i :: 0 <= i < |sections| ==>
      summary[i].parent == sections[i].parent && summary[i].id == sections[i].id &&
      summary[i].children == Subs(sections[i].children) &&
      (i > 0 ==> summary[i].name == sections[i].name)
  }

  /** The shape of both trees. */
  ghost predicate WellFormed(sections: seq<Section>, summary: seq<Entry>) {
    Rooted(sections, summary) && ParentLinks(sections) && Numbered(sections) && Mirrored(sections, summary)
  }

  /** Section `i` and its ancestors are each the last section child of their parent. */
  ghost predicate Open(sections: seq<Section>, i: nat)
    requires ParentLinks(sections) && i < |sections|
    decreases i
  {
    i == 0 ||
    var p := sections[i].parent.value;
    var subs := Subs(sections[p].children);
    |subs| > 0 && subs[|subs| - 1] == i && Open(sections, p)
  }

  /**
   * The invariant of the main loop: the trees are well formed, both cursors
   * name the same, most recently opened section, whose id length is the
   * current level, and which has no section child yet.
   */
  ghost predicate Inv(s: State) {
    InRange(s.reader) &&
    WellFormed(s.sections, s.summary) &&
    s.currentBody == s.currentSummary && s.currentBody < |s.sections| &&
    |s.sections[s.currentBody].id| == s.level &&
    Subs(s.sections[s.currentBody].children) == [] &&
    Open(s.sections, s.currentBody)
  }

  /** A section's id extends its parent's by one component. */
  lemma ChildId(sections: seq<Section>, i: nat)
    requires ParentLinks(sections) && Numbered(sections) && 0 < i < |sections|
    ensures var p := sections[i].parent.value;
            |sections[i].id| == |sections[p].id| + 1 &&
            sections[i].id[..|sections[p].id|] == sections[p].id
  {
    var p := sections[i].parent.value;
    var subs := Subs(sections[p].children);
    var k :| 0 <= k < |subs| && subs[k] == i;
    assert sections[i].id == sections[p].id + [k + 1];
  }

  /** Only the main section has an empty id. */
  lemma {:induction false} EmptyIdIsMain(sections: seq<Section>, summary: seq<Entry>, i: nat)
    requires WellFormed(sections, summary) && i < |sections|
    ensures sections[i].id == [] <==> i == 0
  {
    if i > 0 {
      ChildId(sections, i);
    }
  }

  // ---------------------------------------------------------------------------
  // Reading the parts of a line
  // ---------------------------------------------------------------------------

  /**
   * The level loop of a section header: `level` counts the `=` read so far;
   * the run continues while `get()` returns `=`. The result is the level,
   * the character that ended the run (`None` at end of input) and the
   * reader after it.
   */
  function CountLevel(r: Cursor, level: nat): (res: (nat, Option<char>, Cursor))
    requires InRange(r)
    ensures InRange(res.2) && res.2.input == r.input
    ensures var run := res.0 - level;
            res.0 >= level && r.next + run <= |r.input| &&
            (forall k :: r.next <= k < r.next + run ==> r.input[k] == '=') &&
            (res.1.None? ==> res.2.next == r.next + run == |r.input|) &&
            (res.1.Some? ==> res.2.next == r.next + run + 1 && res.1.value == r.input[r.next + run] && res.1.value != '=')
    decreases |r.input| - r.next
  {
    var (ch, r1) := NextChar(r);
    if ch == Some('=') then CountLevel(r1, level + 1) else (level, ch, r1)
  }

  /** `s` with its newline characters removed. */
  function WithoutNewlines(s: seq<char>): (r: seq<char>)
    ensures |r| <= |s|
  {
    if s == [] then [] else (if s[0] == '\n' then [] else [s[0]]) + WithoutNewlines(s[1..])
  }

  lemma {:induction false} WithoutNewlinesAppend(a: seq<char>, b: seq<char>)
    ensures WithoutNewlines(a + b) == WithoutNewlines(a) + WithoutNewlines(b)
  {
    if a == [] {
      assert a + b == b;
    } else {
      assert (a + b)[1..] == a[1..] + b;
      WithoutNewlinesAppend(a[1..], b);
    }
  }

  lemma {:induction false} WithoutNewlinesKeeps(s: seq<char>)
    requires '\n' !in s
    ensures WithoutNewlines(s) == s
  {
    if s != [] {
      WithoutNewlinesKeeps(s[1..]);
    }
  }

  /**
   * The paragraph loop: append line reads to `text` until a read is empty.
   * `ParagraphText` states what it collects and where it stops.
   */
  function ReadParagraph(r: Cursor, text: string): (res: (string, Cursor))
    requires InRange(r)
    ensures InRange(res.1) && res.1.input == r.input && r.next <= res.1.next
    decreases |r.input| - r.next
  {
    var (buffer, r1) := ReadUntil(r, '\n');
    if buffer == [] then (text + buffer, r1) else ReadParagraph(r1, text + buffer)
  }

  /** The paragraph is `text` followed by the consumed input with its newlines removed. */
  lemma {:induction false} ParagraphText(r: Cursor, text: string)
    requires InRange(r)
    ensures var res := ReadParagraph(r, text);
            res.0 == text + WithoutNewlines(r.input[r.next..res.1.next])
    decreases |r.input| - r.next
  {
    var (buffer, r1) := ReadUntil(r, '\n');
    if buffer != [] {
      ParagraphText(r1, text + buffer);
      ParagraphTextStep(r, text);
    } else {
      ReadLineConsumed(r, '\n');
      assert text + buffer == text;
    }
  }

  /** One line read of `ParagraphText`: the line's text is followed by the rest of the paragraph. */
  lemma ParagraphTextStep(r: Cursor, text: string)
    requires InRange(r)
    requires var (buffer, r1) := ReadUntil(r, '\n');
             var res := ReadParagraph(r1, text + buffer);
             buffer != [] && res.0 == (text + buffer) + WithoutNewlines(r.input[r1.next..res.1.next])
    ensures var res := ReadParagraph(r, text);
            res.0 == text + WithoutNewlines(r.input[r.next..res.1.next])
  {
    var (buffer, r1) := ReadUntil(r, '\n');
    var res := ReadParagraph(r1, text + buffer);
    assert ReadParagraph(r, text) == res;
    ReadLineConsumed(r, '\n');
    ConsumedInTwo(r.input, r.next, r1.next, res.1.next, text, buffer, res.0);
  }

  /** Text collected over `input[a..b]` and then over `input[b..c]` is the text of `input[a..c]`. */
  lemma ConsumedInTwo(input: seq<char>, a: nat, b: nat, c: nat, text: string, buffer: string, collected: string)
    requires a <= b <= c <= |input|
    requires WithoutNewlines(input[a..b]) == buffer
    requires collected == (text + buffer) + WithoutNewlines(input[b..c])
    ensures collected == text + WithoutNewlines(input[a..c])
  {
    var x, y := input[a..b], input[b..c];
    assert input[a..c] == x + y;
    WithoutNewlinesAppend(x, y);
    AppendAssoc(text, buffer, WithoutNewlines(y));
  }

  /**
   * A paragraph ends at the end of input or with an empty line: a newline
   * that is the first consumed character or follows another newline.
   */
  lemma {:induction false} ParagraphEnd(r: Cursor, text: string)
    requires InRange(r)
    ensures var next := ReadParagraph(r, text).1.next;
            || next == |r.input|
            || (r.input[next - 1] == '\n' && (next - 1 == r.next || r.input[next - 2] == '\n'))
    decreases |r.input| - r.next
  {
    var line := ReadUntil(r, '\n');
    var r1 := line.1;
    if line.0 != [] {
      var next := ReadParagraph(r1, text + line.0).1.next;
      assert ReadParagraph(r, text).1.next == next;
      ParagraphEnd(r1, text + line.0);
      if next != |r.input| && next - 1 == r1.next {
        assert r.input[r1.next - 1] == '\n';
      }
    }
  }

  /**
   * A paragraph ends at the first empty line: every newline it consumes
   * before the last one closes a non-empty line.
   */
  lemma {:induction false} ParagraphEndsAtFirstEmptyLine(r: Cursor, text: string)
    requires InRange(r)
    ensures var next := ReadParagraph(r, text).1.next;
            forall k :: r.next <= k < next - 1 && r.input[k] == '\n' ==> r.next < k && r.input[k - 1] != '\n'
    decreases |r.input| - r.next
  {
    var line := ReadUntil(r, '\n');
    var r1 := line.1;
    if line.0 != [] {
      var next := ReadParagraph(r1, text + line.0).1.next;
      assert ReadParagraph(r, text).1.next == next;
      ParagraphEndsAtFirstEmptyLine(r1, text + line.0);
      forall k | r.next <= k < next - 1 && r.input[k] == '\n'
        ensures r.next < k && r.input[k - 1] != '\n'
      {
        if k < r1.next {
          assert k == r.next + |line.0|;
          assert r.input[k - 1] == line.0[|line.0| - 1];
        }
      }
    }
  }

  /** The input a line read consumes, newlines removed, is the text it returns. */
  lemma ReadLineConsumed(r: Cursor, delimiter: char)
    requires InRange(r) && delimiter == '\n'
    ensures var (line, r1) := ReadUntil(r, delimiter);
            r.next <= r1.next && WithoutNewlines(r.input[r.next..r1.next]) == line
  {
    var (line, r1) := ReadUntil(r, delimiter);
    WithoutNewlinesKeeps(line);
    if r1.next == r.next + |line| + 1 {
      assert r.input[r.next..r1.next] == line + [delimiter];
      WithoutNewlinesAppend(line, [delimiter]);
    } else {
      assert r.input[r.next..r1.next] == line;
    }
  }

  // ---------------------------------------------------------------------------
  // One iteration of the main loop
  // ---------------------------------------------------------------------------

  /** The reader moved forward over the same input. */
  ghost predicate Advanced(s: State, s': State) {
    s'.reader.input == s.reader.input && s.reader.next <= s'.reader.next
  }

  /** A `>` line: a keyword up to a space, then `Titre` or `Auteur` take the rest of the line. */
  function Command(s: State): (r: Result<State, Error>)
    requires Inv(s)
    ensures r.Ok? ==> Inv(r.value) && Advanced(s, r.value)
    ensures r.Err? ==> r.error.CompilingError?
  {
    var (keyword, r1) := ReadUntil(s.reader, ' ');
    if keyword == "Titre" then
      var (value, r2) := ReadUntil(r1, '\n');
      Ok(s.(reader := r2, title := Some(value)))
    else if keyword == "Auteur" then
      var (value, r2) := ReadUntil(r1, '\n');
      Ok(s.(reader := r2, author := Some(value)))
    else
      Err(RaiseAt(UnknownCommand + keyword + "'", r1))
  }

  /**
   * Opening a section of level `level` named `name`: deeper goes under the
   * current section with a new component 1; the same level goes under the
   * current section's parent with the last component incremented; shallower
   * drops the last component, increments the new last one and goes under
   * the grandparent. Both trees are extended in the same way.
   */
  function OpenSection(s: State, name: string, level: nat): (r: State)
    requires Inv(s) && level >= 1 && Abs(level - s.level) <= 1
    ensures Inv(r)
    ensures r.reader == s.reader && r.title == s.title && r.author == s.author
    ensures |r.sections| == |s.sections| + 1 && r.currentBody == |s.sections| && r.level == level
    ensures r.sections[r.currentBody].name == name
  {
    if level > s.level then OpenDeeper(s, name)
    else if level < s.level then OpenShallower(s, name)
    else OpenSibling(s, name)
  }

  /** A section one level deeper: the first section child of the current one, numbered `.1`. */
  function OpenDeeper(s: State, name: string): (r: State)
    requires Inv(s)
    ensures Inv(r) && r.level == s.level + 1
    ensures r.reader == s.reader && r.title == s.title && r.author == s.author
    ensures |r.sections| == |s.sections| + 1 && r.currentBody == |s.sections| && r.sections[r.currentBody].name == name
    ensures Opened(s, r, name, s.sections[s.currentBody].id + [1], s.currentBody, s.currentSummary)
    ensures Subs(r.sections[s.currentBody].children) == [r.currentBody]
  {
    var cur, curSum := s.currentBody, s.currentSummary;
    var newId := s.sections[cur].id + [1];
    AttachKeepsInv(s, cur, name, newId);
    AttachSubs(s.sections, cur, name, newId);
    Attach(s, cur, curSum, name, newId, s.level + 1)
  }

  /**
   * A section at the same level: the next section child of the current
   * one's parent, numbered with the current id's last number incremented.
   */
  function OpenSibling(s: State, name: string): (r: State)
    requires Inv(s) && s.level >= 1
    ensures Inv(r) && r.level == s.level
    ensures r.reader == s.reader && r.title == s.title && r.author == s.author
    ensures |r.sections| == |s.sections| + 1 && r.currentBody == |s.sections| && r.sections[r.currentBody].name == name
    ensures s.sections[s.currentBody].parent.Some? && s.summary[s.currentSummary].parent.Some? &&
            s.sections[s.currentBody].id != [] &&
            Opened(s, r, name, IncrementLast(s.sections[s.currentBody].id),
                   s.sections[s.currentBody].parent.value, s.summary[s.currentSummary].parent.value)
  {
    var cur, curSum := s.currentBody, s.currentSummary;
    var id := s.sections[cur].id;
    SameLevelFacts(s);
    var bodyParent := s.sections[cur].parent.value;
    var sumParent := s.summary[curSum].parent.value;
    var newId := IncrementLast(id);
    SiblingStep(s, name, bodyParent, sumParent);
    Attach(s, bodyParent, sumParent, name, newId, s.level)
  }

  /**
   * A section one level up: the next section child of the current one's
   * grandparent, numbered with the current id's last number dropped and the
   * new last number incremented.
   */
  function OpenShallower(s: State, name: string): (r: State)
    requires Inv(s) && s.level >= 2
    ensures Inv(r) && r.level == s.level - 1
    ensures r.reader == s.reader && r.title == s.title && r.author == s.author
    ensures |r.sections| == |s.sections| + 1 && r.currentBody == |s.sections| && r.sections[r.currentBody].name == name
    ensures var cur, curSum := s.currentBody, s.currentSummary;
            var id := s.sections[cur].id;
            s.sections[cur].parent.Some? && s.sections[cur].parent.value < |s.sections| &&
            s.sections[s.sections[cur].parent.value].parent.Some? &&
            s.summary[curSum].parent.Some? && s.summary[curSum].parent.value < |s.summary| &&
            s.summary[s.summary[curSum].parent.value].parent.Some? && |id| >= 2 &&
            Opened(s, r, name, IncrementLast(id[..|id| - 1]),
                   s.sections[s.sections[cur].parent.value].parent.value,
                   s.summary[s.summary[curSum].parent.value].parent.value)
  {
    var cur, curSum := s.currentBody, s.currentSummary;
    var id := s.sections[cur].id;
    ShallowerFacts(s);
    var up := s.sections[cur].parent.value;
    var bodyParent := s.sections[up].parent.value;
    var upSum := s.summary[curSum].parent.value;
    var sumParent := s.summary[upSum].parent.value;
    var newId := IncrementLast(id[..|id| - 1]);
    ShallowerStep(s, name, up, bodyParent, upSum, sumParent);
    Attach(s, bodyParent, sumParent, name, newId, s.level - 1)
  }

  /**
   * `r` is `s` with a new section named `name` with id `id` appended to both
   * trees, listed last among the children of `bodyParent` and `sumParent`,
   * and current in both; every other section and entry is unchanged.
   */
  ghost predicate Opened(s: State, r: State, name: string, id: seq<int>, bodyParent: nat, sumParent: nat) {
    bodyParent < |s.sections| && sumParent < |s.summary| &&
    |r.sections| == |s.sections| + 1 && |r.summary| == |s.summary| + 1 &&
    r.currentBody == |s.sections| && r.currentSummary == |s.summary| &&
    r.sections[r.currentBody] == Section(name, id, Some(bodyParent), []) &&
    r.summary[r.currentSummary] == Entry(name, id, Some(sumParent), []) &&
    r.sections[bodyParent] == s.sections[bodyParent].(children := s.sections[bodyParent].children + [Sub(r.currentBody)]) &&
    r.summary[sumParent] == s.summary[sumParent].(children := s.summary[sumParent].children + [r.currentSummary]) &&
    (forall q :: 0 <= q < |s.sections| && q != bodyParent ==> r.sections[q] == s.sections[q]) &&
    (forall q :: 0 <= q < |s.summary| && q != sumParent ==> r.summary[q] == s.summary[q])
  }

  /**
   * Create the new section under `bodyParent` in the body tree and under
   * `sumParent` in the summary tree, and make it current in both.
   */
  function Attach(s: State, bodyParent: nat, sumParent: nat, name: string, id: seq<int>, level: nat): (r: State)
    requires bodyParent < |s.sections| && sumParent < |s.summary|
    ensures r.reader == s.reader && r.title == s.title && r.author == s.author
    ensures |r.sections| == |s.sections| + 1 && r.currentBody == |s.sections| && r.level == level
    ensures r.currentSummary == |s.summary| && r.sections[r.currentBody] == Section(name, id, Some(bodyParent), [])
    ensures Opened(s, r, name, id, bodyParent, sumParent)
  {
    s.(sections := AttachSection(s.sections, bodyParent, name, id),
       summary := AttachEntry(s.summary, sumParent, name, id),
       currentBody := |s.sections|, currentSummary := |s.summary|, level := level)
  }

  /** A `=` line: count the level, check the space and the level change, then read the name. */
  function Header(s: State): (r: Result<State, Error>)
    requires Inv(s)
    ensures r.Ok? ==> Inv(r.value) && Advanced(s, r.value)
    ensures r.Err? ==> r.error.CompilingError?
  {
    var (level, after, r1) := CountLevel(s.reader, 1);
    if after != Some(' ') then
      Err(RaiseAt(MissingSpace, r1))
    else if Abs(level - s.level) > 1 then
      Err(RaiseAt(IndentJump, r1))
    else
      var (name, r2) := ReadUntil(r1, '\n');
      var s' := s.(reader := r2);
      Ok(OpenSection(s', name, level))
  }

  /** Any other leading character starts a paragraph, appended to the current body section. */
  function AddParagraph(s: State, c: char): (r: State)
    requires Inv(s)
    ensures Inv(r) && Advanced(s, r)
  {
    var (text, r1) := ReadParagraph(s.reader, [c]);
    var r := s.(reader := r1, sections := PushBackChild(s.sections, s.currentBody, Para(text)));
    ParagraphKeepsInv(s, r, text);
    r
  }

  /** One iteration of the main loop, after its leading character `c` was read. */
  function ProcessLine(s: State, c: char): (r: Result<State, Error>)
    requires Inv(s)
    ensures r.Ok? ==> Inv(r.value) && Advanced(s, r.value)
    ensures r.Err? ==> r.error.CompilingError?
  {
    if c == '\n' then Ok(s)
    else if c == '>' then Command(s)
    else if c == '=' then Header(s)
    else Ok(AddParagraph(s, c))
  }

  /** The main loop: read a leading character, process its line, until end of input. */
  function Run(s: State): (r: Result<State, Error>)
    requires Inv(s)
    ensures r.Ok? ==> Inv(r.value) && r.value.reader.input == s.reader.input
    ensures r.Ok? ==> r.value.reader.next == |s.reader.input|
    ensures r.Err? ==> r.error.CompilingError?
    decreases |s.reader.input| - s.reader.next
  {
    var (ch, r1) := NextChar(s.reader);
    if ch.None? then
      Ok(s.(reader := r1))
    else
      match ProcessLine(s.(reader := r1), ch.value)
      case Err(e) => Err(e)
      case Ok(s') => Run(s')
  }

  /** The state before the first line satisfies the invariant. */
  lemma InitialInv(input: seq<char>)
    ensures Inv(Initial(input))
  {
  }

  /** The tokenizing phase of `compile` on a whole input. */
  function Parse(input: seq<char>): (r: Result<State, Error>)
    ensures r.Ok? ==> Inv(r.value) && r.value.reader == Cursor(input, |input|)
    ensures r.Err? ==> r.error.CompilingError?
  {
    InitialInv(input);
    Run(Initial(input))
  }

  // ---------------------------------------------------------------------------
  // Preservation of the invariant
  // ---------------------------------------------------------------------------

  /** Pushing a new section under `p` leaves `Open` true of `p` and its ancestors. */
  lemma {:induction false} OpenAfterAttach(a: seq<Section>, p: nat, name: string, id: seq<int>, x: nat)
    requires p < |a| && ParentLinks(a) && ParentLinks(AttachSection(a, p, name, id))
    requires x <= p && Open(a, x)
    ensures Open(AttachSection(a, p, name, id), x)
    decreases x
  {
    var b := AttachSection(a, p, name, id);
    if x > 0 {
      var q := a[x].parent.value;
      assert b[x].parent == a[x].parent;
      assert b[q] == a[q];
      OpenAfterAttach(a, p, name, id, q);
    }
  }

  /** `Open` depends only on the skeleton of the tree. */
  lemma {:induction false} OpenSameSkeleton(a: seq<Section>, b: seq<Section>, x: nat)
    requires ParentLinks(a) && ParentLinks(b) && SameSkeleton(a, b)
    requires x < |a| && Open(a, x)
    ensures Open(b, x)
    decreases x
  {
    if x > 0 {
      var q := a[x].parent.value;
      assert b[x].parent == a[x].parent && Subs(b[q].children) == Subs(a[q].children);
      OpenSameSkeleton(a, b, q);
    }
  }

  /** The shape invariants depend only on the skeleton of the body tree. */
  lemma WellFormedSameSkeleton(a: seq<Section>, b: seq<Section>, summary: seq<Entry>)
    requires WellFormed(a, summary) && SameSkeleton(a, b)
    ensures WellFormed(b, summary)
  {
    assert ParentLinks(b) by {
      forall i | 0 < i < |b|
        ensures b[i].parent.Some? && b[i].parent.value < i && i in Subs(b[b[i].parent.value].children)
      {
        assert b[i].parent == a[i].parent;
      }
    }
    assert Numbered(b) by {
      forall p, k | 0 <= p < |b| && 0 <= k < |Subs(b[p].children)|
        ensures var j := Subs(b[p].children)[k];
                p < j < |b| && b[j].parent == Some(p) && b[j].id == b[p].id + [k + 1]
      {
        assert Subs(b[p].children) == Subs(a[p].children);
      }
    }
  }

  /** The section children of `p` gain the new section; nothing else changes. */
  lemma AttachSubs(a: seq<Section>, p: nat, name: string, id: seq<int>)
    requires p < |a|
    ensures var b := AttachSection(a, p, name, id);
            Subs(b[p].children) == Subs(a[p].children) + [|a|] && Subs(b[|a|].children) == []
  {
    SubsAppend(a[p].children, [Sub(|a|)]);
    SubsSingle(Sub(|a|));
  }

  lemma AttachParentLinks(a: seq<Section>, p: nat, name: string, id: seq<int>)
    requires p < |a| && ParentLinks(a)
    ensures ParentLinks(AttachSection(a, p, name, id))
  {
    var b, n := AttachSection(a, p, name, id), |a|;
    AttachSubs(a, p, name, id);
    forall i | 0 < i < |b|
      ensures b[i].parent.Some? && b[i].parent.value < i && i in Subs(b[b[i].parent.value].children)
    {
      if i < n {
        var q := a[i].parent.value;
        assert b[i].parent == a[i].parent;
        assert i in Subs(a[q].children);
        if q != p {
          assert b[q] == a[q];
        }
      }
    }
  }

  lemma AttachNumbered(a: seq<Section>, p: nat, name: string, id: seq<int>)
    requires p < |a| && Numbered(a)
    requires id == a[p].id + [|Subs(a[p].children)| + 1]
    ensures Numbered(AttachSection(a, p, name, id))
  {
    var b, n := AttachSection(a, p, name, id), |a|;
    AttachSubs(a, p, name, id);
    forall q, k | 0 <= q < |b| && 0 <= k < |Subs(b[q].children)|
      ensures var j := Subs(b[q].children)[k];
              q < j < |b| && b[j].parent == Some(q) && b[j].id == b[q].id + [k + 1]
    {
      if q < n && k < |Subs(a[q].children)| {
        var j := Subs(a[q].children)[k];
        if q == p {
          assert Subs(b[q].children)[k] == j;
        } else {
          assert b[q] == a[q];
        }
        assert b[j].parent == a[j].parent && b[j].id == a[j].id;
      }
    }
  }

  lemma AttachMirrored(a: seq<Section>, sum: seq<Entry>, p: nat, name: string, id: seq<int>)
    requires p < |a| && Mirrored(a, sum)
    ensures Mirrored(AttachSection(a, p, name, id), AttachEntry(sum, p, name, id))
  {
    var b, sum' := AttachSection(a, p, name, id), AttachEntry(sum, p, name, id);
    AttachSubs(a, p, name, id);
    forall i | 0 <= i < |b|
      ensures sum'[i].parent == b[i].parent && sum'[i].id == b[i].id &&
              sum'[i].children == Subs(b[i].children) && (i > 0 ==> sum'[i].name == b[i].name)
    {
      if i < |a| && i != p {
        assert b[i] == a[i] && sum'[i] == sum[i];
      }
    }
  }

  /** Attaching a section whose id continues `p`'s sibling numbering keeps the invariant. */
  lemma AttachKeepsInv(s: State, p: nat, name: string, id: seq<int>)
    requires Inv(s) && p < |s.sections| && Open(s.sections, p)
    requires id == s.sections[p].id + [|Subs(s.sections[p].children)| + 1]
    ensures Inv(Attach(s, p, p, name, id, |id|))
  {
    var a, n := s.sections, |s.sections|;
    var b := AttachSection(a, p, name, id);
    AttachSubs(a, p, name, id);
    AttachParentLinks(a, p, name, id);
    AttachNumbered(a, p, name, id);
    AttachMirrored(a, s.summary, p, name, id);
    assert b[0].parent == a[0].parent && b[0].id == a[0].id;
    OpenAfterAttach(a, p, name, id, p);
    assert Open(b, n);
  }

  /** An open section other than main is its parent's last section child, and the parent is open. */
  lemma OpenParent(sections: seq<Section>, i: nat)
    requires ParentLinks(sections) && 0 < i < |sections| && Open(sections, i)
    ensures var p := sections[i].parent.value;
            var subs := Subs(sections[p].children);
            |subs| > 0 && subs[|subs| - 1] == i && Open(sections, p)
  {
  }

  /** The id of an open section other than main ends with its parent's number of section children. */
  lemma OpenId(sections: seq<Section>, i: nat)
    requires ParentLinks(sections) && Numbered(sections) && 0 < i < |sections| && Open(sections, i)
    ensures var p := sections[i].parent.value;
            sections[i].id == sections[p].id + [|Subs(sections[p].children)|]
  {
    OpenParent(sections, i);
  }

  /**
   * At a level of at least 1 the current section is not main: its parent
   * is open, mirrored in the summary, and numbers it last.
   */
  lemma SameLevelFacts(s: State)
    requires Inv(s) && s.level >= 1
    ensures var cur := s.currentBody;
            0 < cur && s.summary[cur].parent == s.sections[cur].parent &&
            var p := s.sections[cur].parent.value;
            Open(s.sections, p) && s.sections[cur].id == s.sections[p].id + [|Subs(s.sections[p].children)|]
  {
    EmptyIdIsMain(s.sections, s.summary, s.currentBody);
    OpenParent(s.sections, s.currentBody);
    OpenId(s.sections, s.currentBody);
  }

  /** The new sibling keeps the invariant; the two trees give the same parent. */
  lemma SiblingStep(s: State, name: string, bodyParent: nat, sumParent: nat)
    requires Inv(s) && s.level >= 1
    requires s.sections[s.currentBody].parent == Some(bodyParent)
    requires s.summary[s.currentSummary].parent == Some(sumParent)
    ensures bodyParent < |s.sections| && sumParent < |s.summary|
    ensures Inv(Attach(s, bodyParent, sumParent, name, IncrementLast(s.sections[s.currentBody].id), s.level))
  {
    SameLevelFacts(s);
    var p := bodyParent;
    var newId := IncrementLast(s.sections[s.currentBody].id);
    IncrementLastOf(s.sections[p].id, |Subs(s.sections[p].children)|);
    AttachKeepsInv(s, p, name, newId);
  }

  /** The new section one level up keeps the invariant; the two trees give the same grandparent. */
  lemma ShallowerStep(s: State, name: string, up: nat, bodyParent: nat, upSum: nat, sumParent: nat)
    requires Inv(s) && s.level >= 2
    requires s.sections[s.currentBody].parent == Some(up) && up < |s.sections|
    requires s.sections[up].parent == Some(bodyParent)
    requires s.summary[s.currentSummary].parent == Some(upSum) && upSum < |s.summary|
    requires s.summary[upSum].parent == Some(sumParent)
    ensures bodyParent < |s.sections| && sumParent < |s.summary|
    ensures var id := s.sections[s.currentBody].id;
            Inv(Attach(s, bodyParent, sumParent, name, IncrementLast(id[..|id| - 1]), s.level - 1))
  {
    ShallowerFacts(s);
    var p := bodyParent;
    var id := s.sections[s.currentBody].id;
    var newId := IncrementLast(id[..|id| - 1]);
    IncrementLastOf(s.sections[p].id, |Subs(s.sections[p].children)|);
    AttachKeepsInv(s, p, name, newId);
  }

  /** At a level of at least 2 the same holds of the current section's parent. */
  lemma ShallowerFacts(s: State)
    requires Inv(s) && s.level >= 2
    ensures var cur := s.currentBody;
            0 < cur && s.summary[cur].parent == s.sections[cur].parent &&
            var up := s.sections[cur].parent.value;
            var id := s.sections[cur].id;
            0 < up && s.summary[up].parent == s.sections[up].parent &&
            id[..|id| - 1] == s.sections[up].id &&
            var p := s.sections[up].parent.value;
            Open(s.sections, p) && s.sections[up].id == s.sections[p].id + [|Subs(s.sections[p].children)|]
  {
    var cur := s.currentBody;
    EmptyIdIsMain(s.sections, s.summary, cur);
    var up := s.sections[cur].parent.value;
    ChildId(s.sections, cur);
    EmptyIdIsMain(s.sections, s.summary, up);
    OpenParent(s.sections, cur);
    OpenParent(s.sections, up);
    OpenId(s.sections, up);
  }

  /** Appending a paragraph to the current section keeps the invariant. */
  lemma ParagraphKeepsInv(s: State, r: State, text: string)
    requires Inv(s) && InRange(r.reader)
    requires r == s.(reader := r.reader, sections := PushBackChild(s.sections, s.currentBody, Para(text)))
    ensures Inv(r)
  {
    var a, b := s.sections, r.sections;
    ParagraphSameSkeleton(a, s.currentBody, text);
    WellFormedSameSkeleton(a, b, s.summary);
    OpenSameSkeleton(a, b, s.currentBody);
  }
}
