/**
 * The tokenizing loop of `compile` as it runs: a reader object whose
 * counters change in place, the two arenas and the cursors held in local
 * variables that each iteration reassigns, the level-counting loop and the
 * paragraph do-while loop. Each is proved to compute what the pure parser
 * of module `Parser` describes.
 */
module Tokenizer {
  import opened Common
  import opened Reader
  import opened Tree
  import opened Errors
  import opened Parser

  /** The level loop: count the run of `=` after the first one. */
  method ReadLevel(facade: InputFacade) returns (level: nat, after: Option<char>)
    requires facade.Valid()
    modifies facade
    ensures facade.Valid()
    ensures (level, after, facade.Model()) == CountLevel(old(facade.Model()), 1)
  {
    level := 1;
    while true
      invariant facade.Valid() && old(facade.next) <= facade.next
      invariant CountLevel(old(facade.Model()), 1) == CountLevel(facade.Model(), level)
      decreases |facade.input| - facade.next
    {
      after := facade.Get();
      if after != Some('=') {
        return;
      }
      level := level + 1;
    }
  }

  /** The paragraph do-while: append line reads to the text until one is empty. */
  method ReadParagraphText(facade: InputFacade, c: char) returns (text: string)
    requires facade.Valid()
    modifies facade
    ensures facade.Valid()
    ensures (text, facade.Model()) == ReadParagraph(old(facade.Model()), [c])
  {
    text := [c];
    while true
      invariant facade.Valid() && old(facade.next) <= facade.next
      invariant ReadParagraph(old(facade.Model()), [c]) == ReadParagraph(facade.Model(), text)
      decreases |facade.input| - facade.next
    {
      var buffer := facade.GetUntil('\n');
      text := text + buffer;
      if buffer == [] {
        return;
      }
    }
  }

  /** The error `CompilingError(reason, facade)` constructs: the reason at the reader's position. */
  method RaiseHere(facade: InputFacade, reason: string) returns (e: Error)
    requires facade.Valid()
    ensures e == RaiseAt(reason, facade.Model())
  {
    var p := facade.GetPos();
    e := CompilingError(reason, p.line, p.col);
  }

  /**
   * The choice `compile` makes for a new section of level `lvl`, on the
   * values of its locals: the parents in both trees and the edited copy of
   * the current id.
   */
  method SectionPlace(s: State, name: string, lvl: nat) returns (bodyParent: nat, sumParent: nat, id: seq<int>)
    requires Inv(s) && lvl >= 1 && Abs(lvl - s.level) <= 1
    ensures bodyParent < |s.sections| && sumParent < |s.summary|
    ensures OpenSection(s, name, lvl) == Attach(s, bodyParent, sumParent, name, id, lvl)
  {
    id := s.sections[s.currentBody].id;
    if lvl > s.level {
      bodyParent, sumParent := s.currentBody, s.currentSummary;
      id := id + [1];
    } else if lvl < s.level {
      ShallowerFacts(s);
      bodyParent := s.sections[s.sections[s.currentBody].parent.value].parent.value;
      sumParent := s.summary[s.summary[s.currentSummary].parent.value].parent.value;
      id := id[..|id| - 1];
      id := IncrementLast(id);
    } else {
      SameLevelFacts(s);
      bodyParent := s.sections[s.currentBody].parent.value;
      sumParent := s.summary[s.currentSummary].parent.value;
      id := IncrementLast(id);
    }
  }

  /**
   * The local state of `compile` while it tokenizes: the reader, the two
   * trees, the cursors `current_body_s`, `current_sum_s`, `current_s_lvl`,
   * and the title and author read so far.
   */
  class CompileState {
    const facade: InputFacade
    var sections: seq<Section>
    var summary: seq<Entry>
    var currentBody: nat
    var currentSummary: nat
    var level: nat
    var title: Option<string>
    var author: Option<string>

    /** The state as the pure parser sees it. */
    function View(): State
      reads this, facade
    {
      State(facade.Model(), sections, summary, currentBody, currentSummary, level, title, author)
    }

    ghost predicate Valid()
      reads this, facade
    {
      facade.Valid() && Inv(View())
    }

    /** Only the two main sections exist; nothing has been read. */
    constructor (input: seq<char>)
      ensures Valid() && View() == Initial(input) && fresh(facade)
    {
      facade := new InputFacade(input);
      sections := [Section("main", [], None, [])];
      summary := [Entry("MainSummarySection", [], None, [])];
      currentBody, currentSummary, level := 0, 0, 0;
      title, author := None, None;
      new;
      InitialInv(input);
    }

    /** A `>` line, its `>` already read. */
    method CommandLine() returns (err: Option<Error>)
      requires Valid()
      modifies this, facade
      ensures Valid()
      ensures match Command(old(View()))
              case Err(e) => err == Some(e)
              case Ok(s) => err.None? && View() == s
    {
      ghost var s := View();
      var keyword := facade.GetUntil(' ');
      if keyword == "Titre" {
        var value := facade.GetUntil('\n');
        title := Some(value);
        assert View() == s.(reader := facade.Model(), title := Some(value));
      } else if keyword == "Auteur" {
        var value := facade.GetUntil('\n');
        author := Some(value);
        assert View() == s.(reader := facade.Model(), author := Some(value));
      } else {
        var e := RaiseHere(facade, UnknownCommand + keyword + "'");
        return Some(e);
      }
      return None;
    }

    /** A `=` line, its first `=` already read. */
    method HeaderLine() returns (err: Option<Error>)
      requires Valid()
      modifies this, facade
      ensures Valid()
      ensures match Header(old(View()))
              case Err(e) => err == Some(e)
              case Ok(s) => err.None? && View() == s
    {
      var lvl, after := ReadLevel(facade);
      if after != Some(' ') {
        var e := RaiseHere(facade, MissingSpace);
        return Some(e);
      }
      if Abs(lvl - level) > 1 {
        var e := RaiseHere(facade, IndentJump);
        return Some(e);
      }
      var name := facade.GetUntil('\n');
      OpenSectionHere(name, lvl);
      return None;
    }

    /** Create the body and summary sections named `name` at level `lvl` and make them current. */
    method OpenSectionHere(name: string, lvl: nat)
      requires Valid() && lvl >= 1 && Abs(lvl - level) <= 1
      modifies this
      ensures Valid() && View() == OpenSection(old(View()), name, lvl)
    {
      var bodyParent, sumParent, id := SectionPlace(View(), name, lvl);
      var t := Attach(View(), bodyParent, sumParent, name, id, lvl);
      Store(t);
    }

    /** Make the fields hold the parser state `t`, whose reader is this one. */
    method Store(t: State)
      requires t.reader == facade.Model()
      modifies this
      ensures View() == t
    {
      sections, summary := t.sections, t.summary;
      currentBody, currentSummary, level := t.currentBody, t.currentSummary, t.level;
      title, author := t.title, t.author;
    }

    /** Any other line: a paragraph starting with `c`, appended to the current body section. */
    method ParagraphLine(c: char)
      requires Valid()
      modifies this, facade
      ensures Valid() && View() == AddParagraph(old(View()), c)
    {
      ghost var s := View();
      var text := ReadParagraphText(facade, c);
      sections := PushBackChild(sections, currentBody, Para(text));
      assert View() == AddParagraph(s, c);
    }

    /** The main loop: one line per iteration until the end of input or the first error. */
    method Run() returns (r: Result<State, Error>)
      requires Valid()
      modifies this, facade
      ensures r == Parser.Run(old(View()))
    {
      while true
        invariant Valid()
        invariant Parser.Run(View()) == Parser.Run(old(View()))
        decreases |facade.input| - facade.next
      {
        ghost var before := View();
        var result := facade.Get();
        if result.None? {
          return Ok(View());
        }
        var c := result.value;
        ghost var s1 := View();
        assert Parser.Run(before) == (match ProcessLine(s1, c) case Err(e) => Err(e) case Ok(s') => Parser.Run(s'));
        var err: Option<Error> := None;
        if c == '\n' {
          continue;
        } else if c == '>' {
          err := CommandLine();
        } else if c == '=' {
          err := HeaderLine();
        } else {
          ParagraphLine(c);
        }
        if err.Some? {
          return Err(err.value);
        }
      }
    }
  }

  /** The tokenizing phase of `compile` on a whole input. */
  method Tokenize(input: seq<char>) returns (r: Result<State, Error>)
    ensures r == Parse(input)
  {
    var state := new CompileState(input);
    r := state.Run();
  }
}
