/**
 * The position-tracking reader (`InputFacade`). The input stream is a
 * sequence of characters with a read head; end of input is `None`.
 *
 * The pure part states what the reader computes: the counters after a given
 * consumed prefix (`CountersAfter`), the reported position (`Position`), a
 * one-character read (`NextChar`) and a read up to a delimiter (`ReadUntil`).
 * The class `InputFacade` keeps the three counters as fields and updates
 * them in place; its methods are proved against the pure part.
 */
module Reader {
  import opened Common

  /** `lines_read`, `chars_since_line_start` and `last_line_chars`. */
  datatype Counters = Counters(linesRead: nat, charsSinceLineStart: nat, lastLineChars: nat)

  /** A reported source position (line, column). */
  datatype Pos = Pos(line: int, col: int)

  /** The counters of a reader that has consumed nothing. */
  const Start := Counters(0, 0, 0)

  /** How `get()` updates the counters when it returns `ch`. */
  function Advance(c: Counters, ch: char): Counters {
    if ch == '\n' then
      Counters(c.linesRead + 1, 0, c.charsSinceLineStart + 1)
    else
      c.(charsSinceLineStart := c.charsSinceLineStart + 1)
  }

  /** The number of newline characters in `s`. */
  function NewlineCount(s: seq<char>): nat {
    if s == [] then 0 else (if s[0] == '\n' then 1 else 0) + NewlineCount(s[1..])
  }

  lemma {:induction false} NewlineCountSnoc(s: seq<char>, ch: char)
    ensures NewlineCount(s + [ch]) == NewlineCount(s) + (if ch == '\n' then 1 else 0)
  {
    if s != [] {
      assert (s + [ch])[1..] == s[1..] + [ch];
      NewlineCountSnoc(s[1..], ch);
    }
  }

  /**
   * The counters after `consumed` was read from a fresh reader: the number of
   * lines read is the number of newlines, and the column counts the
   * characters since the last newline (or since the start).
   */
  function CountersAfter(consumed: seq<char>): (c: Counters)
    ensures c.linesRead == NewlineCount(consumed)
    ensures c.charsSinceLineStart <= |consumed|
    ensures forall k :: |consumed| - c.charsSinceLineStart <= k < |consumed| ==> consumed[k] != '\n'
    ensures c.charsSinceLineStart < |consumed| ==> consumed[|consumed| - c.charsSinceLineStart - 1] == '\n'
    decreases |consumed|
  {
    if consumed == [] then Start
    else
      var last := consumed[|consumed| - 1];
      var prefix := consumed[..|consumed| - 1];
      NewlineCountSnoc(prefix, last);
      assert consumed == prefix + [last];
      Advance(CountersAfter(prefix), last)
  }

  /**
   * `get_pos`: line `lines_read + 1` and the current column, except at
   * column 0, where the end of the previous line is reported.
   */
  function Position(c: Counters): Pos {
    var line := c.linesRead + 1;
    var col := c.charsSinceLineStart;
    if col == 0 then Pos(line - 1, c.lastLineChars) else Pos(line, col)
  }

  /** Before anything is read the reported position is (0, 0). */
  lemma PositionAtStart()
    ensures Position(CountersAfter([])) == Pos(0, 0)
  {
  }

  /**
   * The reported position is that of the last consumed character: its line
   * is one more than the newlines before it, and its column counts the
   * characters from the start of its line up to and including it.
   */
  lemma PositionOfLastConsumed(consumed: seq<char>)
    requires |consumed| > 0
    ensures var p := Position(CountersAfter(consumed));
            var n := |consumed|;
            p.line == NewlineCount(consumed[..n - 1]) + 1 &&
            1 <= p.col <= n &&
            (forall k :: n - p.col <= k < n - 1 ==> consumed[k] != '\n') &&
            (p.col < n ==> consumed[n - p.col - 1] == '\n')
  {
    var n := |consumed|;
    var prefix := consumed[..n - 1];
    var before := CountersAfter(prefix);
    var p := Position(CountersAfter(consumed));
    assert CountersAfter(consumed) == Advance(before, consumed[n - 1]);
    assert p == Pos(before.linesRead + 1, before.charsSinceLineStart + 1);
    forall k | n - p.col <= k < n - 1
      ensures consumed[k] != '\n'
    {
      assert consumed[k] == prefix[k];
    }
    if p.col < n {
      assert consumed[n - p.col - 1] == prefix[|prefix| - before.charsSinceLineStart - 1];
    }
  }

  /** The stream and its read head. */
  datatype Cursor = Cursor(input: seq<char>, next: nat)

  predicate InRange(r: Cursor) {
    r.next <= |r.input|
  }

  /** The position `get_pos` reports for a reader at `r`. */
  function PositionOf(r: Cursor): Pos
    requires InRange(r)
  {
    Position(CountersAfter(r.input[..r.next]))
  }

  /** `get()`: the next character, or `None` at end of input (nothing consumed then). */
  function NextChar(r: Cursor): (res: (Option<char>, Cursor))
    requires InRange(r)
    ensures InRange(res.1) && res.1.input == r.input
    ensures res.0.None? <==> r.next == |r.input|
    ensures res.0.None? ==> res.1 == r
    ensures res.0.Some? ==> res.0.value == r.input[r.next] && res.1.next == r.next + 1
  {
    if r.next == |r.input| then (None, r) else (Some(r.input[r.next]), r.(next := r.next + 1))
  }

  /**
   * `get(delimiter)`: the characters before the first delimiter or the end
   * of input. The result never holds the delimiter, and the delimiter itself
   * is consumed when it is found.
   */
  function ReadUntil(r: Cursor, delimiter: char): (res: (string, Cursor))
    requires InRange(r)
    ensures InRange(res.1) && res.1.input == r.input
    ensures r.next + |res.0| <= |r.input| && res.0 == r.input[r.next..r.next + |res.0|]
    ensures forall k :: r.next <= k < r.next + |res.0| ==> r.input[k] != delimiter
    ensures || (res.1.next == r.next + |res.0| == |r.input|)
            || (res.1.next == r.next + |res.0| + 1 && r.input[r.next + |res.0|] == delimiter)
    decreases |r.input| - r.next
  {
    var (ch, r1) := NextChar(r);
    if ch.None? || ch.value == delimiter then
      ("", r1)
    else
      var (rest, r2) := ReadUntil(r1, delimiter);
      ([ch.value] + rest, r2)
  }

  /** The reader object: an input stream with the three counters as fields. */
  class InputFacade {
    const input: seq<char>
    var next: nat
    var linesRead: int
    var charsSinceLineStart: int
    var lastLineChars: int

    /** The counters always describe the consumed prefix of the input. */
    ghost predicate Valid()
      reads this
    {
      next <= |input| &&
      var c := CountersAfter(input[..next]);
      linesRead == c.linesRead && charsSinceLineStart == c.charsSinceLineStart && lastLineChars == c.lastLineChars
    }

    function Model(): Cursor
      reads this
    {
      Cursor(input, next)
    }

    constructor (input: seq<char>)
      ensures Valid() && this.input == input && next == 0
    {
      this.input := input;
      next := 0;
      linesRead, charsSinceLineStart, lastLineChars := 0, 0, 0;
    }

    /** `get_pos` on the counters. */
    function GetPos(): (p: Pos)
      reads this
      requires Valid()
      ensures p == PositionOf(Model())
    {
      var line := linesRead + 1;
      var chars := charsSinceLineStart;
      if chars == 0 then Pos(line - 1, lastLineChars) else Pos(line, chars)
    }

    /** `get()`: read one character and update the counters. */
    method Get() returns (r: Option<char>)
      requires Valid()
      modifies this
      ensures Valid()
      ensures (r, Model()) == NextChar(old(Model()))
      ensures r.None? ==>
                linesRead == old(linesRead) && charsSinceLineStart == old(charsSinceLineStart) &&
                lastLineChars == old(lastLineChars)
      ensures r == Some('\n') ==>
                linesRead == old(linesRead) + 1 && lastLineChars == old(charsSinceLineStart) + 1 &&
                charsSinceLineStart == 0
      ensures r.Some? && r.value != '\n' ==>
                linesRead == old(linesRead) && charsSinceLineStart == old(charsSinceLineStart) + 1 &&
                lastLineChars == old(lastLineChars)
    {
      if next == |input| {
        return None;
      }
      var i := input[next];
      assert input[..next + 1] == input[..next] + [i];
      next := next + 1;
      if i == '\n' {
        linesRead := linesRead + 1;
        lastLineChars := charsSinceLineStart + 1;
        charsSinceLineStart := 0;
      } else {
        charsSinceLineStart := charsSinceLineStart + 1;
      }
      return Some(i);
    }

    /** `get(delimiter)`: read until the delimiter or the end of input. */
    method GetUntil(delimiter: char) returns (buffer: string)
      requires Valid()
      modifies this
      ensures Valid()
      ensures (buffer, Model()) == ReadUntil(old(Model()), delimiter)
    {
      buffer := "";
      ghost var whole := ReadUntil(old(Model()), delimiter);
      assert buffer + whole.0 == whole.0;
      while true
        invariant Valid() && old(next) <= next
        invariant whole.0 == buffer + ReadUntil(Model(), delimiter).0
        invariant whole.1 == ReadUntil(Model(), delimiter).1
        decreases |input| - next
      {
        ghost var before := Model();
        var result := Get();
        if result.None? || result.value == delimiter {
          assert ReadUntil(before, delimiter) == ("", Model());
          assert buffer + "" == buffer;
          assert whole == (buffer, Model());
          return;
        }
        ghost var after := ReadUntil(Model(), delimiter);
        assert ReadUntil(before, delimiter) == ([result.value] + after.0, after.1);
        assert buffer + ([result.value] + after.0) == (buffer + [result.value]) + after.0;
        buffer := buffer + [result.value];
      }
    }
  }
}
