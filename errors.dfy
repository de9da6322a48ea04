/**
 * The two kinds of error the compiler raises: a `CompilingError`, which
 * carries the reader's position at the moment it is raised, and a
 * `ValidationError`, which carries only its reason.
 */
module Errors {
  import opened Numbers
  import opened Reader

  datatype Error =
    | CompilingError(reason: string, line: int, col: int)
    | ValidationError(reason: string)

  /** A compiling error raised while the reader is at `r`; `get_pos` gives its position. */
  function RaiseAt(reason: string, r: Cursor): (e: Error)
    requires InRange(r)
    ensures e.CompilingError? && e.reason == reason && Pos(e.line, e.col) == PositionOf(r)
  {
    var p := PositionOf(r);
    CompilingError(reason, p.line, p.col)
  }

  /**
   * `what()`: a compiling error reads "<reason> at (<line>, <col>)", a
   * validation error is its reason alone.
   */
  function What(e: Error): (s: string)
    ensures |s| >= |e.reason| && s[..|e.reason|] == e.reason
    ensures e.ValidationError? ==> s == e.reason
    ensures e.CompilingError? ==>
              s == e.reason + " at (" + IntToString(e.line) + ", " + IntToString(e.col) + ")"
  {
    match e
    case CompilingError(reason, line, col) =>
      reason + " at (" + IntToString(line) + ", " + IntToString(col) + ")"
    case ValidationError(reason) =>
      reason
  }

  /** In `x + ", " + y`, where `x` is a rendered integer, the first comma follows `x`. */
  lemma FirstComma(x: string, y: string)
    requires Numeral(x)
    ensures (x + ", " + y)[|x|] == ','
    ensures forall k :: 0 <= k < |x| ==> (x + ", " + y)[k] != ','
  {
    forall k | 0 <= k < |x|
      ensures (x + ", " + y)[k] != ','
    {
      assert (x + ", " + y)[k] == x[k];
    }
  }

  /** Splitting at a comma that neither head contains recovers both heads and tails. */
  lemma SplitAtComma(x: string, y: string, x': string, y': string)
    requires Numeral(x) && Numeral(x')
    requires x + ", " + y == x' + ", " + y'
    ensures x == x' && y == y'
  {
    var s := x + ", " + y;
    FirstComma(x, y);
    FirstComma(x', y');
    assert |x| == |x'|;
    assert x == s[..|x|] == x';
    assert y == s[|x| + 2..] == y';
  }

  /**
   * The message of a compiling error determines its position: two errors
   * with the same reason and the same message were raised at the same line
   * and column.
   */
  lemma WhatDeterminesPosition(e: Error, e': Error)
    requires e.CompilingError? && e'.CompilingError? && e.reason == e'.reason
    requires What(e) == What(e')
    ensures e == e'
  {
    var head := e.reason + " at (";
    var a, b := IntToString(e.line), IntToString(e.col);
    var a', b' := IntToString(e'.line), IntToString(e'.col);
    assert What(e) == head + (a + ", " + (b + ")"));
    assert What(e') == head + (a' + ", " + (b' + ")"));
    assert a + ", " + (b + ")") == What(e)[|head|..] == a' + ", " + (b' + ")");
    IntToStringNumeral(e.line);
    IntToStringNumeral(e'.line);
    SplitAtComma(a, b + ")", a', b' + ")");
    assert b == (b + ")")[..|b|] == b';
    IntToStringInjective(e.line, e'.line);
    IntToStringInjective(e.col, e'.col);
  }
}
