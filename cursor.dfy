/**
 Translation between an editor cursor position and a flat character offset.

 A buffer is a sequence of characters, one element per string index of the
 editor's text (a UTF-16 code unit). A position is the editor's 1-based
 `{lineNumber, column}` record; an offset is a 0-based index into the buffer.
 Lines are separated by '\n' and by nothing else.
 */
module Cursor {

  /** The editor's cursor record. The source compares its fields with the
      running counters as they are, so any integers may appear here. */
  datatype Position = Position(lineNumber: int, column: int)

  /** Lexicographic order on positions: earlier line, or same line and
      earlier column. */
  predicate Before(p: Position, q: Position) {
    p.lineNumber < q.lineNumber || (p.lineNumber == q.lineNumber && p.column < q.column)
  }

  /** The number of characters of `s` after its last '\n' (all of `s` when it
      holds none): they are free of '\n', and the one before them is '\n'. */
  function TrailingRun(s: seq<char>): (n: nat)
    ensures n <= |s|
    ensures forall i :: |s| - n <= i < |s| ==> s[i] != '\n'
    ensures n < |s| ==> s[|s| - 1 - n] == '\n'
  {
    if s == [] then 0
    else if s[|s| - 1] == '\n' then 0
    else TrailingRun(s[..|s| - 1]) + 1
  }

  /** The position after reading one more character: a line break starts
      the next line at column 1, anything else moves one column right. */
  function Advance(p: Position, c: char): Position {
    if c == '\n' then Position(p.lineNumber + 1, 1) else Position(p.lineNumber, p.column + 1)
  }

  /** The position of the character at `offset` (or of the end of the buffer
      when `offset == |code|`): (1, 1) advanced over every character before it. */
  function PositionAt(code: seq<char>, offset: nat): (p: Position)
    requires offset <= |code|
    ensures p.lineNumber >= 1 && p.column >= 1
    ensures p.column - 1 <= offset
  {
    if offset == 0 then Position(1, 1)
    else Advance(PositionAt(code, offset - 1), code[offset - 1])
  }

  /** Closed form of a position: the line is one more than the number of '\n'
      before the offset, the column one more than the number of characters
      since the last of them. */
  lemma {:induction false} PositionAtClosedForm(code: seq<char>, offset: nat)
    requires offset <= |code|
    ensures PositionAt(code, offset).lineNumber == 1 + multiset(code[..offset])['\n']
    ensures PositionAt(code, offset).column == 1 + TrailingRun(code[..offset])
  {
    if offset > 0 {
      PositionAtClosedForm(code, offset - 1);
      var prefix := code[..offset];
      assert prefix[..|prefix| - 1] == code[..offset - 1];
      assert prefix == code[..offset - 1] + [code[offset - 1]];
    }
  }

  /** As the offset grows, the position strictly increases. */
  lemma {:induction false} PositionAtIncreasing(code: seq<char>, i: nat, j: nat)
    requires i < j <= |code|
    ensures Before(PositionAt(code, i), PositionAt(code, j))
  {
    if i < j - 1 {
      PositionAtIncreasing(code, i, j - 1);
    }
  }

  /** Distinct offsets (the end of the buffer included) have distinct positions. */
  lemma PositionAtInjective(code: seq<char>, i: nat, j: nat)
    requires i <= |code| && j <= |code|
    requires PositionAt(code, i) == PositionAt(code, j)
    ensures i == j
  {
    if i < j {
      PositionAtIncreasing(code, i, j);
    } else if j < i {
      PositionAtIncreasing(code, j, i);
    }
  }

  /** The first offset at or after `start`, short of the end of the buffer,
      whose position is `pos`; -1 when there is none. */
  function FirstMatchFrom(code: seq<char>, pos: Position, start: nat): (r: int)
    requires start <= |code|
    ensures r == -1 || start <= r < |code|
    ensures r == -1 ==> forall o: nat :: start <= o < |code| ==> PositionAt(code, o) != pos
    ensures (forall o: nat :: start <= o < |code| ==> PositionAt(code, o) != pos) ==> r == -1
    ensures r != -1 ==> PositionAt(code, r) == pos
    ensures r != -1 ==> forall o: nat :: start <= o < r ==> PositionAt(code, o) != pos
    decreases |code| - start
  {
    if start == |code| then -1
    else if PositionAt(code, start) == pos then start
    else FirstMatchFrom(code, pos, start + 1)
  }

  /** The offset that `computeOffset` is meant to find: the first character
      whose position is `pos`, or -1 when no character sits there. */
  function OffsetOf(code: seq<char>, pos: Position): (r: int)
    ensures r == -1 || 0 <= r < |code|
    ensures r == -1 ==> forall o: nat :: 0 <= o < |code| ==> PositionAt(code, o) != pos
    ensures (forall o: nat :: 0 <= o < |code| ==> PositionAt(code, o) != pos) ==> r == -1
    ensures r != -1 ==> PositionAt(code, r) == pos
    ensures pos.lineNumber < 1 || pos.column < 1 ==> r == -1
  {
    FirstMatchFrom(code, pos, 0)
  }

  /** computeOffset: scan forward with running line and column counters and
      return the first offset where they equal `pos`; -1 when the scan runs
      off the end of the buffer without a match. */
  method ComputeOffset(code: seq<char>, pos: Position) returns (offset: int)
    ensures offset == OffsetOf(code, pos)
    ensures offset == -1 || 0 <= offset < |code|
    ensures offset != -1 ==> PositionAt(code, offset) == pos
  {
    var line, col := 1, 1;
    var o: nat := 0;
    while o < |code|
      invariant o <= |code|
      invariant Position(line, col) == PositionAt(code, o)
      invariant FirstMatchFrom(code, pos, o) == OffsetOf(code, pos)
    {
      if line == pos.lineNumber && col == pos.column {
        return o;
      }
      if code[o] == '\n' {
        line, col := line + 1, 1;
      } else {
        col := col + 1;
      }
      o := o + 1;
    }
    return -1;
  }

  /** computePosition: scan the first `offset` characters, counting line
      breaks. Offsets up to the end of the buffer give `PositionAt`; a
      non-positive offset gives (1, 1); past the end, every missing character
      counts as one more column on the last line. */
  method ComputePosition(code: seq<char>, offset: int) returns (p: Position)
    ensures 0 <= offset <= |code| ==> p == PositionAt(code, offset)
    ensures 0 <= offset <= |code| ==>
              p.lineNumber == 1 + multiset(code[..offset])['\n'] &&
              p.column == 1 + TrailingRun(code[..offset])
    ensures offset <= 0 ==> p == Position(1, 1)
    ensures offset > |code| ==>
              p == Position(PositionAt(code, |code|).lineNumber,
                            PositionAt(code, |code|).column + (offset - |code|))
  {
    var line, col := 1, 1;
    var index: nat := 0;
    while index < offset
      invariant index == 0 || index <= offset
      invariant index <= |code| ==> Position(line, col) == PositionAt(code, index)
      invariant index > |code| ==>
                  line == PositionAt(code, |code|).lineNumber &&
                  col == PositionAt(code, |code|).column + (index - |code|)
    {
      if index < |code| && code[index] == '\n' {
        line, col := line + 1, 1;
      } else {
        col := col + 1;
      }
      index := index + 1;
    }
    p := Position(line, col);
    if 0 <= offset <= |code| {
      PositionAtClosedForm(code, offset);
    }
  }

  /** Offset → position → offset: every character is found again at its own
      position. */
  lemma OffsetRoundTrip(code: seq<char>, offset: nat)
    requires offset < |code|
    ensures OffsetOf(code, PositionAt(code, offset)) == offset
  {
    var r := OffsetOf(code, PositionAt(code, offset));
    assert r != -1;
    PositionAtInjective(code, r, offset);
  }

  /** Position → offset → position: a found offset lies at the given position,
      and it is the only offset (end of buffer included) that does. */
  lemma PositionRoundTrip(code: seq<char>, pos: Position, other: nat)
    requires OffsetOf(code, pos) != -1
    requires other <= |code| && PositionAt(code, other) == pos
    ensures PositionAt(code, OffsetOf(code, pos)) == pos
    ensures other == OffsetOf(code, pos)
  {
    PositionAtInjective(code, other, OffsetOf(code, pos));
  }

  /** The end-of-buffer position, and every position at or after it, is never
      found: the scan stops before it looks at offset |code|. This covers
      (1, 1) on an empty buffer and every line past the last. */
  lemma AtOrPastEndNotFound(code: seq<char>, pos: Position)
    requires !Before(pos, PositionAt(code, |code|))
    ensures OffsetOf(code, pos) == -1
  {
    forall o | 0 <= o < |code|
      ensures PositionAt(code, o) != pos
    {
      PositionAtIncreasing(code, o, |code|);
    }
  }

  /** A column past the line break that ends line `lineNumber` is never found.
      `newline` is the offset of that line break. */
  lemma PastLineEndNotFound(code: seq<char>, newline: nat, pos: Position)
    requires newline < |code| && code[newline] == '\n'
    requires pos.lineNumber == PositionAt(code, newline).lineNumber
    requires pos.column > PositionAt(code, newline).column
    ensures OffsetOf(code, pos) == -1
  {
    forall o | 0 <= o < |code|
      ensures PositionAt(code, o) != pos
    {
      if o < newline {
        PositionAtIncreasing(code, o, newline);
      } else if o > newline + 1 {
        PositionAtIncreasing(code, newline + 1, o);
      }
    }
  }

  /** As written, the cursor after the last character is lost: on the buffer
      "a" the end position (1, 2) is where the cursor sits after typing the
      character, yet no offset is found for it. */
  lemma EndCursorLost()
    ensures PositionAt("a", 1) == Position(1, 2)
    ensures OffsetOf("a", Position(1, 2)) == -1
  {
  }

  /** The offset of a cursor position, the end of the buffer included: what
      `OffsetOf` gives, or |code| for the end-of-buffer position. */
  function CursorOffsetOf(code: seq<char>, pos: Position): (r: int)
    ensures r == -1 || 0 <= r <= |code|
    ensures r != -1 ==> PositionAt(code, r) == pos
    ensures r == -1 ==> forall o: nat :: 0 <= o <= |code| ==> PositionAt(code, o) != pos
    ensures (forall o: nat :: 0 <= o <= |code| ==> PositionAt(code, o) != pos) ==> r == -1
  {
    if OffsetOf(code, pos) != -1 then OffsetOf(code, pos)
    else if PositionAt(code, |code|) == pos then |code|
    else -1
  }

  /** The scan of `ComputeOffset` with one more comparison once the buffer is
      exhausted, so that the end position is found too. */
  method ComputeCursorOffset(code: seq<char>, pos: Position) returns (offset: int)
    ensures offset == CursorOffsetOf(code, pos)
  {
    var line, col := 1, 1;
    var o: nat := 0;
    while o < |code|
      invariant o <= |code|
      invariant Position(line, col) == PositionAt(code, o)
      invariant FirstMatchFrom(code, pos, o) == OffsetOf(code, pos)
    {
      if line == pos.lineNumber && col == pos.column {
        return o;
      }
      if code[o] == '\n' {
        line, col := line + 1, 1;
      } else {
        col := col + 1;
      }
      o := o + 1;
    }
    if line == pos.lineNumber && col == pos.column {
      return o;
    }
    return -1;
  }

  /** With the correction, every offset up to and including the end of the
      buffer survives offset → position → offset. */
  lemma CursorOffsetRoundTrip(code: seq<char>, offset: nat)
    requires offset <= |code|
    ensures CursorOffsetOf(code, PositionAt(code, offset)) == offset
  {
    var r := CursorOffsetOf(code, PositionAt(code, offset));
    assert r != -1;
    PositionAtInjective(code, r, offset);
  }
}
