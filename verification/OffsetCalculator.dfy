/**
 Row and column offsets applied to a byte range of UTF-8 text: a walk over the
 lines between the position and its target, against the table of all line starts.
 */
module OffsetCalculator {
  import opened Wrappers

  type Byte = b: int | 0 <= b < 256
  type Scalar = c: int | 0 <= c < 0xD800 || 0xE000 <= c < 0x110000

  /** A 64-bit `usize`, and the `isize::MAX` bytes no allocation exceeds. */
  const USIZE_MAX := 0xFFFF_FFFF_FFFF_FFFF
  const LONGEST_TEXT := 0x7FFF_FFFF_FFFF_FFFF
  type Usize = n: int | 0 <= n <= 0xFFFF_FFFF_FFFF_FFFF
  type I32 = n: int | -0x8000_0000 <= n <= 0x7FFF_FFFF

  const NEWLINE: Byte := 0x0A

  // ---------------------------------------------------------------- UTF-8 (section 3 of RFC 3629)

  function EncodeScalar(c: Scalar): (s: seq<Byte>)
    ensures 1 <= |s| <= 4 && !IsContinuation(s[0]) && forall k | 0 < k < |s| :: IsContinuation(s[k])
    ensures s[0] < 0x80 ==> |s| == 1
  {
    if c < 0x80 then [c]
    else if c < 0x800 then [0xC0 + c / 0x40, 0x80 + c % 0x40]
    else if c < 0x1_0000 then [0xE0 + c / 0x1000, 0x80 + c / 0x40 % 0x40, 0x80 + c % 0x40]
    else [0xF0 + c / 0x4_0000, 0x80 + c / 0x1000 % 0x40, 0x80 + c / 0x40 % 0x40, 0x80 + c % 0x40]
  }

  function Encode(cs: seq<Scalar>): seq<Byte> {
    if cs == [] then [] else Encode(cs[..|cs| - 1]) + EncodeScalar(cs[|cs| - 1])
  }

  ghost predicate IsUtf8(text: seq<Byte>) {
    exists cs :: text == Encode(cs)
  }

  predicate IsContinuation(b: Byte) { 0x80 <= b < 0xC0 }

  /** `str::is_char_boundary`. */
  predicate IsBoundary(text: seq<Byte>, i: int) {
    i == 0 || i == |text| || (0 < i < |text| && !IsContinuation(text[i]))
  }

  /** An index is a boundary exactly when whole characters come before it. */
  lemma {:induction false} BoundariesEndPrefixes(cs: seq<Scalar>, i: nat)
    requires i <= |Encode(cs)|
    ensures IsBoundary(Encode(cs), i) <==> EndsPrefix(cs, i)
  {
    if cs == [] {
      assert |Encode(cs[..0])| == 0;
    } else {
      var n := |cs| - 1;
      PrefixesGrow(cs, n);
      if i < |Encode(cs[..n])| {
        BoundariesEndPrefixes(cs[..n], i);
        BoundaryInFront(cs, cs[..n], i);
      } else {
        BoundaryInLast(cs, i);
      }
    }
  }

  /** Some number of whole characters takes `i` bytes. */
  ghost predicate EndsPrefix(cs: seq<Scalar>, i: nat) {
    exists k :: 0 <= k <= |cs| && |Encode(cs[..k])| == i
  }

  lemma BoundaryInFront(cs: seq<Scalar>, front: seq<Scalar>, i: nat)
    requires cs != [] && front == cs[..|cs| - 1] && i < |Encode(front)|
    ensures IsBoundary(Encode(cs), i) <==> IsBoundary(Encode(front), i)
    ensures EndsPrefix(cs, i) <==> EndsPrefix(front, i)
  {
    if EndsPrefix(cs, i) {
      var k :| 0 <= k <= |cs| && |Encode(cs[..k])| == i;
      assert cs[..|cs|] == cs;
      assert k < |cs| && front[..k] == cs[..k];
    }
    if EndsPrefix(front, i) {
      var k :| 0 <= k <= |front| && |Encode(front[..k])| == i;
      assert front[..k] == cs[..k];
    }
  }

  lemma BoundaryInLast(cs: seq<Scalar>, i: nat)
    requires cs != [] && |Encode(cs[..|cs| - 1])| <= i <= |Encode(cs)|
    requires PrefixesGrowTo(cs, |cs| - 1)
    ensures IsBoundary(Encode(cs), i) <==> EndsPrefix(cs, i)
  {
    var n := |cs| - 1;
    var front := Encode(cs[..n]);
    assert cs[..n + 1] == cs;
    if i == |front| {
      assert |Encode(cs[..n])| == i;
    } else {
      assert i < |Encode(cs)| ==> Encode(cs)[i] == EncodeScalar(cs[n])[i - |front|];
    }
  }

  predicate PrefixesGrowTo(cs: seq<Scalar>, n: nat)
    requires n <= |cs|
  {
    forall k | 0 <= k < n :: |Encode(cs[..k])| < |Encode(cs[..n])|
  }

  lemma {:induction false} PrefixesGrow(cs: seq<Scalar>, n: nat)
    requires n <= |cs|
    ensures PrefixesGrowTo(cs, n)
  {
    if n > 0 {
      PrefixesGrow(cs, n - 1);
      assert cs[..n][..n - 1] == cs[..n - 1];
    }
  }

  /** What follows a newline starts a character. */
  lemma {:induction false} AfterNewline(cs: seq<Scalar>, i: nat)
    requires i < |Encode(cs)| && Encode(cs)[i] == NEWLINE
    ensures IsBoundary(Encode(cs), i + 1)
  {
    var n := |cs| - 1;
    var front := Encode(cs[..n]);
    if i < |front| {
      AfterNewline(cs[..n], i);
    }
  }

  lemma NewlineBoundary(text: seq<Byte>, i: nat)
    requires IsUtf8(text) && i < |text| && text[i] == NEWLINE
    ensures IsBoundary(text, i) && IsBoundary(text, i + 1)
  {
    var cs :| text == Encode(cs);
    AfterNewline(cs, i);
  }

  /** `str::floor_char_boundary`: the last boundary at or before `index`. */
  function Floor(text: seq<Byte>, index: nat): (b: nat)
    ensures b <= |text| && b <= index && IsBoundary(text, b)
  {
    if index >= |text| then |text|
    else if IsBoundary(text, index) then index
    else Floor(text, index - 1)
  }

  lemma {:induction false} FloorIsLast(text: seq<Byte>, index: nat)
    ensures forall k | Floor(text, index) < k <= index :: !IsBoundary(text, k)
  {
    if index < |text| && !IsBoundary(text, index) {
      FloorIsLast(text, index - 1);
    }
  }

  /** `str::ceil_char_boundary`: the first boundary at or after `index`. */
  function Ceil(text: seq<Byte>, index: nat): (b: nat)
    requires index <= |text|
    ensures index <= b <= |text| && IsBoundary(text, b)
    decreases |text| - index
  {
    if IsBoundary(text, index) then index else Ceil(text, index + 1)
  }

  lemma {:induction false} CeilIsFirst(text: seq<Byte>, index: nat)
    requires index <= |text|
    ensures forall k | index <= k < Ceil(text, index) :: !IsBoundary(text, k)
    decreases |text| - index
  {
    if !IsBoundary(text, index) {
      CeilIsFirst(text, index + 1);
    }
  }

  // ---------------------------------------------------------------- searching for newlines

  /** `text[from..].find('\n')`, as an index into `text`. Slicing inside a character
      would panic, so `from` must be a boundary. */
  function FindNewline(text: seq<Byte>, from: nat): (r: Option<nat>)
    requires from <= |text| && IsBoundary(text, from)
  {
    FirstNewline(text, from)
  }

  function FirstNewline(text: seq<Byte>, from: nat): (r: Option<nat>)
    requires from <= |text|
    ensures r.Some? ==> from <= r.value < |text| && text[r.value] == NEWLINE
    decreases |text| - from
  {
    if from == |text| then None else if text[from] == NEWLINE then Some(from) else FirstNewline(text, from + 1)
  }

  lemma {:induction false} FirstNewlineIsFirst(text: seq<Byte>, from: nat)
    requires from <= |text|
    ensures var r := FirstNewline(text, from);
            forall k | from <= k < (if r.Some? then r.value else |text|) :: text[k] != NEWLINE
    decreases |text| - from
  {
    if from < |text| && text[from] != NEWLINE {
      FirstNewlineIsFirst(text, from + 1);
    }
  }

  /** `text[..to].rfind('\n')`. */
  function RfindNewline(text: seq<Byte>, to: nat): (r: Option<nat>)
    requires to <= |text| && IsBoundary(text, to)
  {
    LastNewline(text, to)
  }

  function LastNewline(text: seq<Byte>, to: nat): (r: Option<nat>)
    requires to <= |text|
    ensures r.Some? ==> r.value < to && text[r.value] == NEWLINE
  {
    if to == 0 then None else if text[to - 1] == NEWLINE then Some(to - 1) else LastNewline(text, to - 1)
  }

  lemma {:induction false} LastNewlineIsLast(text: seq<Byte>, to: nat)
    requires to <= |text|
    ensures var r := LastNewline(text, to);
            forall k | (if r.Some? then r.value + 1 else 0) <= k < to :: text[k] != NEWLINE
  {
    if to > 0 && text[to - 1] != NEWLINE {
      LastNewlineIsLast(text, to - 1);
    }
  }

  // ---------------------------------------------------------------- the line table

  /** Where every line starts: at 0, and after each newline. */
  function LineStarts(text: seq<Byte>): (starts: seq<nat>)
    ensures |starts| > 0
  {
    if text == [] then [0]
    else
      var n := |text| - 1;
      LineStarts(text[..n]) + if text[n] == NEWLINE then [n + 1] else []
  }

  /** The line a position is on. */
  function LineOf(text: seq<Byte>, p: nat): nat
    requires p <= |text|
  {
    |LineStarts(text[..p])| - 1
  }

  function Last(starts: seq<nat>): nat
    requires starts != []
  {
    starts[|starts| - 1]
  }

  lemma {:induction false} TableOfPrefix(text: seq<Byte>, p: nat)
    requires p <= |text|
    ensures LineStarts(text[..p]) <= LineStarts(text)
    ensures (forall k | p <= k < |text| :: text[k] != NEWLINE) ==> LineStarts(text[..p]) == LineStarts(text)
  {
    var n := |text| - 1;
    if p <= n {
      TableOfPrefix(text[..n], p);
      assert text[..n][..p] == text[..p];
    } else {
      assert text[..p] == text;
    }
  }

  /** Between two positions with no newline in between the table does not grow. */
  lemma SameTable(text: seq<Byte>, p: nat, q: nat)
    requires p <= q <= |text|
    requires forall k | p <= k < q :: text[k] != NEWLINE
    ensures LineStarts(text[..p]) == LineStarts(text[..q])
  {
    TableOfPrefix(text[..q], p);
    assert text[..q][..p] == text[..p];
  }

  lemma TableAfterNewline(text: seq<Byte>, i: nat)
    requires i < |text| && text[i] == NEWLINE
    ensures LineStarts(text[..i + 1]) == LineStarts(text[..i]) + [i + 1]
  {
    assert text[..i + 1][..i] == text[..i];
  }

  /** Searching back for a newline finds the start of the line. */
  lemma StartOfLine(text: seq<Byte>, p: nat)
    requires p <= |text|
    ensures var nl := LastNewline(text, p);
            Last(LineStarts(text[..p])) == if nl.Some? then nl.value + 1 else 0
  {
    var nl := LastNewline(text, p);
    LastNewlineIsLast(text, p);
    if nl.Some? {
      SameTable(text, nl.value + 1, p);
      TableAfterNewline(text, nl.value);
    } else {
      SameTable(text, 0, p);
    }
  }

  /** `pos` starts line number `line`. */
  predicate StartsLine(text: seq<Byte>, pos: nat, line: nat) {
    && pos <= |text|
    && |LineStarts(text[..pos])| == line + 1
    && Last(LineStarts(text[..pos])) == pos
  }

  predicate BeginsLine(text: seq<Byte>, q: int) {
    q == 0 || (1 <= q <= |text| && text[q - 1] == NEWLINE)
  }

  /** The table lists, in order, position 0 and every position after a newline. */
  lemma {:induction false} TableListsLineStarts(text: seq<Byte>)
    ensures forall q: nat :: q in LineStarts(text) <==> BeginsLine(text, q)
    ensures forall j, k | 0 <= j < k < |LineStarts(text)| :: LineStarts(text)[j] < LineStarts(text)[k]
  {
    if text != [] {
      var n := |text| - 1;
      var front := LineStarts(text[..n]);
      TableListsLineStarts(text[..n]);
      forall j | 0 <= j < |front|
        ensures front[j] <= n
      {
        assert front[j] in front;
        assert BeginsLine(text[..n], front[j]);
      }
      forall q: nat
        ensures q in LineStarts(text) <==> BeginsLine(text, q)
      {
        assert q in front <==> BeginsLine(text[..n], q);
      }
    }
  }

  lemma StartInTable(text: seq<Byte>, pos: nat, line: nat)
    requires StartsLine(text, pos, line)
    ensures line < |LineStarts(text)| && LineStarts(text)[line] == pos
  {
    TableOfPrefix(text, pos);
  }

  lemma NextLine(text: seq<Byte>, pos: nat, line: nat)
    requires StartsLine(text, pos, line)
    ensures var nl := FirstNewline(text, pos);
            if nl.Some? then StartsLine(text, nl.value + 1, line + 1) else line == |LineStarts(text)| - 1
  {
    var nl := FirstNewline(text, pos);
    FirstNewlineIsFirst(text, pos);
    if nl.Some? {
      SameTable(text, pos, nl.value);
      TableAfterNewline(text, nl.value);
    } else {
      TableOfPrefix(text, pos);
    }
  }

  lemma LineStartFollowsNewline(text: seq<Byte>, pos: nat, line: nat)
    requires StartsLine(text, pos, line)
    ensures pos == 0 <==> line == 0
    ensures pos > 0 ==> text[pos - 1] == NEWLINE
  {
    StartOfLine(text, pos);
    if pos == 0 {
      assert text[..0] == [];
    } else {
      TableAfterNewline(text, pos - 1);
    }
  }

  lemma PreviousLine(text: seq<Byte>, pos: nat, line: nat)
    requires StartsLine(text, pos, line) && pos > 0
    ensures line > 0 && text[pos - 1] == NEWLINE
    ensures var nl := LastNewline(text, pos - 1);
            StartsLine(text, if nl.Some? then nl.value + 1 else 0, line - 1)
  {
    LineStartFollowsNewline(text, pos, line);
    TableAfterNewline(text, pos - 1);
    var nl := LastNewline(text, pos - 1);
    LastNewlineIsLast(text, pos - 1);
    StartOfLine(text, pos - 1);
    SameTable(text, if nl.Some? then nl.value + 1 else 0, pos - 1);
  }

  lemma OwnLine(text: seq<Byte>, p: nat)
    requires p <= |text|
    ensures var nl := LastNewline(text, p);
            StartsLine(text, if nl.Some? then nl.value + 1 else 0, LineOf(text, p))
  {
    StartOfLine(text, p);
    var nl := LastNewline(text, p);
    LastNewlineIsLast(text, p);
    SameTable(text, if nl.Some? then nl.value + 1 else 0, p);
  }

  lemma LineStartIsBoundary(text: seq<Byte>, pos: nat, line: nat)
    requires IsUtf8(text) && StartsLine(text, pos, line)
    ensures IsBoundary(text, pos)
  {
    LineStartFollowsNewline(text, pos, line);
    if pos > 0 {
      NewlineBoundary(text, pos - 1);
    }
  }

  // ---------------------------------------------------------------- positions

  function Clamp(x: int, lo: int, hi: int): int {
    if x < lo then lo else if x > hi then hi else x
  }

  /** The specification: find the position's line and column, move by rows in the
      table of all line starts, and put the column and the column offset back. */
  function Moved(text: seq<Byte>, position: nat, rows: int, columns: int): int {
    if rows == 0 then Clamp(position + columns, 0, USIZE_MAX)
    else
      var p := Floor(text, position);
      var starts := LineStarts(text);
      LineOfIsInTable(text, p);
      var column := p - starts[LineOf(text, p)];
      Clamp(starts[Clamp(LineOf(text, p) + rows, 0, |starts| - 1)] + column + columns, 0, USIZE_MAX)
  }

  lemma LineOfIsInTable(text: seq<Byte>, p: nat)
    requires p <= |text|
    ensures LineOf(text, p) < |LineStarts(text)|
  {
    TableOfPrefix(text, p);
  }

  /** `apply_column_offset`: the `i128` sum, saturated on both sides. */
  function ApplyColumnOffset(position: Usize, offset: I32): (r: Usize)
    ensures r == Clamp(position + offset, 0, USIZE_MAX)
  {
    var result := position + offset;
    if result <= 0 then 0 else if result <= USIZE_MAX then result else USIZE_MAX
  }

  lemma {:induction false} TableLine(text: seq<Byte>, line: nat)
    requires line < |LineStarts(text)|
    ensures StartsLine(text, LineStarts(text)[line], line)
  {
    var n := |text| - 1;
    if text == [] {
      assert text[..0] == [];
    } else if line < |LineStarts(text[..n])| {
      TableLine(text[..n], line);
      var q := LineStarts(text)[line];
      assert text[..n][..q] == text[..q];
    } else {
      assert text[..|text|] == text;
    }
  }

  /** The text can be sliced at every line start, and before the newline in front of it. */
  lemma LineInTable(text: seq<Byte>, starts: seq<nat>, line: nat)
    requires IsUtf8(text) && starts == LineStarts(text) && line < |starts|
    ensures starts[line] <= |text| && IsBoundary(text, starts[line])
    ensures starts[line] == 0 <==> line == 0
    ensures line > 0 ==> IsBoundary(text, starts[line] - 1)
  {
    TableLine(text, line);
    LineStartIsBoundary(text, starts[line], line);
    LineStartFollowsNewline(text, starts[line], line);
    if line > 0 {
      NewlineBoundary(text, starts[line] - 1);
    }
  }

  /** From a line of the table, searching on finds the next one, if there is one. */
  lemma OneRowDown(text: seq<Byte>, starts: seq<nat>, line: nat)
    requires starts == LineStarts(text) && line < |starts| && starts[line] <= |text|
    ensures var nl := FirstNewline(text, starts[line]);
            if line + 1 < |starts| then nl.Some? && nl.value + 1 == starts[line + 1] else nl.None?
  {
    TableLine(text, line);
    NextLine(text, starts[line], line);
    var nl := FirstNewline(text, starts[line]);
    if nl.Some? {
      StartInTable(text, nl.value + 1, line + 1);
    }
  }

  /** From a line of the table, searching back before its newline finds the previous one. */
  lemma OneRowUp(text: seq<Byte>, starts: seq<nat>, line: nat)
    requires starts == LineStarts(text) && 0 < line < |starts| && 0 < starts[line] <= |text|
    ensures var nl := LastNewline(text, starts[line] - 1);
            starts[line - 1] == if nl.Some? then nl.value + 1 else 0
  {
    TableLine(text, line);
    PreviousLine(text, starts[line], line);
    var nl := LastNewline(text, starts[line] - 1);
    StartInTable(text, if nl.Some? then nl.value + 1 else 0, line - 1);
  }

  /** From the start of a line, down by `rows`; past the last line, that line's start. */
  method WalkDown(text: seq<Byte>, start: nat, rows: nat, ghost line: nat, ghost starts: seq<nat>) returns (pos: nat)
    requires IsUtf8(text) && starts == LineStarts(text) && line < |starts| && start == starts[line]
    ensures pos == starts[Clamp(line + rows, 0, |starts| - 1)] <= |text|
  {
    pos := start;
    ghost var target: nat := line;
    var k := 0;
    while k < rows
      invariant 0 <= k <= rows && target == Clamp(line + k, 0, |starts| - 1)
      invariant pos == starts[target]
    {
      LineInTable(text, starts, target);
      OneRowDown(text, starts, target);
      match FindNewline(text, pos) {
        case Some(nl) =>
          pos, target := nl + 1, target + 1;
        case None => break;
      }
      k := k + 1;
    }
    LineInTable(text, starts, target);
  }

  /** From the start of a line, up by `rows`; past the first line, that line's start. */
  method WalkUp(text: seq<Byte>, start: nat, rows: nat, ghost line: nat, ghost starts: seq<nat>) returns (pos: nat)
    requires IsUtf8(text) && starts == LineStarts(text) && line < |starts| && start == starts[line]
    ensures pos == starts[Clamp(line - rows, 0, |starts| - 1)] <= |text|
  {
    pos := start;
    ghost var target: nat := line;
    var k := 0;
    while k < rows
      invariant 0 <= k <= rows && target == Clamp(line - k, 0, |starts| - 1)
      invariant pos == starts[target]
    {
      LineInTable(text, starts, target);
      if pos == 0 {
        break;
      }
      OneRowUp(text, starts, target);
      var nl := RfindNewline(text, pos - 1);
      pos, target := if nl.Some? then nl.value + 1 else 0, target - 1;
      k := k + 1;
    }
    LineInTable(text, starts, target);
  }

  lemma LineOfPosition(text: seq<Byte>, p: nat, starts: seq<nat>)
    requires p <= |text| && starts == LineStarts(text)
    ensures LineOf(text, p) < |starts|
    ensures var nl := LastNewline(text, p);
            starts[LineOf(text, p)] == if nl.Some? then nl.value + 1 else 0
  {
    OwnLine(text, p);
    var nl := LastNewline(text, p);
    StartInTable(text, if nl.Some? then nl.value + 1 else 0, LineOf(text, p));
  }

  /** Putting the column and the column offset back saturates once, at the end. */
  lemma ColumnPutBack(pos: nat, p: nat, lineStart: nat, columns: I32)
    requires lineStart <= p <= LONGEST_TEXT && pos <= LONGEST_TEXT
    ensures pos + SaturatingSub(p, lineStart) <= USIZE_MAX
    ensures ApplyColumnOffset(SaturatingAdd(pos, SaturatingSub(p, lineStart)), columns) ==
            Clamp(pos + (p - lineStart) + columns, 0, USIZE_MAX)
  {
  }

  lemma MovedAcrossRows(text: seq<Byte>, position: nat, rows: int, columns: int, starts: seq<nat>)
    requires rows != 0 && starts == LineStarts(text)
    ensures var p := Floor(text, position);
            && LineOf(text, p) < |starts|
            && Moved(text, position, rows, columns) ==
               Clamp(starts[Clamp(LineOf(text, p) + rows, 0, |starts| - 1)] + (p - starts[LineOf(text, p)]) + columns,
                     0, USIZE_MAX)
  {
    LineOfIsInTable(text, Floor(text, position));
  }

  /** The row walk gives what the whole table gives. */
  method ApplyOffsetToPosition(text: seq<Byte>, position: Usize, rows: I32, columns: I32) returns (r: Usize)
    requires IsUtf8(text) && |text| <= LONGEST_TEXT
    ensures r == Moved(text, position, rows, columns)
  {
    if rows == 0 {
      return ApplyColumnOffset(position, columns);
    }
    var snapped := Floor(text, position);
    var newline := RfindNewline(text, snapped);
    var currentLineStart: nat := if newline.Some? then newline.value + 1 else 0;
    ghost var starts, line := LineStarts(text), LineOf(text, snapped);
    LineOfPosition(text, snapped, starts);
    var pos;
    if rows > 0 {
      pos := WalkDown(text, currentLineStart, rows, line, starts);
    } else {
      pos := WalkUp(text, currentLineStart, 0 - rows, line, starts);
    }
    var column := SaturatingSub(snapped, currentLineStart);
    MovedAcrossRows(text, position, rows, columns, starts);
    ColumnPutBack(pos, snapped, currentLineStart, columns);
    r := ApplyColumnOffset(SaturatingAdd(pos, column), columns);
  }

  function SaturatingAdd(a: Usize, b: Usize): Usize { if a + b > USIZE_MAX then USIZE_MAX else a + b }

  function Min(a: nat, b: nat): nat { if a < b then a else b }

  // ---------------------------------------------------------------- ranges

  datatype Range = Range(start: nat, end: nat)

  datatype Offset = Offset(startRow: I32, startColumn: I32, endRow: I32, endColumn: I32)

  /** A range that can be sliced out of `text`. */
  predicate IsAligned(text: seq<Byte>, r: Range) {
    r.start <= r.end <= |text| && IsBoundary(text, r.start) && IsBoundary(text, r.end)
  }

  predicate Inside(r: Range, lo: int, hi: int) { lo <= r.start && r.end <= hi }

  /** `r` is the largest sliceable range between `lo` and `hi`; when there is none,
      it is empty, at the last boundary up to `hi`. */
  ghost predicate IsLargestAligned(text: seq<Byte>, lo: nat, hi: nat, r: Range) {
    && IsAligned(text, r)
    && (forall s :: IsAligned(text, s) && Inside(s, lo, hi) ==>
          r.start <= s.start && s.end <= r.end && Inside(r, lo, hi))
    && (!Inside(r, lo, hi) ==> r == Range(Floor(text, hi), Floor(text, hi)))
  }

  lemma SnappedIsLargest(text: seq<Byte>, lo: nat, hi: nat)
    requires lo <= |text| && hi <= |text|
    ensures var a, b := Ceil(text, lo), Floor(text, hi);
            IsLargestAligned(text, lo, hi, if a <= b then Range(a, b) else Range(b, b))
  {
    var a, b := Ceil(text, lo), Floor(text, hi);
    CeilIsFirst(text, lo);
    FloorIsLast(text, hi);
    forall s | IsAligned(text, s) && Inside(s, lo, hi)
      ensures a <= s.start && s.end <= b
    {
      assert s.start < a ==> false;
      assert s.end > b ==> false;
    }
  }

  /** `calculate_effective_range`: safe to slice whatever the offset and the range. */
  method CalculateEffectiveRange(text: seq<Byte>, start: Usize, end: Usize, offset: Offset) returns (r: Range)
    requires IsUtf8(text) && |text| <= LONGEST_TEXT
    ensures var lo := Moved(text, start, offset.startRow, offset.startColumn);
            var hi := Moved(text, end, offset.endRow, offset.endColumn);
            IsLargestAligned(text, Clamp(lo, 0, |text|), Clamp(hi, 0, |text|), r)
  {
    var rawStart, rawEnd;
    if offset.startRow == 0 && offset.endRow == 0 {
      rawStart := ApplyColumnOffset(start, offset.startColumn);
      rawEnd := ApplyColumnOffset(end, offset.endColumn);
    } else {
      rawStart := ApplyOffsetToPosition(text, start, offset.startRow, offset.startColumn);
      rawEnd := ApplyOffsetToPosition(text, end, offset.endRow, offset.endColumn);
    }
    var lo, hi := Min(rawStart, |text|), Min(rawEnd, |text|);
    SnappedIsLargest(text, lo, hi);
    var snappedStart, snappedEnd := Ceil(text, lo), Floor(text, hi);
    if snappedStart <= snappedEnd {
      r := Range(snappedStart, snappedEnd);
    } else {
      r := Range(snappedEnd, snappedEnd);
    }
  }
}
