/** The text screen with in-place scrolling (src/loader/console.rs, `VioManager`). */
module Console {
  import opened Wrappers
  import opened Bytes
  import opened Terminal

  function Idx(cols: nat, r: nat, c: nat): nat {
    r * cols + c
  }

  lemma IdxInside(cols: nat, rows: nat, r: nat, c: nat)
    requires r < rows && c < cols
    ensures Idx(cols, r, c) < rows * cols
  {
    assert (r + 1) * cols <= rows * cols;
    assert (r + 1) * cols == r * cols + cols;
  }

  lemma IdxApart(cols: nat, r: nat, c: nat, r': nat, c': nat)
    requires c < cols && c' < cols && (r != r' || c != c')
    ensures Idx(cols, r, c) != Idx(cols, r', c')
  {
    if r < r' {
      assert (r + 1) * cols <= r' * cols;
      assert (r + 1) * cols == r * cols + cols;
    } else if r' < r {
      assert (r' + 1) * cols <= r * cols;
      assert (r' + 1) * cols == r' * cols + cols;
    }
  }

  /** A row-major screen of `rows` by `cols` has `n` positions. */
  predicate Sized(n: nat, rows: nat, cols: nat) {
    && n == rows * cols
    && forall r, c :: 0 <= r < rows && 0 <= c < cols ==> Idx(cols, r, c) < n
  }

  lemma SizedProduct(rows: nat, cols: nat)
    ensures rows * cols >= 0 && Sized(rows * cols, rows, cols)
  {
    forall r, c | 0 <= r < rows && 0 <= c < cols
      ensures Idx(cols, r, c) < rows * cols
    {
      IdxInside(cols, rows, r, c);
    }
  }

  function RowOf(buf: seq<Cell>, raw: seq<byte>, rows: nat, cols: nat, r: nat): (l: Line)
    requires Sized(|buf|, rows, cols) && |raw| == |buf| && r < rows
    ensures |l| == cols
  {
    seq(cols, c requires 0 <= c < cols => Glyph(buf[Idx(cols, r, c)], raw[Idx(cols, r, c)]))
  }

  /** The screen, row by row: `buffer` and `raw_bytes` together. */
  function RowsOf(buf: seq<Cell>, raw: seq<byte>, rows: nat, cols: nat): (s: seq<Line>)
    requires Sized(|buf|, rows, cols) && |raw| == |buf|
    ensures |s| == rows && forall r :: 0 <= r < rows ==> |s[r]| == cols
  {
    seq(rows, r requires 0 <= r < rows => RowOf(buf, raw, rows, cols, r))
  }

  lemma SetOne(buf: seq<Cell>, raw: seq<byte>, rows: nat, cols: nat, r: nat, c: nat, g: Glyph)
    requires Sized(|buf|, rows, cols) && |raw| == |buf| && r < rows && c < cols
    ensures var i, s := Idx(cols, r, c), RowsOf(buf, raw, rows, cols);
            i < |buf| && RowsOf(buf[i := g.cell], raw[i := g.raw], rows, cols) == s[r := s[r][c := g]]
  {
    hide Idx;
    var i, s := Idx(cols, r, c), RowsOf(buf, raw, rows, cols);
    var after, want := RowsOf(buf[i := g.cell], raw[i := g.raw], rows, cols), s[r := s[r][c := g]];
    forall r' | 0 <= r' < rows
      ensures after[r'] == want[r']
    {
      forall c' | 0 <= c' < cols
        ensures after[r'][c'] == want[r'][c']
      {
        if r' != r || c' != c {
          IdxApart(cols, r, c, r', c');
        }
      }
    }
  }

  /** Rows `top..bottom` moved up by `lines`, the vacated ones filled; zero lines clears the region. */
  function ScrolledUp(s: seq<Line>, top: nat, bottom: nat, lines: nat, fill: Line): (r: seq<Line>)
    ensures |r| == |s|
  {
    seq(|s|, r requires 0 <= r < |s| =>
      if r < top || bottom < r || bottom >= |s| then s[r]
      else if lines > 0 && r + lines <= bottom then s[r + lines]
      else fill)
  }

  // ----- the loops of the two scrolls, part-way -----

  /** Rows from `from` up to `to` already replaced by `line`. */
  function FilledRows(s: seq<Line>, from: nat, to: nat, line: Line): (r: seq<Line>)
    ensures |r| == |s|
  {
    seq(|s|, r requires 0 <= r < |s| => if from <= r < to then line else s[r])
  }

  /** Rows from `from` up to `to` already replaced by the rows `n` below. */
  function RaisedRows(s: seq<Line>, from: nat, to: nat, n: nat): (r: seq<Line>)
    requires to + n <= |s|
    ensures |r| == |s|
  {
    seq(|s|, r requires 0 <= r < |s| => if from <= r < to then s[r + n] else s[r])
  }

  /** Rows from `from` up to `to` already replaced by the rows `n` above. */
  function LoweredRows(s: seq<Line>, from: nat, to: nat, n: nat): (r: seq<Line>)
    requires n <= from && to <= |s|
    ensures |r| == |s|
  {
    seq(|s|, r requires 0 <= r < |s| => if from <= r < to then s[r - n] else s[r])
  }

  lemma FillStep(s: seq<Line>, from: nat, row: nat, line: Line)
    requires from <= row < |s|
    ensures FilledRows(s, from, row + 1, line) == FilledRows(s, from, row, line)[row := line]
  {
  }

  lemma RaiseStep(s: seq<Line>, from: nat, row: nat, n: nat)
    requires from <= row && row + n < |s| && n > 0
    ensures RaisedRows(s, from, row + 1, n) == RaisedRows(s, from, row, n)[row := RaisedRows(s, from, row, n)[row + n]]
  {
  }

  lemma LowerStep(s: seq<Line>, row: nat, to: nat, n: nat)
    requires 0 < n <= row < to <= |s|
    ensures LoweredRows(s, row, to, n) == LoweredRows(s, row + 1, to, n)[row := LoweredRows(s, row + 1, to, n)[row - n]]
  {
  }

  lemma FilledNothing(s: seq<Line>, from: nat, line: Line)
    ensures FilledRows(s, from, from, line) == s
  {
  }

  lemma RaisedNothing(s: seq<Line>, from: nat, n: nat)
    requires from + n <= |s|
    ensures RaisedRows(s, from, from, n) == s
  {
  }

  lemma LoweredNothing(s: seq<Line>, to: nat, n: nat)
    requires n <= to <= |s|
    ensures LoweredRows(s, to, to, n) == s
  {
  }

  lemma UpDone(s: seq<Line>, top: nat, bottom: nat, lines: nat, n: nat, line: Line)
    requires top <= bottom < |s| && lines > 0 && n == (if lines < bottom - top + 1 then lines else bottom - top + 1)
    ensures FilledRows(RaisedRows(s, top, bottom - n + 1, n), bottom - n + 1, bottom + 1, line) == ScrolledUp(s, top, bottom, lines, line)
  {
  }

  lemma DownDone(s: seq<Line>, top: nat, bottom: nat, lines: nat, n: nat, line: Line)
    requires top <= bottom < |s| && lines > 0 && n == (if lines < bottom - top + 1 then lines else bottom - top + 1)
    ensures FilledRows(LoweredRows(s, top + n, bottom + 1, n), top, top + n, line) == ScrolledDown(s, top, bottom, lines, line)
  {
  }

  lemma ClearDone(s: seq<Line>, top: nat, bottom: nat, line: Line)
    requires top <= bottom < |s|
    ensures FilledRows(s, top, bottom + 1, line) == ScrolledUp(s, top, bottom, 0, line) == ScrolledDown(s, top, bottom, 0, line)
  {
  }

  lemma NothingScrolls(s: seq<Line>, top: nat, bottom: nat, lines: nat, line: Line)
    requires bottom >= |s|
    ensures ScrolledUp(s, top, bottom, lines, line) == s == ScrolledDown(s, top, bottom, lines, line)
  {
  }

  function ScrolledDown(s: seq<Line>, top: nat, bottom: nat, lines: nat, fill: Line): (r: seq<Line>)
    ensures |r| == |s|
  {
    seq(|s|, r requires 0 <= r < |s| =>
      if r < top || bottom < r || bottom >= |s| then s[r]
      else if lines > 0 && top + lines <= r then s[r - lines]
      else fill)
  }

  function Min(a: nat, b: nat): nat {
    if a < b then a else b
  }

  /** `n.saturating_sub(1)`. */
  function Last(n: nat): nat {
    if n == 0 then 0 else n - 1
  }

  /** A line cut or filled up to `cols` cells. */
  function ResizedLine(line: Line, cols: nat): (l: Line)
    ensures |l| == cols
  {
    seq(cols, c requires 0 <= c < cols => if c < |line| then line[c] else BLANK)
  }

  /** The screen with its first `n` rows copied over, the rest blank. */
  function CopiedRows(s: seq<Line>, n: nat, rows: nat, cols: nat): (r: seq<Line>)
    ensures |r| == rows && forall k :: 0 <= k < rows ==> |r[k]| == cols
  {
    seq(rows, r requires 0 <= r < rows => if r < n && r < |s| then ResizedLine(s[r], cols) else Filled(cols, BLANK))
  }

  function Resized(s: seq<Line>, rows: nat, cols: nat): (r: seq<Line>)
    ensures |r| == rows && forall k :: 0 <= k < rows ==> |r[k]| == cols
  {
    CopiedRows(s, |s|, rows, cols)
  }

  lemma SameSize(s: seq<Line>, cols: nat)
    requires forall r :: 0 <= r < |s| ==> |s[r]| == cols
    ensures Resized(s, |s|, cols) == s
  {
    forall r | 0 <= r < |s|
      ensures Resized(s, |s|, cols)[r] == s[r]
    {
    }
  }

  lemma BlankScreen(buf: seq<Cell>, raw: seq<byte>, rows: nat, cols: nat)
    requires Sized(|buf|, rows, cols) && |raw| == |buf|
    requires forall k :: 0 <= k < |buf| ==> buf[k] == BLANK.cell && raw[k] == BLANK.raw
    ensures RowsOf(buf, raw, rows, cols) == seq(rows, _ => Filled(cols, BLANK))
  {
    forall r | 0 <= r < rows
      ensures RowsOf(buf, raw, rows, cols)[r] == Filled(cols, BLANK)
    {
      forall c | 0 <= c < cols
        ensures RowOf(buf, raw, rows, cols, r)[c] == BLANK
      {
      }
    }
  }

  lemma CopiedNothing(s: seq<Line>, rows: nat, cols: nat)
    ensures CopiedRows(s, 0, rows, cols) == seq(rows, _ => Filled(cols, BLANK))
  {
  }

  lemma CopyStep(s: seq<Line>, r: nat, rows: nat, cols: nat)
    requires r < |s| && r < rows
    ensures CopiedRows(s, r, rows, cols)[r] == Filled(cols, BLANK)
    ensures var kept := Min(|s[r]|, cols);
            CopiedRows(s, r + 1, rows, cols) == CopiedRows(s, r, rows, cols)[r := s[r][..kept] + Filled(cols, BLANK)[kept..]]
  {
    var kept := Min(|s[r]|, cols);
    assert ResizedLine(s[r], cols) == s[r][..kept] + Filled(cols, BLANK)[kept..];
  }

  lemma CopyCell(line: Line, was: Line, c: nat)
    requires c < |line| && c < |was|
    ensures (line[..c] + was[c..])[c := line[c]] == line[..c + 1] + was[c + 1..]
  {
  }

  lemma CopiedAll(s: seq<Line>, cols: nat, rows: nat, newCols: nat)
    ensures CopiedRows(s, Min(|s|, rows), rows, newCols) == Resized(s, rows, newCols)
  {
  }

  /**
   * Scrolling a region down undoes scrolling it up, but for the rows that were lost at the
   * top: these hold the second filling.  Rows outside the region are as before all along.
   */
  lemma ScrollDownUndoesUp(s: seq<Line>, top: nat, bottom: nat, lines: nat, f: Line, g: Line, r: nat)
    requires top <= bottom < |s| && lines > 0 && r < |s|
    ensures var up := ScrolledUp(s, top, bottom, lines, f);
            var back := ScrolledDown(up, top, bottom, lines, g);
            && back[r] == (if top <= r <= bottom && r < top + lines then g else s[r])
            && (r < top || r > bottom ==> up[r] == s[r])
            && (top <= r <= bottom && bottom < r + lines ==> up[r] == f)
  {
  }

  /** A scroll by no lines clears the rows; one that reaches below the screen does nothing. */
  lemma NoLinesClear(s: seq<Line>, top: nat, bottom: nat, f: Line, r: nat)
    requires r < |s|
    ensures top <= r <= bottom < |s| ==> ScrolledUp(s, top, bottom, 0, f)[r] == f && ScrolledDown(s, top, bottom, 0, f)[r] == f
    ensures forall lines: nat :: bottom >= |s| ==> ScrolledUp(s, top, bottom, lines, f)[r] == s[r] && ScrolledDown(s, top, bottom, lines, f)[r] == s[r]
  {
  }

  /** A resized screen shows what both sizes have, and light grey blanks elsewhere. */
  lemma ResizedCellIs(s: seq<Line>, rows: nat, cols: nat, r: nat, c: nat)
    requires r < rows && c < cols
    ensures Resized(s, rows, cols)[r][c]
         == if r < |s| && c < |s[r]| then s[r][c] else Glyph(Cell(' ', 0x07), 0x20)
  {
    assert Resized(s, rows, cols)[r] == if r < |s| then ResizedLine(s[r], cols) else Filled(cols, BLANK);
  }

  /** Resizing to a larger screen and back restores every cell. */
  lemma GrowingLosesNothing(s: seq<Line>, cols: nat, rows: nat, newCols: nat)
    requires (forall r :: 0 <= r < |s| ==> |s[r]| == cols) && rows >= |s| && newCols >= cols
    ensures Resized(Resized(s, rows, newCols), |s|, cols) == s
  {
    var back := Resized(Resized(s, rows, newCols), |s|, cols);
    forall r | 0 <= r < |s|
      ensures back[r] == s[r]
    {
      assert back[r] == ResizedLine(ResizedLine(s[r], newCols), cols);
    }
  }

  /** One cell more of a row that replaces another from the left. */
  lemma RowStep(line: seq<Glyph>, was: seq<Glyph>, c: nat)
    requires c < |line| == |was|
    ensures (line[..c] + was[c..])[c := line[c]] == line[..c + 1] + was[c + 1..]
  {
  }

  // ----- sixteen-bit arithmetic -----

  /** Wrapping subtraction, as in a build without overflow checks. */
  function Minus16(a: u16, b: u16): u16 {
    (a - b) % TWO16
  }

  /** Wrapping addition. */
  function Plus16(a: u16, b: u16): u16 {
    (a + b) % TWO16
  }

  /** How many rows a scroll by `lines > 0` vacates. */
  function Vacated(top: u16, bottom: u16, lines: u16): u16
    requires top <= bottom < 0xFFFF
  {
    if lines < bottom - top + 1 then lines else bottom - top + 1
  }

  /** The subtraction in `bottom - lines + 1` goes below zero. */
  predicate Underflows(top: u16, bottom: u16, lines: u16)
    requires top <= bottom < 0xFFFF
  {
    bottom < Vacated(top, bottom, lines)
  }

  /**
   * It does so exactly for a region that starts at row 0 and is vacated entirely; the sum has
   * then wrapped to zero, and is otherwise the first vacated row.
   */
  lemma UnderflowsIff(rows: u16, top: u16, bottom: u16, lines: u16)
    requires top <= bottom < rows && lines > 0
    ensures Underflows(top, bottom, lines) <==> top == 0 && lines > bottom
    ensures var n := Vacated(top, bottom, lines);
            Plus16(Minus16(bottom, n), 1) == if Underflows(top, bottom, lines) then 0 else bottom - n + 1
  {
    var n := Vacated(top, bottom, lines);
    if bottom < n {
      assert bottom - n == -1;
    } else {
      assert Minus16(bottom, n) == bottom - n;
    }
  }

  /** Clearing any screen with one scroll by its height is such a case. */
  lemma ClearingUnderflows(rows: u16, lines: u16)
    requires rows >= 1 && lines >= rows
    ensures Underflows(0, rows - 1, lines)
  {
    UnderflowsIff(rows, 0, rows - 1, lines);
  }

  /** The column after `text`, or nothing if the cursor left its row. */
  function Column(col: nat, cols: nat, text: seq<byte>): Option<nat> {
    if text == [] then Some(col)
    else
      var before, b := Column(col, cols, text[..|text| - 1]), text[|text| - 1];
      if before.None? || b == 0x0A then None
      else if b == 0x0D then Some(0)
      else if b == 0x08 then Some(if before.value > 0 then before.value - 1 else 0)
      else if b == 0x07 then before
      else if before.value + 1 < cols then Some(before.value + 1)
      else None
  }

  /** `text` has a line feed, or its characters run over the right edge. */
  predicate LeavesRow(col: nat, cols: nat, text: seq<byte>) {
    Column(col, cols, text).None?
  }

  /** The scan of the text alone tells whether the cursor of a terminal moves down. */
  lemma {:induction false} LeavesRowIff(t: Term, high: (byte, nat) -> char, text: seq<byte>, attr: byte, cp: nat)
    requires t.Valid()
    ensures var r := Feed(t, high, text, attr, cp);
            && r.cols == t.cols && r.row >= t.row
            && Column(t.col, t.cols, text) == if r.row > t.row then None else Some(r.col)
    ensures LeavesRow(t.col, t.cols, text) <==> Feed(t, high, text, attr, cp).row > t.row
  {
    if text != [] {
      LeavesRowIff(t, high, text[..|text| - 1], attr, cp);
    }
  }

  /** Scrolling the window up by one line shows the terminal with a line more. */
  lemma WindowMoves(t: Term, screen: seq<Line>, rows: nat)
    requires t.Valid() && 1 <= rows <= |t.lines| && screen == t.lines[|t.lines| - rows..] && t.row + 1 == |t.lines|
    ensures var lines := t.Newline().lines;
            |lines| == |t.lines| + 1 && ScrolledUp(screen, 0, rows - 1, 1, Filled(t.cols, BLANK)) == lines[|lines| - rows..]
  {
  }

  // ----- what writing puts on the screen -----

  /** No bell, backspace, line feed or carriage return. */
  predicate Plain(text: seq<byte>) {
    forall k :: 0 <= k < |text| ==> text[k] !in {0x07, 0x08, 0x0A, 0x0D}
  }

  /** Each byte as itself, in the colour given, with its character in the code page. */
  function Characters(high: (byte, nat) -> char, text: seq<byte>, attr: byte, cp: nat): (l: Line)
    ensures |l| == |text|
  {
    seq(|text|, k requires 0 <= k < |text| =>
      Glyph(Cell(if text[k] < 0x80 then text[k] as char else high(text[k], cp), attr), text[k]))
  }

  /** `line` with `part` over its columns from `col` on. */
  function Overwritten(line: Line, col: nat, part: Line): (l: Line)
    requires col + |part| <= |line|
    ensures |l| == |line|
  {
    line[..col] + part + line[col + |part|..]
  }

  /** The screen one line further down: the first line is gone, the last one is blank. */
  function MovedUp(s: seq<Line>, cols: nat): seq<Line>
    requires s != []
  {
    s[1..] + [seq(cols, _ => Glyph(Cell(' ', 0x07), 0x20))]
  }

  /** The cursor at column 0 of the next row; at the bottom the screen moves up instead. */
  predicate NextRow(was: seq<Line>, row: nat, cols: nat, now: seq<Line>, row': nat)
    requires was != []
  {
    if row + 1 < |was| then now == was && row' == row + 1 else now == MovedUp(was, cols) && row' == row
  }

  /** Plain text that fits the row appears there, and nothing else changes unless it ends the row. */
  predicate Typed(was: seq<Line>, row: nat, col: nat, cols: nat, part: Line, now: seq<Line>, row': nat, col': nat)
    requires row < |was| && col + |part| <= |was[row]|
  {
    var typed := was[row := Overwritten(was[row], col, part)];
    if part != [] && col + |part| == cols then NextRow(typed, row, cols, now, row') && col' == 0
    else now == typed && row' == row && col' == col + |part|
  }

  /** What a control byte does. */
  predicate Controlled(was: seq<Line>, row: nat, col: nat, cols: nat, b: byte, now: seq<Line>, row': nat, col': nat)
    requires was != []
  {
    match b
    case 0x0A => NextRow(was, row, cols, now, row') && col' == 0
    case 0x0D => now == was && row' == row && col' == 0
    case 0x08 => now == was && row' == row && col' == if col > 0 then col - 1 else 0
    case _ => now == was && row' == row && col' == col
  }

  /** Plain text up to the right edge, or one control byte, written with the cursor at `row` and `col`. */
  predicate Written(high: (byte, nat) -> char, was: seq<Line>, row: nat, col: nat, cols: nat, text: seq<byte>, attr: byte, cp: nat,
                    now: seq<Line>, row': nat, col': nat)
    requires row < |was| && |was[row]| == cols
  {
    && (Plain(text) && col + |text| <= cols ==> Typed(was, row, col, cols, Characters(high, text, attr, cp), now, row', col'))
    && (|text| == 1 && !Plain(text) ==> Controlled(was, row, col, cols, text[0], now, row', col'))
  }

  /** The terminal that is fed plain text up to the right edge. */
  lemma {:induction false} PlainFeed(t: Term, high: (byte, nat) -> char, text: seq<byte>, attr: byte, cp: nat)
    requires t.Valid() && Plain(text) && t.col + |text| <= t.cols
    ensures var r := Feed(t, high, text, attr, cp);
            var typed := t.lines[t.row := Overwritten(t.lines[t.row], t.col, Characters(high, text, attr, cp))];
            if text != [] && t.col + |text| == t.cols
            then r.lines == (if t.row + 1 < |t.lines| then typed else typed + [Filled(t.cols, BLANK)])
                 && r.row == t.row + 1 && r.col == 0
            else r.lines == typed && r.row == t.row && r.col == t.col + |text|
  {
    if text == [] {
      assert Overwritten(t.lines[t.row], t.col, []) == t.lines[t.row];
    } else {
      var n := |text| - 1;
      PlainFeed(t, high, text[..n], attr, cp);
      OverwriteStep(t.lines[t.row], t.col, high, text, attr, cp);
    }
  }

  lemma OverwriteStep(line: Line, col: nat, high: (byte, nat) -> char, text: seq<byte>, attr: byte, cp: nat)
    requires text != [] && col + |text| <= |line|
    ensures var n := |text| - 1;
            Overwritten(line, col, Characters(high, text, attr, cp))
            == Overwritten(line, col, Characters(high, text[..n], attr, cp))[col + n := GlyphOf(high, text[n], attr, cp)]
  {
  }

  /** The same, seen through the window of the last rows. */
  lemma PlainWindow(t: Term, high: (byte, nat) -> char, text: seq<byte>, attr: byte, cp: nat, rows: nat, row: nat, now: seq<Line>, row': nat)
    requires t.Valid() && Plain(text) && t.col + |text| <= t.cols
    requires 1 <= rows <= |t.lines| && row < rows && t.row == |t.lines| - rows + row
    requires var r := Feed(t, high, text, attr, cp);
             rows <= |r.lines| && now == r.lines[|r.lines| - rows..] && r.row == |r.lines| - rows + row'
    ensures Typed(t.lines[|t.lines| - rows..], row, t.col, t.cols, Characters(high, text, attr, cp), now, row',
                  Feed(t, high, text, attr, cp).col)
  {
    hide Characters, Feed;
    PlainFeed(t, high, text, attr, cp);
  }

  lemma ControlWindow(t: Term, high: (byte, nat) -> char, b: byte, attr: byte, cp: nat, rows: nat, row: nat, now: seq<Line>, row': nat)
    requires t.Valid() && b in {0x07, 0x08, 0x0A, 0x0D}
    requires 1 <= rows <= |t.lines| && row < rows && t.row == |t.lines| - rows + row
    requires var r := Feed(t, high, [b], attr, cp);
             rows <= |r.lines| && now == r.lines[|r.lines| - rows..] && r.row == |r.lines| - rows + row'
    ensures Controlled(t.lines[|t.lines| - rows..], row, t.col, t.cols, b, now, row', Feed(t, high, [b], attr, cp).col)
  {
    assert [b][..0] == [];
    assert Feed(t, high, [b], attr, cp) == t.Feed1(b, GlyphOf(high, b, attr, cp));
  }

  /** Both, for the text of one call. */
  lemma TextWindow(t: Term, high: (byte, nat) -> char, text: seq<byte>, attr: byte, cp: nat, rows: nat, row: nat,
                   was: seq<Line>, now: seq<Line>, row': nat)
    requires t.Valid() && 1 <= rows <= |t.lines| && row < rows && t.row == |t.lines| - rows + row
    requires was == t.lines[|t.lines| - rows..]
    requires var r := Feed(t, high, text, attr, cp);
             rows <= |r.lines| && now == r.lines[|r.lines| - rows..] && r.row == |r.lines| - rows + row'
    ensures Written(high, was, row, t.col, t.cols, text, attr, cp, now, row', Feed(t, high, text, attr, cp).col)
  {
    hide Feed, Typed, Controlled, Characters;
    if Plain(text) && t.col + |text| <= t.cols {
      PlainWindow(t, high, text, attr, cp, rows, row, now, row');
    }
    if |text| == 1 && !Plain(text) {
      assert text == [text[0]];
      ControlWindow(t, high, text[0], attr, cp, rows, row, now, row');
    }
  }

  lemma FeedNothing(t: Term, high: (byte, nat) -> char, attr: byte, cp: nat)
    requires t.Valid()
    ensures Feed(t, high, [], attr, cp) == t
  {
  }

  lemma FeedPush(t: Term, high: (byte, nat) -> char, text: seq<byte>, b: byte, attr: byte, cp: nat)
    requires t.Valid()
    ensures Feed(t, high, text + [b], attr, cp) == Feed(t, high, text, attr, cp).Feed1(b, GlyphOf(high, b, attr, cp))
  {
    assert (text + [b])[..|text|] == text;
  }

  class VioManager {
    var buffer: array<Cell>
    var rawBytes: array<byte>
    var rows: u16
    var cols: u16
    var cursorRow: u16
    var cursorCol: u16
    /** Decoding of bytes from 0x80 on, by code page. */
    const high: (byte, nat) -> char

    constructor (rows: u16, cols: u16, high: (byte, nat) -> char)
      ensures Fits() && Clamped() && fresh(buffer) && fresh(rawBytes)
      ensures rows >= 1 && cols >= 1 ==> Valid()
      ensures this.rows == rows && this.cols == cols && cursorRow == 0 && cursorCol == 0 && this.high == high
      ensures Screen() == seq(rows, _ => Filled(cols, BLANK))
    {
      SizedProduct(rows, cols);
      this.rows, this.cols, cursorRow, cursorCol := rows, cols, 0, 0;
      this.high := high;
      buffer := new Cell[rows * cols](_ => BLANK.cell);
      rawBytes := new byte[rows * cols](_ => BLANK.raw);
      new;
      assert forall r :: 0 <= r < rows ==> Screen()[r] == Filled(cols, BLANK);
    }

    /** Both buffers have the size of the screen. */
    predicate Fits()
      reads this
    {
      Sized(buffer.Length, rows, cols) && rawBytes.Length == buffer.Length
    }

    /** The cursor is within the bounds, as far as the screen has any rows and columns. */
    predicate Clamped()
      reads this
    {
      cursorRow <= Last(rows) && cursorCol <= Last(cols)
    }

    /** The cursor is on the screen. */
    predicate Valid()
      reads this
    {
      Fits() && cursorRow < rows && cursorCol < cols
    }

    function Screen(): (s: seq<Line>)
      requires Fits()
      reads this, buffer, rawBytes
      ensures |s| == rows && forall r :: 0 <= r < rows ==> |s[r]| == cols
    {
      RowsOf(buffer[..], rawBytes[..], rows, cols)
    }

    /** The screen is the last `rows` lines of `t`, with the cursor at the same place. */
    ghost predicate Shows(t: Term)
      requires Valid()
      reads this, buffer, rawBytes
    {
      && t.Valid() && t.cols == cols && rows <= |t.lines|
      && Screen() == t.lines[|t.lines| - rows..]
      && t.row == |t.lines| - rows + cursorRow && t.col == cursorCol
    }

    /** `resize`: the top left part is kept, new cells are blank, and the cursor is clamped. */
    method Resize(newRows: u16, newCols: u16)
      requires Fits() && Clamped()
      modifies this
      ensures Fits() && Clamped() && rows == newRows && cols == newCols
      ensures newRows >= 1 && newCols >= 1 ==> Valid()
      ensures Screen() == Resized(old(Screen()), newRows, newCols)
      ensures cursorRow == Min(old(cursorRow), Last(newRows)) && cursorCol == Min(old(cursorCol), Last(newCols))
    {
      hide Idx, RowsOf, Sized, CopiedRows, ResizedLine;
      ghost var was := Screen();
      if rows == newRows && cols == newCols {
        SameSize(was, cols);
        return;
      }
      SizedProduct(newRows, newCols);
      var newBuf := new Cell[newRows * newCols](_ => BLANK.cell);
      var newRaw := new byte[newRows * newCols](_ => BLANK.raw);
      BlankScreen(newBuf[..], newRaw[..], newRows, newCols);
      CopiedNothing(was, newRows, newCols);
      assert newBuf != buffer && newRaw != rawBytes;
      for r := 0 to Min(rows, newRows)
        invariant Screen() == was
        invariant RowsOf(newBuf[..], newRaw[..], newRows, newCols) == CopiedRows(was, r, newRows, newCols)
        modifies newBuf, newRaw
      {
        CopyStep(was, r, newRows, newCols);
        CopyRowTo(newBuf, newRaw, newRows, newCols, r);
      }
      CopiedAll(was, cols, newRows, newCols);
      rows, cols, buffer, rawBytes := newRows, newCols, newBuf, newRaw;
      cursorRow, cursorCol := Min(cursorRow, Last(newRows)), Min(cursorCol, Last(newCols));
    }

    /** The inner loop of `resize`. */
    method CopyRowTo(newBuf: array<Cell>, newRaw: array<byte>, newRows: nat, newCols: nat, r: nat)
      requires Fits() && r < rows && r < newRows && Sized(newBuf.Length, newRows, newCols) && newRaw.Length == newBuf.Length
      requires newBuf != buffer && newRaw != rawBytes
      modifies newBuf, newRaw
      ensures var before, kept := old(RowsOf(newBuf[..], newRaw[..], newRows, newCols)), Min(cols, newCols);
              RowsOf(newBuf[..], newRaw[..], newRows, newCols) == before[r := Screen()[r][..kept] + before[r][kept..]]
    {
      hide Idx, RowsOf, Sized;
      ghost var before := RowsOf(newBuf[..], newRaw[..], newRows, newCols);
      assert Screen()[r][..0] + before[r][0..] == before[r];
      for c := 0 to Min(cols, newCols)
        invariant RowsOf(newBuf[..], newRaw[..], newRows, newCols) == before[r := Screen()[r][..c] + before[r][c..]]
      {
        var g := Get(r, c);
        ghost var buf, raw := newBuf[..], newRaw[..];
        SetOne(buf, raw, newRows, newCols, r, c, g);
        var i := Idx(newCols, r, c);
        newBuf[i] := g.cell;
        newRaw[i] := g.raw;
        assert newBuf[..] == buf[i := g.cell] && newRaw[..] == raw[i := g.raw];
        CopyCell(Screen()[r], before[r], c);
      }
    }

    /** Store one glyph; the bounds test of the original always passes. */
    method SetCell(r: nat, c: nat, g: Glyph)
      requires Fits() && r < rows && c < cols
      modifies buffer, rawBytes
      ensures Screen() == old(Screen())[r := old(Screen())[r][c := g]]
    {
      hide Idx, RowsOf, Sized;
      SetOne(buffer[..], rawBytes[..], rows, cols, r, c, g);
      var idx := Idx(cols, r, c);
      ghost var buf, raw := buffer[..], rawBytes[..];
      if idx < buffer.Length {
        buffer[idx] := g.cell;
        rawBytes[idx] := g.raw;
      }
      assert buffer[..] == buf[idx := g.cell] && rawBytes[..] == raw[idx := g.raw];
    }

    function Get(r: nat, c: nat): (g: Glyph)
      requires Fits() && r < rows && c < cols
      reads this, buffer, rawBytes
      ensures g == Screen()[r][c]
    {
      Glyph(buffer[Idx(cols, r, c)], rawBytes[Idx(cols, r, c)])
    }

    /** Inner loop of both scrolls: one row takes the contents of another. */
    method CopyRow(dst: nat, src: nat)
      requires Fits() && dst < rows && src < rows && dst != src
      modifies buffer, rawBytes
      ensures Screen() == old(Screen())[dst := old(Screen())[src]]
    {
      hide Idx, RowsOf, Sized;
      ghost var was := Screen();
      assert was[src][..0] + was[dst][0..] == was[dst];
      for c := 0 to cols
        invariant Fits() && Screen() == was[dst := was[src][..c] + was[dst][c..]]
      {
        RowStep(was[src], was[dst], c);
        SetCell(dst, c, Get(src, c));
      }
      assert was[src][..cols] + was[dst][cols..] == was[src];
    }

    /** Inner loop that fills a vacated row. */
    method FillRow(row: nat, g: Glyph)
      requires Fits() && row < rows
      modifies buffer, rawBytes
      ensures Screen() == old(Screen())[row := Filled(cols, g)]
    {
      hide Idx, RowsOf, Sized;
      ghost var was := Screen();
      assert Filled(cols, g)[..0] + was[row][0..] == was[row];
      for c := 0 to cols
        invariant Fits() && Screen() == was[row := Filled(cols, g)[..c] + was[row][c..]]
      {
        RowStep(Filled(cols, g), was[row], c);
        SetCell(row, c, g);
      }
      assert Filled(cols, g)[..cols] + was[row][cols..] == Filled(cols, g);
    }

    /** Fills rows `from..to`. */
    method FillRows(from: nat, to: nat, g: Glyph)
      requires Fits() && from <= to <= rows
      modifies buffer, rawBytes
      ensures Screen() == FilledRows(old(Screen()), from, to, Filled(cols, g))
    {
      hide Idx, RowsOf, Sized, FilledRows;
      ghost var was := Screen();
      FilledNothing(was, from, Filled(cols, g));
      for row := from to to
        invariant Fits() && Screen() == FilledRows(was, from, row, Filled(cols, g))
      {
        FillStep(was, from, row, Filled(cols, g));
        FillRow(row, g);
      }
    }

    /**
     * `scroll_up`, in wrapping arithmetic.  `underflow` tells that a subtraction went below
     * zero, where a build with overflow checks stops instead.
     */
    method ScrollUp(top: u16, bottom: u16, lines: u16, g: Glyph) returns (ghost underflow: bool)
      requires Fits()
      modifies buffer, rawBytes
      ensures Fits()
      ensures Screen() == if top <= bottom then ScrolledUp(old(Screen()), top, bottom, lines, Filled(cols, g)) else old(Screen())
      ensures underflow <==> top == 0 && bottom < rows && bottom < lines
    {
      hide Idx, RowsOf, Sized, FilledRows, RaisedRows, ScrolledUp;
      ghost var was, line := Screen(), Filled(cols, g);
      if top > bottom || bottom >= rows {
        if bottom >= rows {
          NothingScrolls(was, top, bottom, lines, line);
        }
        return false;
      }
      if lines == 0 {
        FillRows(top, bottom + 1, g);
        ClearDone(was, top, bottom, line);
        return false;
      }
      var n := if lines < bottom - top + 1 then lines else bottom - top + 1;
      underflow := Underflows(top, bottom, lines);
      UnderflowsIff(rows, top, bottom, lines);
      var firstFree := Plus16(Minus16(bottom, n), 1);
      assert firstFree == bottom - n + 1 >= top;
      RaisedNothing(was, top, n);
      for row := top to firstFree
        invariant Fits() && Screen() == RaisedRows(was, top, row, n)
      {
        RaiseStep(was, top, row, n);
        CopyRow(row, row + n);
      }
      FillRows(firstFree, bottom + 1, g);
      UpDone(was, top, bottom, lines, n, line);
    }

    /** `scroll_down`. */
    method ScrollDown(top: u16, bottom: u16, lines: u16, g: Glyph)
      requires Fits()
      modifies buffer, rawBytes
      ensures Fits()
      ensures Screen() == if top <= bottom then ScrolledDown(old(Screen()), top, bottom, lines, Filled(cols, g)) else old(Screen())
    {
      hide Idx, RowsOf, Sized, FilledRows, LoweredRows, ScrolledDown;
      ghost var was, line := Screen(), Filled(cols, g);
      if top > bottom || bottom >= rows {
        if bottom >= rows {
          NothingScrolls(was, top, bottom, lines, line);
        }
        return;
      }
      if lines == 0 {
        FillRows(top, bottom + 1, g);
        ClearDone(was, top, bottom, line);
        return;
      }
      var n := if lines < bottom - top + 1 then lines else bottom - top + 1;
      LoweredNothing(was, bottom + 1, n);
      for row := bottom + 1 downto top + n
        invariant Fits() && Screen() == LoweredRows(was, row, bottom + 1, n)
      {
        LowerStep(was, row, bottom + 1, n);
        CopyRow(row, row - n);
      }
      FillRows(top, top + n, g);
      DownDone(was, top, bottom, lines, n, line);
    }

    /** The cursor moves to the start of the next line, scrolling at the bottom. */
    method NextLine(ghost t: Term) returns (ghost underflow: bool)
      requires Fits() && cursorRow < rows && cols >= 1 && t.Valid()
      requires t.cols == cols && rows <= |t.lines| && Screen() == t.lines[|t.lines| - rows..]
      requires t.row == |t.lines| - rows + cursorRow
      modifies this`cursorRow, this`cursorCol, buffer, rawBytes
      ensures Valid() && Shows(t.Newline())
      ensures underflow <==> rows == 1
    {
      hide Idx, RowsOf, Sized, ScrolledUp;
      cursorRow := cursorRow + 1;
      cursorCol := 0;
      underflow := false;
      if cursorRow >= rows {
        ghost var was := Screen();
        underflow := ScrollUp(0, rows - 1, 1, BLANK);
        cursorRow := rows - 1;
        WindowMoves(t, was, rows);
      }
    }

    /**
     * `write_tty` (the effects on buffers and cursor).  Whatever terminal the screen showed
     * before, it shows that terminal fed the same bytes afterwards.  A subtraction goes below
     * zero exactly when the screen has one row and the text leaves it.
     */
    method WriteTty(text: seq<byte>, attr: byte, cp: nat, ghost t: Term) returns (ghost underflow: bool)
      requires Valid() && Shows(t)
      modifies this`cursorRow, this`cursorCol, buffer, rawBytes
      ensures Valid() && Shows(Feed(t, high, text, attr, cp))
      ensures underflow <==> rows == 1 && LeavesRow(old(cursorCol), cols, text)
      ensures Written(high, old(Screen()), old(cursorRow), old(cursorCol), cols, text, attr, cp, Screen(), cursorRow, cursorCol)
    {
      hide Idx, RowsOf, Sized, Column, Written, Feed, GlyphOf;
      ghost var was, wasRow := Screen(), cursorRow;
      assert text[..0] == [];
      LeavesRowIff(t, high, [], attr, cp);
      FeedNothing(t, high, attr, cp);
      underflow := false;
      for i := 0 to |text|
        invariant Valid() && Shows(Feed(t, high, text[..i], attr, cp))
        invariant underflow <==> rows == 1 && Feed(t, high, text[..i], attr, cp).row > t.row
      {
        var ch := text[i];
        ghost var before := Feed(t, high, text[..i], attr, cp);
        LeavesRowIff(t, high, text[..i], attr, cp);
        FeedPush(t, high, text[..i], ch, attr, cp);
        assert text[..i + 1] == text[..i] + [ch];
        ghost var wrapped := WriteByte(ch, attr, cp, before);
        underflow := underflow || wrapped;
      }
      assert text[..|text|] == text;
      LeavesRowIff(t, high, text, attr, cp);
      TextWindow(t, high, text, attr, cp, rows, wasRow, was, Screen(), cursorRow);
    }

    method WriteByte(ch: byte, attr: byte, cp: nat, ghost t: Term) returns (ghost underflow: bool)
      requires Valid() && Shows(t)
      modifies this`cursorRow, this`cursorCol, buffer, rawBytes
      ensures Valid() && Shows(t.Feed1(ch, GlyphOf(high, ch, attr, cp)))
      ensures underflow <==> rows == 1 && t.Feed1(ch, GlyphOf(high, ch, attr, cp)).row > t.row
    {
      hide Idx, RowsOf, Sized, GlyphOf;
      underflow := false;
      if ch == 0x0A {
        underflow := NextLine(t);
      } else if ch == 0x0D {
        cursorCol := 0;
      } else if ch == 0x08 {
        if cursorCol > 0 {
          cursorCol := cursorCol - 1;
        }
      } else if ch != 0x07 {
        underflow := WriteGlyph(GlyphOf(high, ch, attr, cp), t);
      }
    }

    /** The branch for a character: store it, advance, and wrap at the right edge. */
    method WriteGlyph(glyph: Glyph, ghost t: Term) returns (ghost underflow: bool)
      requires Valid() && Shows(t)
      modifies this`cursorRow, this`cursorCol, buffer, rawBytes
      ensures Valid() && Shows(t.Put(glyph))
      ensures underflow <==> rows == 1 && t.Put(glyph).row > t.row
    {
      hide Idx, RowsOf, Sized;
      underflow := false;
      ghost var stored := t.(lines := t.lines[t.row := t.lines[t.row][t.col := glyph]]);
      if cursorRow < rows && cursorCol < cols {
        SetCell(cursorRow, cursorCol, glyph);
      }
      assert Screen() == stored.lines[|stored.lines| - rows..];
      cursorCol := cursorCol + 1;
      if cursorCol >= cols {
        underflow := NextLine(stored);
      }
    }
  }

  /** Any screen shows some terminal: the one whose lines are just the screen. */
  lemma ScreenIsTerminal(v: VioManager) returns (t: Term)
    requires v.Valid()
    ensures v.Shows(t)
  {
    t := Term(v.cols, v.Screen(), v.cursorRow, v.cursorCol);
  }
}
