/**
 * A terminal that never scrolls: lines are only ever added at the bottom.  The console's
 * screen (src/loader/console.rs) is specified as the window onto its last lines.
 */
module Terminal {
  import opened Bytes

  /** A decoded character with its attribute. */
  datatype Cell = Cell(ch: char, attr: byte)

  /** What one screen position holds: the `buffer` entry and the `raw_bytes` entry. */
  datatype Glyph = Glyph(cell: Cell, raw: byte)

  type Line = seq<Glyph>

  const BLANK := Glyph(Cell(' ', 0x07), 0x20)

  /** `decode_vio_byte`; bytes from 0x80 on are decoded by the code page. */
  function Decode(high: (byte, nat) -> char, b: byte, cp: nat): char {
    if b < 0x80 then b as char else high(b, cp)
  }

  function Filled(cols: nat, g: Glyph): (l: Line)
    ensures |l| == cols
  {
    seq(cols, _ => g)
  }

  datatype Term = Term(cols: nat, lines: seq<Line>, row: nat, col: nat) {
    predicate Valid() {
      && cols >= 1 && row < |lines| && col < cols
      && forall r :: 0 <= r < |lines| ==> |lines[r]| == cols
    }

    function Newline(): (t: Term)
      requires Valid()
      ensures t.Valid()
    {
      Term(cols, if row + 1 < |lines| then lines else lines + [Filled(cols, BLANK)], row + 1, 0)
    }

    /** Store a glyph at the cursor and advance. */
    function Put(g: Glyph): (t: Term)
      requires Valid()
      ensures t.Valid()
    {
      var stored := this.(lines := lines[row := lines[row][col := g]]);
      if col + 1 < cols then stored.(col := col + 1) else stored.Newline()
    }

    function Feed1(b: byte, glyph: Glyph): (t: Term)
      requires Valid()
      ensures t.Valid()
    {
      if b == 0x0A then Newline()
      else if b == 0x0D then this.(col := 0)
      else if b == 0x08 then (if col > 0 then this.(col := col - 1) else this)
      else if b == 0x07 then this
      else Put(glyph)
    }
  }

  function GlyphOf(high: (byte, nat) -> char, b: byte, attr: byte, cp: nat): Glyph {
    Glyph(Cell(Decode(high, b, cp), attr), b)
  }

  /** The terminal after writing `text`. */
  function Feed(t: Term, high: (byte, nat) -> char, text: seq<byte>, attr: byte, cp: nat): (r: Term)
    requires t.Valid()
    ensures r.Valid()
  {
    if text == [] then t
    else
      var before, b := Feed(t, high, text[..|text| - 1], attr, cp), text[|text| - 1];
      before.Feed1(b, GlyphOf(high, b, attr, cp))
  }

  /** Writing in two pieces is writing at once. */
  lemma {:induction false} FeedConcat(t: Term, high: (byte, nat) -> char, a: seq<byte>, b: seq<byte>, attr: byte, cp: nat)
    requires t.Valid()
    ensures Feed(t, high, a + b, attr, cp) == Feed(Feed(t, high, a, attr, cp), high, b, attr, cp)
  {
    if b == [] {
      assert a + b == a;
    } else {
      FeedConcat(t, high, a, b[..|b| - 1], attr, cp);
      assert (a + b)[..|a + b| - 1] == a + b[..|b| - 1];
    }
  }

  /** Lines above the cursor are history: no text changes them, and none is ever dropped. */
  lemma {:induction false} HistoryStays(t: Term, high: (byte, nat) -> char, text: seq<byte>, attr: byte, cp: nat)
    requires t.Valid()
    ensures var r := Feed(t, high, text, attr, cp);
            && r.cols == t.cols && r.row >= t.row && |r.lines| >= |t.lines|
            && r.lines[..t.row] == t.lines[..t.row]
  {
    if text != [] {
      HistoryStays(t, high, text[..|text| - 1], attr, cp);
    }
  }
}
