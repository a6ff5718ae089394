/**
 * Pairing of double-byte characters in the text screen (src/gui/text_renderer.rs:75-113,
 * src/loader/locale.rs:215-246), and the renderer's walk over the columns
 * (src/gui/text_renderer.rs:331-461, column stepping only).
 */
module Dbcs {
  import opened Bytes

  datatype CellKind = Sbcs | DbcsLead | DbcsTail

  datatype Range = Range(low: byte, high: byte)

  function LeadRanges(codepage: nat): seq<Range> {
    if codepage == 932 then [Range(0x81, 0x9F), Range(0xE0, 0xFC)]
    else if codepage in {936, 949, 950} then [Range(0x81, 0xFE)]
    else []
  }

  predicate IsLead(b: byte, codepage: nat) {
    exists k :: 0 <= k < |LeadRanges(codepage)| && LeadRanges(codepage)[k].low <= b <= LeadRanges(codepage)[k].high
  }

  /** The lead bytes of the four double-byte codepages; no other has any. */
  lemma LeadBytesAre(b: byte, codepage: nat)
    ensures IsLead(b, codepage) <==>
              || (codepage == 932 && (0x81 <= b <= 0x9F || 0xE0 <= b <= 0xFC))
              || ((codepage == 936 || codepage == 949 || codepage == 950) && 0x81 <= b <= 0xFE)
  {
    var ranges := LeadRanges(codepage);
    if codepage == 932 {
      assert ranges[0] == Range(0x81, 0x9F) && ranges[1] == Range(0xE0, 0xFC);
    } else if ranges != [] {
      assert ranges[0] == Range(0x81, 0xFE);
    }
  }

  /** A lead byte with a place for its tail in the same row. */
  predicate StartsPair(raw: seq<byte>, codepage: nat, cols: nat, i: nat)
    requires cols > 0 && i < |raw|
  {
    IsLead(raw[i], codepage) && i % cols + 1 < cols && i + 1 < |raw|
  }

  function KindsFrom(raw: seq<byte>, codepage: nat, cols: nat, i: nat): (kinds: seq<CellKind>)
    requires cols > 0 && i <= |raw|
    ensures |kinds| == |raw| - i
    decreases |raw| - i
  {
    if i == |raw| then []
    else if StartsPair(raw, codepage, cols, i) then [DbcsLead, DbcsTail] + KindsFrom(raw, codepage, cols, i + 2)
    else [Sbcs] + KindsFrom(raw, codepage, cols, i + 1)
  }

  function Kinds(raw: seq<byte>, codepage: nat, cols: nat): (kinds: seq<CellKind>)
    ensures |kinds| == |raw|
  {
    if cols == 0 then seq(|raw|, _ => Sbcs) else KindsFrom(raw, codepage, cols, 0)
  }

  lemma {:induction false} NoLeadsNoPairs(raw: seq<byte>, codepage: nat, cols: nat, i: nat)
    requires LeadRanges(codepage) == [] && cols > 0 && i <= |raw|
    ensures forall k :: 0 <= k < |raw| - i ==> KindsFrom(raw, codepage, cols, i)[k] == Sbcs
    decreases |raw| - i
  {
    if i < |raw| {
      NoLeadsNoPairs(raw, codepage, cols, i + 1);
    }
  }

  /** `annotate_dbcs`, with its fast way out for codepages without lead bytes. */
  method AnnotateDbcs(raw: seq<byte>, codepage: nat, cols: nat) returns (kinds: array<CellKind>)
    ensures fresh(kinds) && kinds[..] == Kinds(raw, codepage, cols)
  {
    hide KindsFrom, IsLead;
    kinds := new CellKind[|raw|](_ => Sbcs);
    if |LeadRanges(codepage)| == 0 {
      if cols > 0 {
        NoLeadsNoPairs(raw, codepage, cols, 0);
      }
      return;
    }
    if cols == 0 {
      return;
    }
    hide LeadRanges, Kinds;
    var i := 0;
    KindsStart(raw, codepage, cols);
    assert kinds[..0] + KindsFrom(raw, codepage, cols, 0) == KindsFrom(raw, codepage, cols, 0);
    while i < |raw|
      invariant i <= |raw| && kinds[..i] + KindsFrom(raw, codepage, cols, i) == Kinds(raw, codepage, cols)
      invariant forall k :: i <= k < |raw| ==> kinds[k] == Sbcs
    {
      ghost var done := kinds[..i];
      KindsStep(raw, codepage, cols, i);
      var col := i % cols;
      if IsLead(raw[i], codepage) && col + 1 < cols && i + 1 < |raw| {
        ConcatAssoc(done, [DbcsLead, DbcsTail], KindsFrom(raw, codepage, cols, i + 2));
        kinds[i] := DbcsLead;
        kinds[i + 1] := DbcsTail;
        i := i + 2;
        assert kinds[..i] == done + [DbcsLead, DbcsTail];
      } else {
        ConcatAssoc(done, [Sbcs], KindsFrom(raw, codepage, cols, i + 1));
        i := i + 1;
        assert kinds[..i] == done + [Sbcs];
      }
    }
    KindsEnd(raw, codepage, cols);
    assert kinds[..i] + [] == kinds[..];
  }

  lemma KindsStart(raw: seq<byte>, codepage: nat, cols: nat)
    requires cols > 0
    ensures Kinds(raw, codepage, cols) == KindsFrom(raw, codepage, cols, 0)
  {
  }

  lemma KindsStep(raw: seq<byte>, codepage: nat, cols: nat, i: nat)
    requires cols > 0 && i < |raw|
    ensures KindsFrom(raw, codepage, cols, i) ==
            if StartsPair(raw, codepage, cols, i) then [DbcsLead, DbcsTail] + KindsFrom(raw, codepage, cols, i + 2)
            else [Sbcs] + KindsFrom(raw, codepage, cols, i + 1)
  {
  }

  lemma KindsEnd(raw: seq<byte>, codepage: nat, cols: nat)
    requires cols > 0
    ensures KindsFrom(raw, codepage, cols, |raw|) == []
  {
  }

  // ----- rows are independent -----

  /** Cutting the screen at the end of a row, each part is annotated by itself. */
  lemma {:induction false} PartsFrom(a: seq<byte>, b: seq<byte>, codepage: nat, cols: nat, i: nat)
    requires cols > 0 && |a| % cols == 0 && i <= |a|
    ensures KindsFrom(a + b, codepage, cols, i) == KindsFrom(a, codepage, cols, i) + KindsFrom(a + b, codepage, cols, |a|)
    decreases |a| - i
  {
    if i < |a| {
      RowEnd(|a|, cols, i);
      if StartsPair(a, codepage, cols, i) {
        PartsFrom(a, b, codepage, cols, i + 2);
      } else {
        PartsFrom(a, b, codepage, cols, i + 1);
      }
    }
  }

  /** The last cell before a multiple of `cols` is the last of its row. */
  lemma RowEnd(n: nat, cols: nat, i: nat)
    requires cols > 0 && n % cols == 0 && i < n
    ensures i + 1 == n ==> i % cols + 1 == cols
  {
    if i + 1 == n {
      var rows := n / cols;
      assert n == cols * rows;
      assert rows >= 1 by {
        assert rows <= 0 ==> cols * rows <= 0;
      }
      assert i == cols * (rows - 1) + (cols - 1);
      DivisionIs(i, cols, rows - 1);
    }
  }

  lemma {:induction false} ShiftedFrom(a: seq<byte>, b: seq<byte>, codepage: nat, cols: nat, i: nat)
    requires cols > 0 && |a| % cols == 0 && i <= |b|
    ensures KindsFrom(a + b, codepage, cols, |a| + i) == KindsFrom(b, codepage, cols, i)
    decreases |b| - i
  {
    if i < |b| {
      SameColumn(|a|, cols, i);
      if StartsPair(b, codepage, cols, i) {
        ShiftedFrom(a, b, codepage, cols, i + 2);
      } else {
        ShiftedFrom(a, b, codepage, cols, i + 1);
      }
    }
  }

  lemma SameColumn(n: nat, cols: nat, i: nat)
    requires cols > 0 && n % cols == 0
    ensures (n + i) % cols == i % cols
  {
    var q, r := n / cols, i / cols;
    assert n == cols * q && i == cols * r + i % cols;
    assert cols * (q + r) == cols * q + cols * r;
    DivisionIs(n + i, cols, q + r);
  }

  lemma CutAtRow(a: seq<byte>, b: seq<byte>, codepage: nat, cols: nat)
    requires cols > 0 && |a| % cols == 0
    ensures Kinds(a + b, codepage, cols) == Kinds(a, codepage, cols) + Kinds(b, codepage, cols)
  {
    PartsFrom(a, b, codepage, cols, 0);
    ShiftedFrom(a, b, codepage, cols, 0);
  }

  function EachAlone(rows: seq<seq<byte>>, codepage: nat, cols: nat): seq<seq<CellKind>> {
    seq(|rows|, r requires 0 <= r < |rows| => Kinds(rows[r], codepage, cols))
  }

  lemma EachAlonePush(rows: seq<seq<byte>>, last: seq<byte>, codepage: nat, cols: nat)
    ensures EachAlone(rows + [last], codepage, cols) == EachAlone(rows, codepage, cols) + [Kinds(last, codepage, cols)]
  {
    hide Kinds;
  }

  predicate AllRows(rows: seq<seq<byte>>, cols: nat) {
    forall r :: 0 <= r < |rows| ==> |rows[r]| == cols
  }

  lemma {:induction false} WholeRows(rows: seq<seq<byte>>, cols: nat)
    requires cols > 0 && AllRows(rows, cols)
    ensures |Join(rows)| % cols == 0
  {
    if rows == [] {
    } else {
      WholeRows(rows[..|rows| - 1], cols);
      SameColumn(|Join(rows[..|rows| - 1])|, cols, cols);
    }
  }

  /** Annotating the flat screen is annotating each row alone, one after the other. */
  lemma {:induction false} RowsAreIndependent(rows: seq<seq<byte>>, codepage: nat, cols: nat)
    requires cols > 0 && AllRows(rows, cols)
    ensures Kinds(Join(rows), codepage, cols) == Join(EachAlone(rows, codepage, cols))
  {
    hide Kinds, EachAlone, Join;
    if rows == [] {
      NoRows(codepage, cols);
    } else {
      var init, last := rows[..|rows| - 1], rows[|rows| - 1];
      assert rows == init + [last];
      RowsAreIndependent(init, codepage, cols);
      WholeRows(init, cols);
      CutAtRow(Join(init), last, codepage, cols);
      JoinPush(init, last);
      EachAlonePush(init, last, codepage, cols);
      JoinPush(EachAlone(init, codepage, cols), Kinds(last, codepage, cols));
    }
  }

  lemma NoRows(codepage: nat, cols: nat)
    ensures Kinds(Join([]), codepage, cols) == Join(EachAlone([], codepage, cols))
  {
  }

  // ----- pairs -----

  /**
   * What the annotation means: leads are lead bytes followed in their row by their tail, tails
   * follow their lead, and a lead byte that is left single is the last of its row or screen.
   */
  predicate CellOk(kinds: seq<CellKind>, raw: seq<byte>, codepage: nat, cols: nat, i: nat)
    requires cols > 0 && |kinds| == |raw| && i < |raw|
  {
    match kinds[i]
    case DbcsLead => StartsPair(raw, codepage, cols, i) && kinds[i + 1] == DbcsTail
    case DbcsTail => i > 0 && kinds[i - 1] == DbcsLead
    case Sbcs => !StartsPair(raw, codepage, cols, i)
  }

  lemma {:induction false} PairsFrom(raw: seq<byte>, codepage: nat, cols: nat, i: nat, k: nat)
    requires cols > 0 && i <= k < |raw|
    ensures var kinds := KindsFrom(raw, codepage, cols, i);
            match kinds[k - i]
            case DbcsLead => StartsPair(raw, codepage, cols, k) && kinds[k - i + 1] == DbcsTail
            case DbcsTail => k > i && kinds[k - i - 1] == DbcsLead
            case Sbcs => !StartsPair(raw, codepage, cols, k)
    decreases |raw| - i
  {
    hide IsLead, KindsFrom;
    KindsStep(raw, codepage, cols, i);
    if StartsPair(raw, codepage, cols, i) {
      hide StartsPair;
      var rest := KindsFrom(raw, codepage, cols, i + 2);
      if k >= i + 2 {
        PairsFrom(raw, codepage, cols, i + 2, k);
        assert KindsFrom(raw, codepage, cols, i)[k - i] == rest[k - (i + 2)];
      }
    } else if k >= i + 1 {
      hide StartsPair;
      PairsFrom(raw, codepage, cols, i + 1, k);
      assert KindsFrom(raw, codepage, cols, i)[k - i] == KindsFrom(raw, codepage, cols, i + 1)[k - (i + 1)];
    }
  }

  lemma PairsAreWhole(raw: seq<byte>, codepage: nat, cols: nat, i: nat)
    requires cols > 0 && i < |raw|
    ensures CellOk(Kinds(raw, codepage, cols), raw, codepage, cols, i)
  {
    hide KindsFrom, StartsPair;
    PairsFrom(raw, codepage, cols, 0, i);
  }

  /** These conditions on every cell leave only one annotation. */
  lemma {:induction false} AnnotationIsUnique(kinds: seq<CellKind>, raw: seq<byte>, codepage: nat, cols: nat, i: nat)
    requires cols > 0 && |kinds| == |raw| && i < |raw|
    requires forall k :: 0 <= k < |raw| ==> CellOk(kinds, raw, codepage, cols, k)
    ensures kinds[i] == Kinds(raw, codepage, cols)[i]
  {
    hide Kinds, StartsPair;
    PairsAreWhole(raw, codepage, cols, i);
    assert CellOk(kinds, raw, codepage, cols, i);
    if i > 0 {
      AnnotationIsUnique(kinds, raw, codepage, cols, i - 1);
      PairsAreWhole(raw, codepage, cols, i - 1);
      assert CellOk(kinds, raw, codepage, cols, i - 1);
    }
  }

  // ----- the renderer's walk -----

  /** A cell drawn: its column and its width in columns. */
  datatype Span = Span(col: nat, width: nat)

  function KindAt(kinds: seq<CellKind>, idx: nat): CellKind {
    if idx < |kinds| then kinds[idx] else Sbcs
  }

  /** The spans cover the columns before `end` from left to right, each exactly once. */
  predicate Cover(spans: seq<Span>, end: nat) {
    if spans == [] then end == 0
    else
      var last := spans[|spans| - 1];
      last.width > 0 && last.col + last.width == end && Cover(spans[..|spans| - 1], last.col)
  }

  lemma CoverPush(spans: seq<Span>, s: Span)
    requires Cover(spans, s.col) && s.width > 0
    ensures Cover(spans + [s], s.col + s.width)
  {
    assert (spans + [s])[..|spans|] == spans;
  }

  lemma CoverNothing()
    ensures Cover([], 0)
  {
  }

  /** How many spans draw on column `c`. */
  function Draws(spans: seq<Span>, c: nat): nat {
    if spans == [] then 0
    else
      var last := spans[|spans| - 1];
      Draws(spans[..|spans| - 1], c) + (if last.col <= c < last.col + last.width then 1 else 0)
  }

  lemma {:induction false} CoverDrawsOnce(spans: seq<Span>, end: nat, c: nat)
    requires Cover(spans, end)
    ensures Draws(spans, c) == if c < end then 1 else 0
  {
    if spans != [] {
      CoverDrawsOnce(spans[..|spans| - 1], spans[|spans| - 1].col, c);
    }
  }

  /** The walk along row `row` of an annotated screen; it meets no tail by itself. */
  method WalkRow(raw: seq<byte>, codepage: nat, kinds: seq<CellKind>, cols: nat, row: nat) returns (spans: seq<Span>)
    requires cols > 0 && kinds == Kinds(raw, codepage, cols)
    ensures forall c :: 0 <= c < cols ==> Draws(spans, c) == 1
    ensures forall c :: c >= cols ==> Draws(spans, c) == 0
    ensures forall s :: s in spans ==> KindAt(kinds, row * cols + s.col) != DbcsTail
    ensures forall s :: s in spans ==> s.width == if KindAt(kinds, row * cols + s.col) == DbcsLead then 2 else 1
  {
    hide Kinds, Cover, Draws;
    spans := [];
    var col := 0;
    CoverNothing();
    RowStartsWhole(raw, codepage, cols, row);
    while col < cols
      invariant col <= cols && Cover(spans, col)
      invariant col < cols ==> KindAt(kinds, row * cols + col) != DbcsTail
      invariant forall s :: s in spans ==> KindAt(kinds, row * cols + s.col) != DbcsTail
      invariant forall s :: s in spans ==> s.width == if KindAt(kinds, row * cols + s.col) == DbcsLead then 2 else 1
    {
      var idx := row * cols + col;
      var kind := if idx < |kinds| then kinds[idx] else Sbcs;
      StepStaysWhole(raw, codepage, cols, row, col);
      var width := match kind case DbcsLead => 2 case _ => 1;
      CoverPush(spans, Span(col, width));
      spans := spans + [Span(col, width)];
      col := col + width;
    }
    forall c: nat
      ensures Draws(spans, c) == if c < cols then 1 else 0
    {
      CoverDrawsOnce(spans, cols, c);
    }
  }

  lemma ColumnOf(cols: nat, row: nat, col: nat)
    requires col < cols
    ensures (row * cols + col) % cols == col
  {
    DivisionIs(row * cols + col, cols, row);
  }

  /** No row starts with a tail. */
  lemma RowStartsWhole(raw: seq<byte>, codepage: nat, cols: nat, row: nat)
    requires cols > 0
    ensures KindAt(Kinds(raw, codepage, cols), row * cols) != DbcsTail
  {
    hide Kinds;
    var idx := row * cols;
    if 0 < idx < |raw| {
      PairsAreWhole(raw, codepage, cols, idx);
      PairsAreWhole(raw, codepage, cols, idx - 1);
      ColumnOf(cols, row, 0);
      RowEnd(idx, cols, idx - 1);
    } else if idx < |raw| {
      PairsAreWhole(raw, codepage, cols, idx);
    }
  }

  /** From a cell that is no tail the walk stays in the row and comes to a cell that is no tail. */
  lemma StepStaysWhole(raw: seq<byte>, codepage: nat, cols: nat, row: nat, col: nat)
    requires col < cols && KindAt(Kinds(raw, codepage, cols), row * cols + col) != DbcsTail
    ensures var kinds := Kinds(raw, codepage, cols);
            var next := col + (if KindAt(kinds, row * cols + col) == DbcsLead then 2 else 1);
            next <= cols && (next < cols ==> KindAt(kinds, row * cols + next) != DbcsTail)
  {
    hide Kinds;
    var kinds := Kinds(raw, codepage, cols);
    var idx := row * cols + col;
    ColumnOf(cols, row, col);
    if idx < |raw| {
      PairsAreWhole(raw, codepage, cols, idx);
    }
    if idx + 1 < |raw| {
      PairsAreWhole(raw, codepage, cols, idx + 1);
    }
    if idx + 2 < |raw| {
      PairsAreWhole(raw, codepage, cols, idx + 2);
    }
  }
}
