/** Reflow to fewer columns: where the strings of combined characters end up. */
module ReflowStrings {
  import opened Options
  import opened Reflow
  import opened ReflowCopy
  import opened BufferLines

  /** The lines of a wrapped line, the strings of the lines and of the rows added below them, and the row lengths. */
  datatype Plan = Plan(lines: seq<seq<Cell>>, cols: nat, strings: seq<Strings>, lengths: seq<nat>)
  {
    ghost predicate Ok() {
      && Group(lines, cols)
      && |lines| <= |lengths| == |strings|
      && Total(lengths) == |Text(lines, cols, |lines|)|
      && forall v :: 0 <= v < |lengths| ==> 1 <= lengths[v] < cols
    }

    /** Where line k starts in the text. */
    ghost function LineStart(k: nat): nat
      requires Group(lines, cols) && k <= |lines|
    {
      |Text(lines, cols, k)|
    }

    /** Where row v starts in the text. */
    function RowStart(v: nat): nat
      requires v <= |lengths|
    {
      Start(lengths, v)
    }
  }

  /** Row v takes cells of line k. */
  ghost predicate Reaches(p: Plan, k: nat, v: nat)
    requires p.Ok() && k < |p.lines| && v < |p.lengths|
  {
    p.LineStart(k) < p.RowStart(v + 1) && p.RowStart(v) < p.LineStart(k + 1)
  }

  /** The key of line k that the copy puts at column j of row v. */
  ghost function KeyFor(p: Plan, k: nat, v: nat, j: nat): int
    requires p.Ok() && k < |p.lines| && v < |p.lengths|
  {
    p.RowStart(v) + j - p.LineStart(k)
  }

  /** The string at column j of row v once the lines from k on have been copied: the first of these lines that reaches
      into the row and has a string for the column decides, and what the row had there if there is none. */
  ghost function Landed(p: Plan, v: nat, j: nat, k: nat): Option<string>
    requires p.Ok() && v < |p.lengths| && k <= |p.lines|
    decreases |p.lines| - k
  {
    if k == |p.lines| then At(p.strings[v], j)
    else if Reaches(p, k, v) && KeyFor(p, k, v, j) in p.strings[k] then
      Some(Read(p.strings[k], k == v, 0, p.LineStart(k) - p.RowStart(v), KeyFor(p, k, v, j)))
    else Landed(p, v, j, k + 1)
  }

  // ----- the copy, stretch by stretch

  /** The strings while row y is being filled: rows below are done, lines from m + 1 on have been copied to row y, and
      the rows above, and row y itself if it is the next line to be copied, are as they were. */
  ghost predicate Strung(p: Plan, now: seq<Strings>, y: int, m: int)
    requires p.Ok() && -1 <= y < |p.lengths| && -1 <= m < |p.lines|
  {
    && |now| == |p.strings|
    && (forall v :: 0 <= v < |now| && (v < y || v == y == m) ==> now[v] == p.strings[v])
    && (forall v, j :: y < v < |now| && 0 <= j < p.lengths[v] ==> At(now[v], j) == Landed(p, v, j, 0))
    && (y >= 0 ==> forall j :: 0 <= j < p.lengths[y] ==> At(now[y], j) == Landed(p, y, j, m + 1))
  }

  /** None of the lines i up to k reaches into row v. */
  lemma {:induction false} NoneReach(p: Plan, v: nat, j: nat, i: nat, k: nat)
    requires p.Ok() && v < |p.lengths| && i <= k <= |p.lines|
    requires forall x :: i <= x < k ==> !Reaches(p, x, v)
    ensures Landed(p, v, j, i) == Landed(p, v, j, k)
    decreases k - i
  {
    if i < k {
      NoneReach(p, v, j, i + 1, k);
    }
  }

  lemma LinesInOrder(p: Plan, i: nat, k: nat)
    requires p.Ok() && i <= k <= |p.lines|
    ensures p.LineStart(i) <= p.LineStart(k)
  {
    TextGrows(p.lines, p.cols, i, k);
  }

  /** A row whose first cell is at or behind the start of line m gets nothing from the lines above. */
  lemma RowDone(p: Plan, v: nat, j: nat, m: nat)
    requires p.Ok() && v < |p.lengths| && m < |p.lines| && p.LineStart(m) <= p.RowStart(v)
    ensures Landed(p, v, j, m) == Landed(p, v, j, 0)
  {
    hide Landed;
    forall x | 0 <= x < m ensures !Reaches(p, x, v) {
      LinesInOrder(p, x + 1, m);
    }
    NoneReach(p, v, j, 0, m);
  }

  /** A row that ends at or before the start of line k has not got anything from the lines from k on. */
  lemma RowUntouched(p: Plan, v: nat, j: nat, k: nat)
    requires p.Ok() && v < |p.lengths| && k <= |p.lines| && p.RowStart(v + 1) <= p.LineStart(k)
    ensures Landed(p, v, j, k) == At(p.strings[v], j)
  {
    hide Reaches;
    forall x | k <= x < |p.lines| ensures !Reaches(p, x, v) {
      Behind(p, v, k, x);
    }
    NoneReach(p, v, j, k, |p.lines|);
  }

  lemma Behind(p: Plan, v: nat, k: nat, x: nat)
    requires p.Ok() && v < |p.lengths| && k <= x < |p.lines| && p.RowStart(v + 1) <= p.LineStart(k)
    ensures !Reaches(p, x, v)
  {
    LinesInOrder(p, k, x);
  }

  /** One stretch: s cells before column c of line m go before column b of row y, and all strings behind them too. */
  lemma StretchStrung(p: Plan, y: nat, m: nat, b: nat, c: nat, s: nat, row: Strings, was: Strings, j: nat)
    requires p.Ok() && y < |p.lengths| && m < |p.lines| && j < p.lengths[y]
    requires 0 < b <= p.lengths[y] && c <= WrappedLength(p.lines, m, p.cols) && s == (if c < b then c else b)
    requires p.LineStart(m) + c == p.RowStart(y) + b && (c == 0 ==> b == p.lengths[y])
    requires At(row, j) == After(was, p.strings[m], y == m, c - s, b - c, j)
    requires At(was, j) == Landed(p, y, j, m + 1)
    requires y == m ==> c <= b
    ensures At(row, j) == Landed(p, y, j, m)
  {
    hide Text, WrappedLength, Total, Group, At;
    LineLength(p.lines, m, p.cols);
    TextStep(p.lines, p.cols, m);
    NextRowUp(p.lengths, y);
    StartOrder(p.lengths, y, y + 1);
    if c == 0 {
      assert !Reaches(p, m, y);
    } else {
      assert Reaches(p, m, y);
      assert KeyFor(p, m, y, j) == j - (b - c);
    }
  }

  /** The next cell to move is the one before column c of line m, and goes before column b of row y. */
  ghost predicate Cursor(p: Plan, y: nat, m: nat, b: nat, c: nat)
    requires p.Ok()
  {
    && y < |p.lengths| && m < |p.lines|
    && 0 < b <= p.lengths[y] && c <= WrappedLength(p.lines, m, p.cols)
    && p.LineStart(m) + c == p.RowStart(y) + b
    && (c == 0 ==> y == |p.lengths| - 1 && b == p.lengths[y])
  }

  /** The row is never above the line. */
  lemma RowBelowLine(p: Plan, y: nat, m: nat, b: nat, c: nat)
    requires p.Ok() && Cursor(p, y, m, b, c)
    ensures m <= y && (y == m ==> c <= b)
  {
    hide Text, WrappedLength, Group, Total;
    if y < m {
      RowsBehind(p.lines, p.cols, p.cols - 1, p.lengths, y + 1);
      LinesInOrder(p, y + 1, m);
      NextRowUp(p.lengths, y);
    } else if y == m {
      RowsBehind(p.lines, p.cols, p.cols - 1, p.lengths, m);
    }
  }

  /** The end of a row, once the stretch at its start has been copied. */
  lemma RowFinished(p: Plan, y: nat, m: nat, c: nat, j: nat)
    requires p.Ok() && y < |p.lengths| && m < |p.lines| && p.LineStart(m) + c == p.RowStart(y)
    ensures Landed(p, y, j, m) == Landed(p, y, j, 0)
  {
    RowDone(p, y, j, m);
  }

  /** The start of the next row: no line has been copied to it yet. */
  lemma RowBegun(p: Plan, y: nat, m: nat, b: nat, c: nat, j: nat)
    requires p.Ok() && Cursor(p, y, m, b, c) && b <= c && y > 0
    ensures Landed(p, y - 1, j, if b == c then m else m + 1) == At(p.strings[y - 1], j)
  {
    hide Text, WrappedLength, Group, Total, Landed, At;
    LineLength(p.lines, m, p.cols);
    TextStep(p.lines, p.cols, m);
    RowUntouched(p, y - 1, j, if b == c then m else m + 1);
  }

  /** One stretch keeps the account of the strings. */
  lemma StrungStep(p: Plan, now: seq<Strings>, y: nat, m: nat, b: nat, c: nat, row: Strings)
    requires p.Ok() && Cursor(p, y, m, b, c) && Strung(p, now, y, m)
    requires
      var s := if c < b then c else b;
      Copied(row, now[y], now[m], y == m, c - s, b - c)
    ensures Strung(p, now[y := row], if b <= c then y - 1 else y, if c <= b then m - 1 else m)
  {
    hide Text, WrappedLength, Group, Total, Landed, At, After;
    RowBelowLine(p, y, m, b, c);
    assert now[m] == p.strings[m];
    var s := if c < b then c else b;
    forall j | 0 <= j < p.lengths[y]
      ensures At(row, j) == Landed(p, y, j, m) && (b <= c ==> Landed(p, y, j, m) == Landed(p, y, j, 0))
    {
      StretchStrung(p, y, m, b, c, s, row, now[y], j);
      if b <= c {
        RowFinished(p, y, m, c - b, j);
      }
    }
    if b <= c && y > 0 {
      var above, k := y - 1, if b == c then m else m + 1;
      forall j | 0 <= j < p.lengths[above] ensures At(now[above], j) == Landed(p, above, j, k) {
        RowBegun(p, y, m, b, c, j);
      }
    }
  }

  /** The cursor after a stretch. */
  lemma CursorStep(p: Plan, y: nat, m: nat, b: nat, c: nat)
    requires p.Ok() && Cursor(p, y, m, b, c)
    ensures
      var y', m' := if b <= c then y - 1 else y, if c <= b then m - 1 else m;
      && (m' == -1 ==> y' == -1)
      && (m' >= 0 ==>
        && y' >= 0
        && var b' := if b <= c then p.lengths[y'] else b - c;
           var c' := if c <= b then WrappedLength(p.lines, m', p.cols) else c - b;
           Cursor(p, y', m', b', c') && p.RowStart(y') + b' == p.RowStart(y) + b - (if c < b then c else b))
  {
    hide Text, WrappedLength, Total, Group;
    NextRowUp(p.lengths, y - 1);
    if m > 0 {
      LineLength(p.lines, m - 1, p.cols);
      TextStep(p.lines, p.cols, m - 1);
    }
    TextStep(p.lines, p.cols, 0);
  }

  lemma CursorCell(p: Plan, y: nat, m: nat, b: nat, c: nat)
    requires p.Ok() && Cursor(p, y, m, b, c)
    ensures y < |p.lengths| && m < |p.lines| && 0 < b
    ensures c <= b ==> p.RowStart(y) + b - c == p.LineStart(m)
    ensures m == 0 && c <= b ==> p.LineStart(m) == 0
  {
  }

  lemma FirstCursor(p: Plan)
    requires p.Ok()
    ensures
      var y, m := |p.lengths| - 1, |p.lines| - 1;
      && Cursor(p, y, m, p.lengths[y], TrimmedLength(p.lines[m]))
      && p.RowStart(y) + p.lengths[y] == |Text(p.lines, p.cols, |p.lines|)|
  {
    hide Text;
    var y, m := |p.lengths| - 1, |p.lines| - 1;
    TotalStart(p.lengths, y);
    assert p.lengths[y..] == [p.lengths[y]] && Total([p.lengths[y]]) == p.lengths[y] + Total([p.lengths[y]][1..]);
    TextStep(p.lines, p.cols, m);
  }

  /** Before the first stretch. */
  lemma StrungAtFirst(p: Plan)
    requires p.Ok()
    ensures Strung(p, p.strings, |p.lengths| - 1, |p.lines| - 1)
  {
  }

  // ----- what the rows display

  /** A cell as it is displayed: with its string, if it holds a combined character. */
  datatype Glyph = Glyph(cell: Cell, combined: Option<string>)

  function GlyphOf(cell: Cell, strings: Strings, j: int): Glyph {
    Glyph(cell, if IsCombined(cell) then At(strings, j) else None)
  }

  /** The text of the first k lines as it is displayed. */
  ghost function Displayed(p: Plan, k: nat): (r: seq<Glyph>)
    requires p.Ok() && k <= |p.lines|
    ensures |r| == p.LineStart(k)
  {
    if k == 0 then []
    else
      var n := WrappedLength(p.lines, k - 1, p.cols);
      Displayed(p, k - 1) + seq(n, c requires 0 <= c < n => GlyphOf(CellAt(p.lines[k - 1], c), p.strings[k - 1], c))
  }

  /** Each string of a combined character of the text lands where its cell does. */
  ghost predicate StringsLand(p: Plan)
    requires p.Ok()
  {
    var text := Displayed(p, |p.lines|);
    forall v, j :: 0 <= v < |p.lengths| && 0 <= j < p.lengths[v] && p.RowStart(v) + j < |text| ==>
      var g := text[p.RowStart(v) + j];
      IsCombined(g.cell) ==> Landed(p, v, j, 0) == g.combined
  }

  lemma DisplayedStep(p: Plan, k: nat, c: nat)
    requires p.Ok() && k < |p.lines|
    ensures Displayed(p, k) <= Displayed(p, k + 1)
    ensures
      c < WrappedLength(p.lines, k, p.cols) ==>
        && p.LineStart(k) + c < |Displayed(p, k + 1)|
        && Displayed(p, k + 1)[p.LineStart(k) + c] == GlyphOf(CellAt(p.lines[k], c), p.strings[k], c)
  {
    hide Text, WrappedLength, Total;
  }

  lemma {:induction false} DisplayedAt(p: Plan, k: nat, m: nat, c: nat)
    requires p.Ok() && m < k <= |p.lines| && c < WrappedLength(p.lines, m, p.cols)
    ensures p.LineStart(m) + c < |Displayed(p, k)|
    ensures Displayed(p, k)[p.LineStart(m) + c] == GlyphOf(CellAt(p.lines[m], c), p.strings[m], c)
    decreases k
  {
    hide Displayed, Text, WrappedLength, Total, Plan.LineStart;
    DisplayedStep(p, k - 1, c);
    if m < k - 1 {
      DisplayedAt(p, k - 1, m, c);
    }
  }

  /** The line and column of a position of the text. */
  lemma {:induction false} Place(p: Plan, k: nat, q: nat) returns (m: nat, c: nat)
    requires p.Ok() && k <= |p.lines| && q < p.LineStart(k)
    ensures m < k && c < WrappedLength(p.lines, m, p.cols) && q == p.LineStart(m) + c
  {
    hide WrappedLength, Group, Total, Landed, Reaches, RowLengths, Start;
    TextStep(p.lines, p.cols, k - 1);
    if q >= p.LineStart(k - 1) {
      m, c := k - 1, q - p.LineStart(k - 1);
    } else {
      m, c := Place(p, k - 1, q);
    }
  }

  /** Displayed or not, the cells are those of the text. */
  lemma DisplayedCell(p: Plan, q: nat)
    requires p.Ok() && q < p.LineStart(|p.lines|)
    ensures Displayed(p, |p.lines|)[q].cell == Text(p.lines, p.cols, |p.lines|)[q]
  {
    hide Text, WrappedLength, Displayed, Total, Group;
    var m, c := Place(p, |p.lines|, q);
    DisplayedAt(p, |p.lines|, m, c);
    TextAt(p.lines, p.cols, m, c);
  }

  /** Every row displays its part of the text. */
  ghost predicate RowsDisplay(p: Plan, rows: seq<seq<Cell>>, now: seq<Strings>)
    requires p.Ok() && |rows| == |now| == |p.lengths|
    requires forall v :: 0 <= v < |rows| ==> p.lengths[v] <= |rows[v]|
  {
    var text := Displayed(p, |p.lines|);
    forall v, j :: 0 <= v < |rows| && 0 <= j < p.lengths[v] && p.RowStart(v) + j < |text| ==>
      GlyphOf(rows[v][j], now[v], j) == text[p.RowStart(v) + j]
  }

  /** Once all cells and strings have been copied, the rows display the text if and only if its strings land with it. */
  lemma DisplayIff(p: Plan, rows: seq<seq<Cell>>, now: seq<Strings>, newCols: nat)
    requires p.Ok() && |now| == |p.lengths|
    requires Shows(rows, Text(p.lines, p.cols, |p.lines|), p.lengths, newCols)
    requires forall v, j :: 0 <= v < |now| && 0 <= j < p.lengths[v] ==> At(now[v], j) == Landed(p, v, j, 0)
    ensures RowsDisplay(p, rows, now) <==> StringsLand(p)
  {
    hide Text, Displayed, Landed, At, Group, Rows, Total;
    var text, shown := Text(p.lines, p.cols, |p.lines|), Displayed(p, |p.lines|);
    forall v, j | 0 <= v < |now| && 0 <= j < p.lengths[v] && p.RowStart(v) + j < |shown|
      ensures rows[v][j] == shown[p.RowStart(v) + j].cell
      ensures
        var g := shown[p.RowStart(v) + j];
        GlyphOf(rows[v][j], now[v], j) == g <==> (IsCombined(g.cell) ==> Landed(p, v, j, 0) == g.combined)
    {
      RowAt(text, p.lengths, v);
      assert rows[v][..p.lengths[v]][j] == text[p.RowStart(v) + j];
      DisplayedCell(p, p.RowStart(v) + j);
      var m, c := Place(p, |p.lines|, p.RowStart(v) + j);
      DisplayedAt(p, |p.lines|, m, c);
    }
  }
}
