/** Reflow to fewer columns: the lengths of the rows that a wrapped line is cut into. */
module Reflow {

  // The lower 22 bits of the first word of a cell: the code point, and a flag for a combined character.
  type Content = x: int | 0 <= x < 0x40_0000

  /** A cell of a buffer line; the second half of a wide character has width 0. */
  datatype Cell = Cell(content: Content, width: nat)

  /** What reading column j gives: behind the end of the array the words of a cell read as 0. */
  function CellAt(line: seq<Cell>, j: nat): Cell { if j < |line| then line[j] else Cell(0, 0) }

  /** n cells from column a on. */
  function Slice(line: seq<Cell>, a: nat, n: nat): (r: seq<Cell>)
    ensures |r| == n && forall j :: 0 <= j < n ==> r[j] == CellAt(line, a + j)
  {
    seq(n, j requires 0 <= j => CellAt(line, a + j))
  }

  /** The column behind the last cell with content, or behind a character that is wider than its cell. */
  function TrimmedLength(line: seq<Cell>): nat {
    if line == [] then 0
    else
      var n := |line| - 1;
      if line[n].content != 0 then n + line[n].width else TrimmedLength(line[..n])
  }

  /** No cell from k on has content. */
  ghost predicate NoContent(line: seq<Cell>, k: nat) {
    forall j :: k <= j < |line| ==> line[j].content == 0
  }

  /** n is the column behind the last cell with content, whose width counts; 0 if there is none. */
  ghost predicate EndsText(line: seq<Cell>, n: nat) {
    || (n == 0 && NoContent(line, 0))
    || exists k :: 0 <= k < |line| && line[k].content != 0 && NoContent(line, k + 1) && n == k + line[k].width
  }

  lemma {:induction false} TrimmedEnds(line: seq<Cell>, k: nat)
    requires k <= |line| && NoContent(line, k)
    ensures EndsText(line, TrimmedLength(line[..k]))
  {
    if k > 0 {
      assert line[..k][..k - 1] == line[..k - 1];
      if line[k - 1].content == 0 {
        TrimmedEnds(line, k - 1);
      }
    }
  }

  lemma OneEnd(line: seq<Cell>, m: nat, n: nat)
    requires EndsText(line, m) && EndsText(line, n)
    ensures m == n
  {
  }

  lemma TrimmedIff(line: seq<Cell>)
    ensures forall n: nat :: n == TrimmedLength(line) <==> EndsText(line, n)
  {
    assert line[..|line|] == line;
    TrimmedEnds(line, |line|);
    forall n: nat ensures n == TrimmedLength(line) <==> EndsText(line, n) {
      if EndsText(line, n) {
        OneEnd(line, n, TrimmedLength(line));
      }
    }
  }

  /** How much of line t belongs to the text: a line that wrapped before a wide character may end on an unused cell. */
  function WrappedLength(lines: seq<seq<Cell>>, t: nat, cols: nat): nat
    requires t < |lines| && (t < |lines| - 1 ==> |lines[t]| == cols > 0 && |lines[t + 1]| > 0)
  {
    if t == |lines| - 1 then TrimmedLength(lines[t])
    else if lines[t][cols - 1].content == 0 && lines[t][cols - 1].width == 1 && lines[t + 1][0].width == 2 then cols - 1
    else cols
  }

  /** The lines of a wrapped line. Their cells may hold anything. */
  ghost predicate Group(lines: seq<seq<Cell>>, cols: nat) {
    cols > 0 && |lines| > 0 && forall i :: 0 <= i < |lines| ==> |lines[i]| == cols
  }

  lemma LineLength(lines: seq<seq<Cell>>, t: nat, cols: nat)
    requires Group(lines, cols) && t < |lines|
    ensures |lines[t]| == cols
    ensures t < |lines| - 1 ==> cols - 1 <= WrappedLength(lines, t, cols) <= cols
    ensures t == |lines| - 1 ==> WrappedLength(lines, t, cols) == TrimmedLength(lines[t])
  {
  }

  /** The text of the first k lines. */
  function Text(lines: seq<seq<Cell>>, cols: nat, k: nat): (r: seq<Cell>)
    requires k <= |lines| && Group(lines, cols)
  {
    if k == 0 then [] else Text(lines, cols, k - 1) + Slice(lines[k - 1], 0, WrappedLength(lines, k - 1, cols))
  }

  lemma {:induction false} TextGrows(lines: seq<seq<Cell>>, cols: nat, j: nat, k: nat)
    requires j <= k <= |lines| && Group(lines, cols)
    ensures Text(lines, cols, j) <= Text(lines, cols, k)
    decreases k - j
  {
    if j < k {
      TextGrows(lines, cols, j, k - 1);
    }
  }

  lemma TextStep(lines: seq<seq<Cell>>, cols: nat, t: nat)
    requires Group(lines, cols) && t < |lines|
    ensures |Text(lines, cols, 0)| == 0
    ensures |Text(lines, cols, t + 1)| == |Text(lines, cols, t)| + WrappedLength(lines, t, cols)
            <= |Text(lines, cols, |lines|)|
  {
    hide WrappedLength;
    TextGrows(lines, cols, t + 1, |lines|);
  }

  /** The cells of a line at their place in the text. */
  lemma TextAt(lines: seq<seq<Cell>>, cols: nat, t: nat, j: nat)
    requires Group(lines, cols) && t < |lines| && j < WrappedLength(lines, t, cols)
    ensures |Text(lines, cols, t)| + j < |Text(lines, cols, |lines|)|
    ensures Text(lines, cols, |lines|)[|Text(lines, cols, t)| + j] == CellAt(lines[t], j)
  {
    hide WrappedLength;
    TextStep(lines, cols, t);
    TextGrows(lines, cols, t + 1, |lines|);
    assert Text(lines, cols, t + 1)[|Text(lines, cols, t)| + j] == CellAt(lines[t], j);
  }

  // ----- cutting a text into rows

  /** Rows as long as fit, one cell shorter where a wide character would be cut. */
  function RowLengths(text: seq<Cell>, width: nat): (r: seq<nat>)
    requires width >= 2
    decreases |text|
  {
    if text == [] then []
    else if |text| < width then [|text|]
    else
      var n := if text[width - 1].width == 2 then width - 1 else width;
      [n] + RowLengths(text[n..], width)
  }

  /** The next row of a text of which the first p cells are cut. */
  lemma NextRow(text: seq<Cell>, p: nat, width: nat)
    requires width >= 2 && p < |text|
    ensures |text| - p < width ==> RowLengths(text[p..], width) == [|text| - p]
    ensures |text| - p >= width ==>
              var n := if text[p + width - 1].width == 2 then width - 1 else width;
              RowLengths(text[p..], width) == [n] + RowLengths(text[p + n..], width)
  {
    if |text| - p >= width {
      var n := if text[p + width - 1].width == 2 then width - 1 else width;
      assert text[p..][n..] == text[p + n..];
    }
  }

  lemma NoRows(text: seq<Cell>, width: nat)
    requires width >= 2
    ensures text == [] ==> RowLengths(text, width) == []
  {
  }

  function Total(s: seq<nat>): nat { if s == [] then 0 else s[0] + Total(s[1..]) }

  function Rows(text: seq<Cell>, lengths: seq<nat>): (r: seq<seq<Cell>>)
    requires Total(lengths) == |text|
    ensures |r| == |lengths|
    decreases |lengths|
  {
    if lengths == [] then [] else [text[..lengths[0]]] + Rows(text[lengths[0]..], lengths[1..])
  }

  function Concat(rows: seq<seq<Cell>>): seq<Cell> { if rows == [] then [] else rows[0] + Concat(rows[1..]) }

  lemma {:induction false} RowsTotal(text: seq<Cell>, width: nat)
    requires width >= 2
    ensures Total(RowLengths(text, width)) == |text|
    decreases |text|
  {
    if |text| >= width {
      RowsTotal(text[RowLengths(text, width)[0]..], width);
    }
  }

  /** A row is as wide as possible: it is full, or the last one, or the next character is wide and would not fit. */
  ghost predicate Tight(rows: seq<seq<Cell>>, k: nat, width: nat)
    requires k < |rows|
  {
    |rows[k]| == width || k == |rows| - 1 || (|rows[k]| == width - 1 && |rows[k + 1]| > 0 && rows[k + 1][0].width == 2)
  }

  lemma OneRow(text: seq<Cell>, width: nat)
    requires 0 < |text| <= width
    ensures Total([|text|]) == |text|
    ensures
      var rows := Rows(text, [|text|]);
      rows == [text] && Concat(rows) == text && Tight(rows, 0, width)
  {
    assert text[..|text|] == text;
    assert Rows(text, [|text|]) == [text] + Rows(text[|text|..], [|text|][1..]);
    assert Concat([text]) == text + Concat([text][1..]);
  }

  lemma FirstRow(text: seq<Cell>, n: nat, lengths: seq<nat>)
    requires n <= |text| && Total(lengths) == |text| - n
    ensures Total([n] + lengths) == |text|
    ensures Rows(text, [n] + lengths) == [text[..n]] + Rows(text[n..], lengths)
    ensures Concat(Rows(text, [n] + lengths)) == text[..n] + Concat(Rows(text[n..], lengths))
  {
    assert ([n] + lengths)[1..] == lengths;
  }

  /** The rows hold the text, whatever it is, each as wide as possible. */
  lemma {:induction false} RowsKeepText(text: seq<Cell>, width: nat)
    requires width >= 2
    ensures Total(RowLengths(text, width)) == |text|
    ensures
      var rows := Rows(text, RowLengths(text, width));
      && Concat(rows) == text
      && (forall k :: 0 <= k < |rows| ==> 1 <= |rows[k]| <= width && Tight(rows, k, width))
    decreases |text|
  {
    hide Total, Rows, Concat, Tight;
    RowsTotal(text, width);
    if text == [] {
      NoRowsAtAll();
    } else if |text| < width {
      OneRow(text, width);
    } else {
      var n := if text[width - 1].width == 2 then width - 1 else width;
      RowsKeepText(text[n..], width);
      var rest := Rows(text[n..], RowLengths(text[n..], width));
      FirstRow(text, n, RowLengths(text[n..], width));
      NoRowsAtAll();
      ConsRows(text[..n], rest, width);
    }
  }

  lemma NoRowsAtAll()
    ensures Rows([], []) == [] && Concat([]) == []
  {
  }

  lemma ConsRows(row: seq<Cell>, rest: seq<seq<Cell>>, width: nat)
    requires 1 <= |row| <= width
    requires |row| == width || (|row| == width - 1 && |rest| > 0 && |rest[0]| > 0 && Concat(rest)[0].width == 2)
    requires forall k :: 0 <= k < |rest| ==> 1 <= |rest[k]| <= width && Tight(rest, k, width)
    ensures
      var rows := [row] + rest;
      forall k :: 0 <= k < |rows| ==> 1 <= |rows[k]| <= width && Tight(rows, k, width)
  {
    var rows := [row] + rest;
    forall k | 0 <= k < |rows| ensures 1 <= |rows[k]| <= width && Tight(rows, k, width) {
      if k > 0 {
        assert Tight(rest, k - 1, width);
      }
    }
  }

  // ----- where the rows are cut

  /** Where row v starts in the text. */
  function Start(lengths: seq<nat>, v: nat): nat
    requires v <= |lengths|
  {
    if v == 0 then 0 else Start(lengths, v - 1) + lengths[v - 1]
  }

  lemma {:induction false} StartTail(lengths: seq<nat>, v: nat)
    requires 0 < v <= |lengths|
    ensures Start(lengths, v) == lengths[0] + Start(lengths[1..], v - 1)
  {
    if v > 1 {
      StartTail(lengths, v - 1);
    }
  }

  /** A row from p to e of a text. If the text reaches as far as the width, the row ends on the first half of a wide
      character if and only if the last two cells of the width are first halves. No cut parts the two halves of a
      character. */
  ghost predicate EndsAt(text: seq<Cell>, width: nat, p: nat, e: nat) {
    && p < e <= |text| && p + 2 <= p + width
    && (p + width > |text| ==> e == |text|)
    && (p + width <= |text| ==>
      (text[e - 1].width == 2 <==> text[p + width - 1].width == 2 && text[p + width - 2].width == 2))
    && (e < |text| && text[e - 1].width == 2 ==> text[e].width == 2)
  }

  lemma EndsLater(text: seq<Cell>, width: nat, n: nat, p: nat, e: nat)
    requires n <= |text| && EndsAt(text[n..], width, p, e)
    ensures EndsAt(text, width, n + p, n + e)
  {
    assert forall i :: 0 <= i < |text| - n ==> text[n..][i] == text[n + i];
  }

  lemma FirstEnds(text: seq<Cell>, width: nat)
    requires width >= 2 && text != []
    ensures
      var lengths := RowLengths(text, width);
      && lengths != [] && EndsAt(text, width, 0, lengths[0])
      && lengths[1..] == RowLengths(text[lengths[0]..], width)
  {
    NextRow(text, 0, width);
    assert text[0..] == text;
    NoRows(text[|text|..], width);
  }

  /** Where the rows end, whatever the text: also if some halves of wide characters were overwritten. */
  lemma {:induction false} RowEnds(text: seq<Cell>, width: nat, v: nat)
    requires width >= 2 && v < |RowLengths(text, width)|
    ensures
      var lengths := RowLengths(text, width);
      EndsAt(text, width, Start(lengths, v), Start(lengths, v) + lengths[v])
    decreases v
  {
    hide EndsAt, RowLengths;
    var lengths := RowLengths(text, width);
    NoRows(text, width);
    FirstEnds(text, width);
    if v > 0 {
      RowEnds(text[lengths[0]..], width, v - 1);
      StartTail(lengths, v);
      EndsLater(text, width, lengths[0], Start(lengths[1..], v - 1), Start(lengths[1..], v - 1) + lengths[v]);
    }
  }

  // ----- whole characters

  /** A wide character is followed by its second half, and nothing else has width 0. */
  ghost predicate PairedAt(text: seq<Cell>, i: nat)
    requires i < |text|
  {
    && text[i].width <= 2
    && (text[i].width == 2 ==> i + 1 < |text| && text[i + 1].width == 0)
    && (text[i].width == 0 ==> 0 < i && text[i - 1].width == 2)
  }

  ghost predicate Paired(text: seq<Cell>) {
    forall i :: 0 <= i < |text| ==> PairedAt(text, i)
  }

  ghost predicate WellFormed(line: seq<Cell>) {
    && Paired(line)
    && forall i :: 0 <= i < |line| ==> line[i].width == 0 ==> line[i].content == 0
  }

  lemma {:induction false} TrimmedEnd(line: seq<Cell>, k: nat)
    requires WellFormed(line) && k <= |line|
    ensures
      var n := TrimmedLength(line[..k]);
      n <= |line| && (n > 0 ==> line[n - 1].width != 2)
  {
    if k > 0 {
      assert PairedAt(line, k - 1);
      if line[k - 1].content == 0 {
        assert line[..k][..k - 1] == line[..k - 1];
        TrimmedEnd(line, k - 1);
      }
    }
  }

  /** A cut that is not behind a first half leaves both parts whole. */
  lemma CutPaired(text: seq<Cell>, n: nat)
    requires Paired(text) && n <= |text| && (n > 0 ==> text[n - 1].width != 2)
    ensures Paired(text[..n]) && Paired(text[n..])
  {
    forall i | 0 <= i < n ensures PairedAt(text[..n], i) {
      assert PairedAt(text, i);
    }
    forall i | 0 <= i < |text| - n ensures PairedAt(text[n..], i) {
      assert PairedAt(text, n + i);
    }
  }

  /** The text of a line whose characters are whole, wrapped or the last one, keeps them whole. */
  lemma LinePaired(lines: seq<seq<Cell>>, t: nat, cols: nat)
    requires Group(lines, cols) && t < |lines| && WellFormed(lines[t])
    ensures WrappedLength(lines, t, cols) <= cols && Paired(Slice(lines[t], 0, WrappedLength(lines, t, cols)))
  {
    assert lines[t][..cols] == lines[t];
    TrimmedEnd(lines[t], cols);
    assert PairedAt(lines[t], cols - 1);
    assert cols > 1 ==> PairedAt(lines[t], cols - 2);
    var n := WrappedLength(lines, t, cols);
    CutPaired(lines[t], n);
    assert Slice(lines[t], 0, n) == lines[t][..n];
  }

  lemma JoinPaired(a: seq<Cell>, b: seq<Cell>)
    requires Paired(a) && Paired(b)
    ensures Paired(a + b)
  {
    forall i | 0 <= i < |a + b| ensures PairedAt(a + b, i) {
      if i < |a| {
        assert PairedAt(a, i);
      } else {
        assert PairedAt(b, i - |a|);
      }
    }
  }

  lemma {:induction false} TextPaired(lines: seq<seq<Cell>>, cols: nat, k: nat)
    requires k <= |lines| && Group(lines, cols) && forall i :: 0 <= i < |lines| ==> WellFormed(lines[i])
    ensures Paired(Text(lines, cols, k))
  {
    hide WrappedLength;
    if k > 0 {
      TextPaired(lines, cols, k - 1);
      LinePaired(lines, k - 1, cols);
      JoinPaired(Text(lines, cols, k - 1), Slice(lines[k - 1], 0, WrappedLength(lines, k - 1, cols)));
    }
  }

  /** The rows of a text with whole characters have whole characters. */
  lemma {:induction false} RowsPaired(text: seq<Cell>, width: nat)
    requires width >= 2 && Paired(text)
    ensures Total(RowLengths(text, width)) == |text|
    ensures forall row :: row in Rows(text, RowLengths(text, width)) ==> Paired(row)
    decreases |text|
  {
    hide Total, Rows, Paired, Concat;
    RowsTotal(text, width);
    if text == [] {
      NoRowsAtAll();
    } else if |text| < width {
      OneRow(text, width);
    } else {
      var n := if text[width - 1].width == 2 then width - 1 else width;
      RowEndsWhole(text, width);
      RowsPaired(text[n..], width);
      FirstRow(text, n, RowLengths(text[n..], width));
    }
  }

  lemma RowEndsWhole(text: seq<Cell>, width: nat)
    requires 2 <= width <= |text| && Paired(text)
    ensures
      var n := if text[width - 1].width == 2 then width - 1 else width;
      Paired(text[..n]) && Paired(text[n..])
  {
    assert PairedAt(text, width - 1) && PairedAt(text, width - 2);
    CutPaired(text, if text[width - 1].width == 2 then width - 1 else width);
  }

  /** A line after a character of w columns was printed at column x: nothing is done about halves left alone. */
  function Printed(line: seq<Cell>, x: nat, code: Content, w: nat): (r: seq<Cell>)
    requires w <= 2 && x + w <= |line| && x < |line|
  {
    if w == 2 then line[x := Cell(code, 2)][x + 1 := Cell(0, 0)] else line[x := Cell(code, w)]
  }

  const BLANK: Cell := Cell(0, 1)
  const HALF: Cell := Cell(0x4F60, 2)
  const WIDE: Cell := Cell(0x597D, 2)
  const SECOND: Cell := Cell(0, 0)

  lemma HalfText()
    ensures Text([[HALF, WIDE, SECOND]], 3, 1) == [HALF, WIDE, SECOND] && !Paired([HALF, WIDE, SECOND])
  {
    var line := [HALF, WIDE, SECOND];
    assert line[..2][1] == WIDE && TrimmedLength(line[..2]) == 3;
    assert TrimmedLength(line) == 3;
    assert Text([line], 3, 0) == [] && Slice(line, 0, 3) == line;
    assert !PairedAt(line, 0);
  }

  lemma HalfRows()
    ensures RowLengths([HALF, WIDE, SECOND], 2) == [1, 2]
    ensures Total([1, 2]) == 3 && Rows([HALF, WIDE, SECOND], [1, 2]) == [[HALF], [WIDE, SECOND]]
  {
    var line, rest := [HALF, WIDE, SECOND], [WIDE, SECOND];
    assert line[1..] == rest && line[..1] == [HALF] && rest[..2] == rest && rest[2..] == [];
    NoRows([], 2);
    NextRow(rest, 0, 2);
    assert rest[0..] == rest && RowLengths(rest, 2) == [2];
    NextRow(line, 0, 2);
    assert line[0..] == line;
    NoRowsAtAll();
    OneRow(rest, 2);
    FirstRow(line, 1, [2]);
  }

  /** A wide character printed over the second half of another one: the first row ends on the half left alone. */
  lemma HalfOverwritten()
    ensures
      var line := Printed(Printed([BLANK, BLANK, BLANK], 0, 0x4F60, 2), 1, 0x597D, 2);
      var text := Text([line], 3, 1);
      && text == [HALF, WIDE, SECOND] && !Paired(text)
      && RowLengths(text, 2) == [1, 2] && Total([1, 2]) == |text| && Rows(text, [1, 2]) == [[HALF], [WIDE, SECOND]]
  {
    hide Text, RowLengths, Rows, Total, Paired;
    HalfText();
    HalfRows();
    assert Printed(Printed([BLANK, BLANK, BLANK], 0, 0x4F60, 2), 1, 0x597D, 2) == [HALF, WIDE, SECOND];
  }

  // ----- the loop over the wrapped lines

  method GetTrimmedLength(line: seq<Cell>) returns (n: nat)
    ensures n == TrimmedLength(line) && forall m: nat :: n == m <==> EndsText(line, m)
  {
    TrimmedIff(line);
    var e := |line|;
    assert line[..e] == line;
    while e > 0
      invariant 0 <= e <= |line| && TrimmedLength(line) == TrimmedLength(line[..e])
    {
      e := e - 1;
      if line[e].content != 0 {
        return e + line[e].width;
      }
      assert line[..e + 1][..e] == line[..e];
    }
    return 0;
  }

  method CellsNeeded(lines: seq<seq<Cell>>, cols: nat) returns (n: nat)
    requires Group(lines, cols)
    ensures n == |Text(lines, cols, |lines|)|
  {
    n := 0;
    for i := 0 to |lines|
      invariant n == |Text(lines, cols, i)|
    {
      n := n + WrappedLength(lines, i, cols);
    }
  }

  /** The lengths of the rows, found by walking the lines with a cursor (line, column). */
  method GetNewLineLengths(lines: seq<seq<Cell>>, oldCols: nat, newCols: nat) returns (lengths: seq<nat>)
    requires Group(lines, oldCols) && 2 <= newCols < oldCols
    ensures lengths == RowLengths(Text(lines, oldCols, |lines|), newCols)
  {
    hide Text, WrappedLength, TrimmedLength, RowLengths;
    lengths := [];
    var needed := CellsNeeded(lines, oldCols);
    ghost var text := Text(lines, oldCols, |lines|);
    var srcCol: nat, srcLine: nat, available := 0, 0, 0;
    TextStep(lines, oldCols, 0);
    NoRows(text, newCols);
    while available < needed
      invariant 0 <= available <= needed
      invariant available < needed ==> srcLine < |lines| && srcCol <= WrappedLength(lines, srcLine, oldCols)
      invariant available < needed ==> available == |Text(lines, oldCols, srcLine)| + srcCol
      invariant available < needed ==> RowLengths(text, newCols) == lengths + RowLengths(text[available..], newCols)
      invariant available == needed ==> RowLengths(text, newCols) == lengths
      decreases needed - available
    {
      NextRow(text, available, newCols);
      if needed - available < newCols {
        return lengths + [needed - available];
      }
      srcCol := srcCol + newCols;
      LineLength(lines, srcLine, oldCols);
      var lineLength := WrappedLength(lines, srcLine, oldCols);
      if srcCol > lineLength {
        TextStep(lines, oldCols, srcLine);
        srcCol := srcCol - lineLength;
        srcLine := srcLine + 1;
      }
      CursorInside(lines, oldCols, srcLine, srcCol, available + newCols);
      var endsWithWide := CellAt(lines[srcLine], srcCol - 1).width == 2;
      if endsWithWide {
        srcCol := srcCol - 1;
      }
      var length := if endsWithWide then newCols - 1 else newCols;
      lengths := lengths + [length];
      available := available + length;
      NoRows(text[available..], newCols);
    }
  }

  /** The cell before the cursor is the one at the same place of the text. */
  lemma CursorInside(lines: seq<seq<Cell>>, cols: nat, line: nat, col: nat, p: nat)
    requires Group(lines, cols) && 0 < p <= |Text(lines, cols, |lines|)| && line <= |lines|
    requires p == |Text(lines, cols, line)| + col && 0 < col
    requires line < |lines| - 1 ==> col <= cols - 1 || col <= WrappedLength(lines, line, cols)
    ensures line < |lines| && col <= WrappedLength(lines, line, cols)
    ensures Text(lines, cols, |lines|)[p - 1] == CellAt(lines[line], col - 1)
  {
    hide Text, WrappedLength;
    if line < |lines| {
      LineLength(lines, line, cols);
      TextStep(lines, cols, line);
      TextAt(lines, cols, line, col - 1);
    }
  }
}
