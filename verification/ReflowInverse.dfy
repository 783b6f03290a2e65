/** Wrapping a text and joining the wrapped lines again. */
module ReflowInverse {
  import opened Reflow
  import opened ReflowCopy

  /** A row as a buffer line: empty cells fill it up. */
  function Padded(row: seq<Cell>, cols: nat): (line: seq<Cell>)
    ensures |row| <= cols ==> |line| == cols
  {
    row + if |row| < cols then seq(cols - |row|, i => BLANK) else []
  }

  /** The lines that a text takes on a terminal of this width. */
  function Laid(text: seq<Cell>, cols: nat): (lines: seq<seq<Cell>>)
    requires cols >= 2 && Total(RowLengths(text, cols)) == |text|
    ensures |lines| == |RowLengths(text, cols)|
  {
    var rows := Rows(text, RowLengths(text, cols));
    seq(|rows|, v requires 0 <= v < |rows| => Padded(rows[v], cols))
  }

  /** A full row whose last cell is empty, and behind it a wide character: it looks as if the cell had been left
      unused. */
  ghost predicate LooksUnused(text: seq<Cell>, cols: nat, v: nat) {
    && cols >= 2 && v + 1 < |RowLengths(text, cols)| && RowLengths(text, cols)[v] == cols
    && var e := Start(RowLengths(text, cols), v + 1);
      0 < e < |text| && text[e - 1].content == 0 && text[e - 1].width == 1 && text[e].width == 2
  }

  /** The text ends with a character that its last cells are wide enough for, not with empty cells. */
  ghost predicate EndsFull(text: seq<Cell>, cols: nat)
    requires cols >= 2 && Total(RowLengths(text, cols)) == |text|
  {
    text != [] && Laid(text, cols) != [] &&
    var rows := Rows(text, RowLengths(text, cols));
    EndsText(Laid(text, cols)[|rows| - 1], |rows[|rows| - 1]|)
  }

  /** Where row v lies in the text. */
  lemma RowCells(text: seq<Cell>, cols: nat, v: nat)
    requires cols >= 2 && v < |RowLengths(text, cols)|
    ensures Total(RowLengths(text, cols)) == |text|
    ensures
      var lengths := RowLengths(text, cols);
      var p, n := Start(lengths, v), lengths[v];
      && Start(lengths, v + 1) == p + n <= |text| && 1 <= n <= cols
      && Laid(text, cols)[v] == Padded(text[p..p + n], cols)
      && (v + 1 < |lengths| ==>
        && p + n < |text| && n >= cols - 1
        && Laid(text, cols)[v + 1] != [] && Laid(text, cols)[v + 1][0] == text[p + n]
        && (n == cols - 1 ==> text[p + n].width == 2))
  {
    hide RowLengths, Rows, Total, Concat;
    var lengths := RowLengths(text, cols);
    RowsTotal(text, cols);
    RowBounds(text, cols);
    RowAt(text, lengths, v);
    NextRowUp(lengths, v);
    if v + 1 < |lengths| {
      RowAt(text, lengths, v + 1);
      LongRows(text, cols, v);
      RowsKeepText(text, cols);
      assert Tight(Rows(text, lengths), v, cols);
    }
  }

  lemma LaidGroup(text: seq<Cell>, cols: nat)
    requires cols >= 2 && text != []
    ensures Total(RowLengths(text, cols)) == |text| && Group(Laid(text, cols), cols)
  {
    hide RowLengths;
    RowsTotal(text, cols);
    RowBounds(text, cols);
    FirstEnds(text, cols);
    forall v | 0 <= v < |Laid(text, cols)| ensures |Laid(text, cols)[v]| == cols {
      RowCells(text, cols, v);
    }
  }

  /** How much of each line is taken for text. */
  lemma LaidLength(text: seq<Cell>, cols: nat, v: nat)
    requires cols >= 2 && text != [] && v < |RowLengths(text, cols)|
    requires Total(RowLengths(text, cols)) == |text| && Group(Laid(text, cols), cols)
    requires v + 1 < |RowLengths(text, cols)| || EndsFull(text, cols)
    ensures WrappedLength(Laid(text, cols), v, cols) ==
      RowLengths(text, cols)[v] - if LooksUnused(text, cols, v) then 1 else 0
  {
    hide RowLengths, Rows, Total, Laid, TrimmedLength;
    var lengths := RowLengths(text, cols);
    RowCells(text, cols, v);
    if v == |lengths| - 1 {
      LastLength(text, cols);
    } else {
      var p, n, line := Start(lengths, v), lengths[v], Laid(text, cols)[v];
      assert n < cols ==> line[cols - 1] == BLANK;
      assert n == cols ==> line[cols - 1] == text[p + n - 1];
    }
  }

  lemma LastLength(text: seq<Cell>, cols: nat)
    requires cols >= 2 && text != [] && Total(RowLengths(text, cols)) == |text|
    requires Group(Laid(text, cols), cols)
    ensures
      var n := |RowLengths(text, cols)|;
      n > 0 && (WrappedLength(Laid(text, cols), n - 1, cols) == RowLengths(text, cols)[n - 1] <==> EndsFull(text, cols))
  {
    hide RowLengths, Total, Laid, EndsText;
    var lengths, lines := RowLengths(text, cols), Laid(text, cols);
    TrimmedIff(lines[|lines| - 1]);
    RowAt(text, lengths, |lengths| - 1);
  }

  lemma PaddedSlice(text: seq<Cell>, p: nat, n: nat, cols: nat)
    requires p + n <= |text| && n <= cols
    ensures text[..p] + Slice(Padded(text[p..p + n], cols), 0, n) == text[..p + n]
  {
    assert Slice(Padded(text[p..p + n], cols), 0, n) == text[p..p + n];
  }

  /** When no row looks so, the joined lines are the text. */
  lemma {:induction false} JoinedSame(text: seq<Cell>, cols: nat, k: nat)
    requires cols >= 2 && text != [] && k <= |RowLengths(text, cols)|
    requires Total(RowLengths(text, cols)) == |text| && Group(Laid(text, cols), cols)
    requires k < |RowLengths(text, cols)| || EndsFull(text, cols)
    requires forall v: nat :: v < k ==> !LooksUnused(text, cols, v)
    ensures Start(RowLengths(text, cols), k) <= |text|
    ensures Text(Laid(text, cols), cols, k) == text[..Start(RowLengths(text, cols), k)]
  {
    hide RowLengths, Total, Laid, LooksUnused, EndsFull, WrappedLength, Group;
    if k > 0 {
      JoinedSame(text, cols, k - 1);
      RowCells(text, cols, k - 1);
      LaidLength(text, cols, k - 1);
      var lengths := RowLengths(text, cols);
      PaddedSlice(text, Start(lengths, k - 1), lengths[k - 1], cols);
    }
  }

  /** The first row that looks so. */
  lemma {:induction false} FirstUnused(text: seq<Cell>, cols: nat, v: nat) returns (u: nat)
    requires LooksUnused(text, cols, v)
    ensures u <= v && LooksUnused(text, cols, u) && forall w: nat :: w < u ==> !LooksUnused(text, cols, w)
  {
    hide LooksUnused;
    u := v;
    if w: nat :| w < v && LooksUnused(text, cols, w) {
      u := FirstUnused(text, cols, w);
    }
  }

  /** Behind the text of the lines before it comes the first cell of line k, unless that line is the last and empty. */
  lemma NextCell(lines: seq<seq<Cell>>, cols: nat, k: nat)
    requires cols >= 2 && k < |lines| && Group(lines, cols)
    ensures
      var b, joined := |Text(lines, cols, k)|, Text(lines, cols, |lines|);
      |joined| == b || (b < |joined| && joined[b] == lines[k][0])
  {
    hide WrappedLength;
    LineLength(lines, k, cols);
    var b := Text(lines, cols, k);
    assert Text(lines, cols, k + 1) == b + Slice(lines[k], 0, WrappedLength(lines, k, cols));
    TextGrows(lines, cols, k + 1, |lines|);
  }

  /** Its last cell is missing from the joined lines: in its place is the first cell of the next row, or nothing. */
  lemma CellMissing(text: seq<Cell>, cols: nat, v: nat)
    requires cols >= 2 && text != [] && LooksUnused(text, cols, v)
    requires Total(RowLengths(text, cols)) == |text| && Group(Laid(text, cols), cols)
    requires forall w: nat :: w < v ==> !LooksUnused(text, cols, w)
    ensures Text(Laid(text, cols), cols, |Laid(text, cols)|) != text
  {
    hide RowLengths, Total, Laid, WrappedLength, Group;
    JoinedSame(text, cols, v);
    RowCells(text, cols, v);
    LaidLength(text, cols, v);
    NextCell(Laid(text, cols), cols, v + 1);
  }

  /** The last line ends elsewhere. */
  lemma EndMissing(text: seq<Cell>, cols: nat)
    requires cols >= 2 && text != []
    requires Total(RowLengths(text, cols)) == |text| && Group(Laid(text, cols), cols)
    requires !EndsFull(text, cols) && forall v: nat :: !LooksUnused(text, cols, v)
    ensures |Text(Laid(text, cols), cols, |Laid(text, cols)|)| != |text|
  {
    hide RowLengths, Total, Laid, EndsFull, WrappedLength, Group, LooksUnused;
    var lengths := RowLengths(text, cols);
    LastLength(text, cols);
    JoinedSame(text, cols, |lengths| - 1);
    RowsEnd(text, cols);
  }

  lemma RowsEnd(text: seq<Cell>, cols: nat)
    requires cols >= 2 && Total(RowLengths(text, cols)) == |text|
    ensures Start(RowLengths(text, cols), |RowLengths(text, cols)|) == |text|
  {
    hide RowLengths, Start;
    var lengths := RowLengths(text, cols);
    TotalStart(lengths, |lengths|);
    assert lengths[|lengths|..] == [];
  }

  /** Joining the lines that a text was wrapped into gives the text again, if and only if the text ends with a character
      and no row looks as if it had left its last cell unused. */
  lemma WrapAndJoin(text: seq<Cell>, cols: nat)
    requires cols >= 2 && text != []
    ensures Total(RowLengths(text, cols)) == |text| && Group(Laid(text, cols), cols)
    ensures Text(Laid(text, cols), cols, |Laid(text, cols)|) == text <==>
      EndsFull(text, cols) && forall v: nat :: !LooksUnused(text, cols, v)
  {
    hide RowLengths, Total, Laid, EndsFull, Text, LooksUnused, Start;
    LaidGroup(text, cols);
    if v: nat :| LooksUnused(text, cols, v) {
      var u := FirstUnused(text, cols, v);
      CellMissing(text, cols, u);
    } else if EndsFull(text, cols) {
      JoinedSame(text, cols, |RowLengths(text, cols)|);
      RowsEnd(text, cols);
    } else {
      EndMissing(text, cols);
    }
  }
}
