/** Reflow to fewer columns: why the cells of a wrapped line can move to their rows in place, the last cell first. */
module ReflowCopy {
  import opened Reflow

  // ----- the rows never run ahead of the lines

  lemma {:induction false} TotalStart(lengths: seq<nat>, v: nat)
    requires v <= |lengths|
    ensures Total(lengths) == Start(lengths, v) + Total(lengths[v..])
  {
    if v > 0 {
      TotalStart(lengths, v - 1);
      assert lengths[v - 1..][1..] == lengths[v..];
    } else {
      assert lengths[0..] == lengths;
    }
  }

  lemma {:induction false} RowBounds(text: seq<Cell>, width: nat)
    requires width >= 2
    ensures forall k :: 0 <= k < |RowLengths(text, width)| ==> 1 <= RowLengths(text, width)[k] <= width
    decreases |text|
  {
    if |text| >= width {
      RowBounds(text[RowLengths(text, width)[0]..], width);
    }
  }

  lemma {:induction false} RowAt(text: seq<Cell>, lengths: seq<nat>, v: nat)
    requires Total(lengths) == |text| && v < |lengths|
    ensures Start(lengths, v) + lengths[v] <= |text|
    ensures Rows(text, lengths)[v] == text[Start(lengths, v)..Start(lengths, v) + lengths[v]]
    decreases v
  {
    TotalStart(lengths, v);
    if v > 0 {
      RowAt(text[lengths[0]..], lengths[1..], v - 1);
      StartTail(lengths, v);
    }
  }

  /** Every row is at most as long as the line of the same index that wrapped. */
  lemma {:induction false} RowsBehind(lines: seq<seq<Cell>>, oldCols: nat, newCols: nat, lengths: seq<nat>, v: nat)
    requires Group(lines, oldCols) && newCols < oldCols && v < |lines| && v <= |lengths|
    requires forall k :: 0 <= k < |lengths| ==> lengths[k] <= newCols
    ensures Start(lengths, v) <= |Text(lines, oldCols, v)|
  {
    if v > 0 {
      RowsBehind(lines, oldCols, newCols, lengths, v - 1);
      LineLength(lines, v - 1, oldCols);
      TextStep(lines, oldCols, v - 1);
    }
  }

  /** A last line that begins with a wide character does not begin with an empty cell. */
  ghost predicate Headed(lines: seq<seq<Cell>>) {
    |lines| > 1 && |lines[|lines| - 1]| > 0 ==>
      var head := lines[|lines| - 1][0];
      head.width == 2 ==> head.content != 0
  }

  /** The text never needs fewer rows than it had lines. */
  lemma AsManyRows(lines: seq<seq<Cell>>, oldCols: nat, newCols: nat)
    requires Group(lines, oldCols) && 2 <= newCols < oldCols
    requires Headed(lines) && (|lines| > 1 || TrimmedLength(lines[0]) > 0)
    ensures Text(lines, oldCols, |lines|) != [] && |RowLengths(Text(lines, oldCols, |lines|), newCols)| >= |lines|
  {
    hide TrimmedLength, Text;
    var text := Text(lines, oldCols, |lines|);
    var lengths := RowLengths(text, newCols);
    var k, n := |lengths|, |lines|;
    if k < n {
      RowsTotal(text, newCols);
      RowBounds(text, newCols);
      TotalStart(lengths, k);
      RowsBehind(lines, oldCols, newCols, lengths, k);
      TextStep(lines, oldCols, k);
      if k < n - 1 {
        LineLength(lines, k, oldCols);
      } else if n > 1 {
        RowsBehind(lines, oldCols, newCols, lengths, k - 1);
        LineLength(lines, n - 2, oldCols);
        TextStep(lines, oldCols, n - 2);
        assert lines[n - 1][0].width == 2;
        FilledLength(lines[n - 1], oldCols);
      }
    }
  }

  lemma {:induction false} FilledLength(line: seq<Cell>, k: nat)
    requires 0 < k <= |line| && line[0].content != 0
    ensures TrimmedLength(line[..k]) > 0 || line[0].width == 0
    ensures k == |line| ==> line[..k] == line
  {
    if k > 1 {
      assert line[..k][..k - 1] == line[..k - 1];
      FilledLength(line, k - 1);
    }
  }

  // ----- moving the cells

  /** There is a line for every row, and it is long enough. */
  ghost predicate Roomy(l: seq<seq<Cell>>, lengths: seq<nat>) {
    |l| == |lengths| && forall v :: 0 <= v < |l| ==> lengths[v] <= |l[v]|
  }

  /** The cells that the text already occupies: those of positions p and up in their new rows. */
  ghost predicate Placed(now: seq<seq<Cell>>, text: seq<Cell>, lengths: seq<nat>, p: nat)
    requires Roomy(now, lengths)
  {
    forall v, j :: 0 <= v < |now| && 0 <= j < lengths[v] && p <= Start(lengths, v) + j < |text| ==>
      now[v][j] == text[Start(lengths, v) + j]
  }

  ghost predicate SameShape(a: seq<seq<Cell>>, b: seq<seq<Cell>>) {
    |a| == |b| && forall v :: 0 <= v < |a| ==> |a[v]| == |b[v]|
  }

  /** The cells not written yet: those of positions below p, and all behind the new rows. */
  ghost predicate Unwritten(now: seq<seq<Cell>>, was: seq<seq<Cell>>, lengths: seq<nat>, p: nat)
    requires SameShape(now, was) && Roomy(now, lengths)
  {
    forall v, j :: 0 <= v < |now| && 0 <= j < |now[v]| && (j >= lengths[v] || Start(lengths, v) + j < p) ==>
      now[v][j] == was[v][j]
  }

  /** Copying one stretch to row y. */
  lemma StretchPlaced(before: seq<seq<Cell>>, row: seq<Cell>, text: seq<Cell>,
                      lengths: seq<nat>, p: nat, y: nat, b: nat, s: nat)
    requires Roomy(before, lengths) && y < |lengths| && s <= b <= lengths[y] && |row| == |before[y]|
    requires Placed(before, text, lengths, p) && p == Start(lengths, y) + b <= |text|
    requires row[b - s..] == text[p - s..p] + before[y][b..]
    ensures
      var now := before[y := row];
      Roomy(now, lengths) && Placed(now, text, lengths, p - s)
  {
    hide Start;
    var now := before[y := row];
    forall v, j | 0 <= v < |now| && 0 <= j < lengths[v] && p - s <= Start(lengths, v) + j < |text|
      ensures now[v][j] == text[Start(lengths, v) + j]
    {
      RowsApart(lengths, v, y);
      if v == y {
        assert now[y][j] == row[b - s..][j - (b - s)];
      }
    }
  }

  lemma StretchLeaves(before: seq<seq<Cell>>, row: seq<Cell>, was: seq<seq<Cell>>,
                      lengths: seq<nat>, p: nat, y: nat, b: nat, s: nat)
    requires SameShape(before, was) && Roomy(before, lengths) && y < |lengths| && s <= b <= lengths[y]
    requires |row| == |before[y]|
    requires Unwritten(before, was, lengths, p) && p == Start(lengths, y) + b
    requires row[..b - s] == before[y][..b - s] && row[b..] == before[y][b..]
    ensures
      var now := before[y := row];
      SameShape(now, was) && Roomy(now, lengths) && Unwritten(now, was, lengths, p - s)
  {
    hide Start;
    var now := before[y := row];
    forall v, j | 0 <= v < |now| && 0 <= j < |now[v]| && (j >= lengths[v] || Start(lengths, v) + j < p - s)
      ensures now[v][j] == was[v][j]
    {
      if v == y && j >= b {
        assert row[j] == row[b..][j - b] == before[y][j];
      }
    }
  }

  lemma StretchCopied(before: seq<seq<Cell>>, row: seq<Cell>, was: seq<seq<Cell>>, text: seq<Cell>,
                      lengths: seq<nat>, p: nat, y: nat, b: nat, s: nat)
    requires SameShape(before, was) && Roomy(before, lengths) && y < |lengths| && s <= b <= lengths[y]
    requires Placed(before, text, lengths, p) && Unwritten(before, was, lengths, p)
    requires p == Start(lengths, y) + b <= |text|
    requires row == before[y][..b - s] + text[p - s..p] + before[y][b..]
    ensures
      var now := before[y := row];
      SameShape(now, was) && Roomy(now, lengths) && Placed(now, text, lengths, p - s)
        && Unwritten(now, was, lengths, p - s)
  {
    hide Placed, Unwritten, Start;
    assert row[b - s..] == text[p - s..p] + before[y][b..];
    assert row[..b - s] == before[y][..b - s] && row[b..] == before[y][b..];
    StretchPlaced(before, row, text, lengths, p, y, b, s);
    StretchLeaves(before, row, was, lengths, p, y, b, s);
  }

  lemma RowsApart(lengths: seq<nat>, u: nat, v: nat)
    requires u < |lengths| && v < |lengths|
    ensures u < v ==> Start(lengths, u) + lengths[u] <= Start(lengths, v)
    ensures v < u ==> Start(lengths, v) + lengths[v] <= Start(lengths, u)
  {
    if u < v {
      StartOrder(lengths, u, v);
    } else if v < u {
      StartOrder(lengths, v, u);
    }
  }

  lemma {:induction false} StartOrder(lengths: seq<nat>, u: nat, v: nat)
    requires u < v <= |lengths|
    ensures Start(lengths, u) + lengths[u] <= Start(lengths, v)
  {
    if u < v - 1 {
      StartOrder(lengths, u, v - 1);
    }
  }

  /** The source of the stretch has not been written yet. */
  lemma SourceUnread(before: seq<seq<Cell>>, was: seq<seq<Cell>>, lines: seq<seq<Cell>>, oldCols: nat, newCols: nat,
                     lengths: seq<nat>, m: nat, c: nat, s: nat)
    requires Group(lines, oldCols) && newCols < oldCols && m < |lines|
    requires forall k :: 0 <= k < |lengths| ==> lengths[k] <= newCols
    requires SameShape(before, was) && Roomy(before, lengths) && lines <= was
    requires s <= c <= WrappedLength(lines, m, oldCols)
    requires Unwritten(before, was, lengths, |Text(lines, oldCols, m)| + c)
    ensures |before[m]| == oldCols
    ensures
      var p, text := |Text(lines, oldCols, m)| + c, Text(lines, oldCols, |lines|);
      p <= |text| && Slice(before[m], c - s, s) == text[p - s..p]
  {
    hide Text, WrappedLength;
    TextStep(lines, oldCols, m);
    RowsBehind(lines, oldCols, newCols, lengths, m);
    var p, text := |Text(lines, oldCols, m)| + c, Text(lines, oldCols, |lines|);
    forall j | c - s <= j < c ensures CellAt(before[m], j) == text[p - c + j] {
      TextAt(lines, oldCols, m, j);
      assert lines[m] == was[m];
    }
  }

  /** How much of a line belongs to the text can still be told when all lines below it have moved. */
  lemma WrappedLengthKept(now: seq<seq<Cell>>, was: seq<seq<Cell>>, lines: seq<seq<Cell>>, oldCols: nat, newCols: nat,
                          lengths: seq<nat>, m: nat)
    requires Group(lines, oldCols) && 2 <= newCols < oldCols && m + 1 < |lines|
    requires forall k :: 0 <= k < |lengths| ==> 1 <= lengths[k] <= newCols
    requires SameShape(now, was) && Roomy(now, lengths) && lines <= was
    requires
      var p, text := |Text(lines, oldCols, m + 1)|, Text(lines, oldCols, |lines|);
      Total(lengths) == |text| && Placed(now, text, lengths, p) && Unwritten(now, was, lengths, p)
    ensures |now[m]| == oldCols && |now[m + 1]| > 0
    ensures WrappedLength(now, m, oldCols) == WrappedLength(lines, m, oldCols)
  {
    hide Text, Total, Start;
    RowsBehind(lines, oldCols, newCols, lengths, m + 1);
    assert now[m][oldCols - 1] == was[m][oldCols - 1];
    var p, text := |Text(lines, oldCols, m + 1)|, Text(lines, oldCols, |lines|);
    if Start(lengths, m + 1) == p {
      RowAt(text, lengths, m + 1);
      assert now[m + 1][0] == text[p];
      if WrappedLength(lines, m + 1, oldCols) > 0 {
        TextAt(lines, oldCols, m + 1, 0);
      } else {
        LastEmpty(lines, oldCols, m + 1);
      }
    }
  }

  lemma LastEmpty(lines: seq<seq<Cell>>, cols: nat, t: nat)
    requires Group(lines, cols) && cols > 1 && t < |lines| && WrappedLength(lines, t, cols) == 0
    ensures t == |lines| - 1 && |Text(lines, cols, t)| == |Text(lines, cols, |lines|)|
  {
    LineLength(lines, t, cols);
    TextStep(lines, cols, t);
  }

  lemma LastRow(text: seq<Cell>, lengths: seq<nat>, newCols: nat)
    requires newCols >= 2 && lengths == RowLengths(text, newCols) && lengths != []
    ensures forall k :: 0 <= k < |lengths| ==> 1 <= lengths[k] <= newCols
    ensures Total(lengths) == |text| == Start(lengths, |lengths| - 1) + lengths[|lengths| - 1]
  {
    hide RowLengths;
    RowBounds(text, newCols);
    RowsTotal(text, newCols);
    TotalStart(lengths, |lengths| - 1);
    assert Total(lengths[|lengths| - 1..]) == lengths[|lengths| - 1];
  }

  lemma MoveSetup(was: seq<seq<Cell>>, n: nat, oldCols: nat, newCols: nat, lengths: seq<nat>)
    requires 0 < n <= |was| == |lengths| && 2 <= newCols < oldCols
    requires Group(was[..n], oldCols) && forall v :: n <= v < |was| ==> |was[v]| == oldCols
    requires lengths == RowLengths(Text(was[..n], oldCols, n), newCols)
    ensures forall k :: 0 <= k < |lengths| ==> 1 <= lengths[k] <= newCols
    ensures
      var text := Text(was[..n], oldCols, n);
      && Total(lengths) == |text| && Moved(was, was, text, lengths, |text|)
      && |text| == Start(lengths, |lengths| - 1) + lengths[|lengths| - 1]
      && |text| == |Text(was[..n], oldCols, n - 1)| + TrimmedLength(was[n - 1])
    ensures TrimmedLength(was[n - 1]) == WrappedLength(was[..n], n - 1, oldCols)
  {
    hide Text, RowLengths, Total, TrimmedLength;
    var lines := was[..n];
    LastRow(Text(lines, oldCols, n), lengths, newCols);
    TextStep(lines, oldCols, n - 1);
    LineLength(lines, n - 1, oldCols);
    forall v | 0 <= v < n ensures |was[v]| == oldCols {
      assert lines[v] == was[v];
    }
  }

  lemma NextRowUp(lengths: seq<nat>, y: int)
    requires -1 <= y < |lengths|
    ensures Start(lengths, 0) == 0
    ensures y >= 0 ==> Start(lengths, y + 1) == Start(lengths, y) + lengths[y]
  {
  }

  /** The line above the ones that have moved. */
  lemma NextLineUp(now: seq<seq<Cell>>, was: seq<seq<Cell>>, lines: seq<seq<Cell>>, oldCols: nat, newCols: nat,
                   lengths: seq<nat>, m: int, p: nat)
    requires Group(lines, oldCols) && 2 <= newCols < oldCols && -1 <= m < |lines| - 1
    requires forall k :: 0 <= k < |lengths| ==> 1 <= lengths[k] <= newCols
    requires lines <= was
    requires
      var text := Text(lines, oldCols, |lines|);
      p == |Text(lines, oldCols, m + 1)| && Total(lengths) == |text|
      && Moved(now, was, text, lengths, p)
    ensures forall v :: 0 <= v < |lines| ==> |now[v]| == oldCols
    ensures |now| == |lengths| >= |lines| && forall v :: 0 <= v < |now| ==> |now[v]| > 0
    ensures m == -1 ==> p == 0
    ensures m >= 0 ==>
      var c := WrappedLength(lines, m, oldCols);
      c == WrappedLength(now, m, oldCols) && 0 < p == |Text(lines, oldCols, m)| + c
  {
    hide Placed, Unwritten;
    forall v | 0 <= v < |lines| ensures |now[v]| == oldCols {
      assert lines[v] == was[v];
    }
    if m >= 0 {
      WrappedLengthKept(now, was, lines, oldCols, newCols, lengths, m);
      LineLength(lines, m, oldCols);
      TextStep(lines, oldCols, m);
    }
  }

  /** The part of the text from position p on has moved, and nothing else has changed. */
  ghost predicate Moved(now: seq<seq<Cell>>, was: seq<seq<Cell>>, text: seq<Cell>, lengths: seq<nat>, p: nat) {
    SameShape(now, was) && Roomy(now, lengths) && Placed(now, text, lengths, p) && Unwritten(now, was, lengths, p)
  }

  // ----- one wrapped line, from its old lines to its new rows

  lemma {:induction false} LongRows(text: seq<Cell>, width: nat, v: nat)
    requires width >= 2 && v + 1 < |RowLengths(text, width)|
    ensures RowLengths(text, width)[v] >= width - 1
    decreases v
  {
    if v > 0 {
      LongRows(text[RowLengths(text, width)[0]..], width, v - 1);
    }
  }

  lemma {:induction false} EmptyEnd(line: seq<Cell>, k: nat, j: nat)
    requires k <= |line| && TrimmedLength(line[..k]) < j < k
    ensures line[j].content == 0
  {
    if k > 0 && line[k - 1].content == 0 {
      assert line[..k][..k - 1] == line[..k - 1];
      if j < k - 1 {
        EmptyEnd(line, k - 1, j);
      }
    }
  }

  /** Behind the first cell after a row, which is cleared, no cell of the old lines shows. */
  lemma NothingStale(lines: seq<seq<Cell>>, oldCols: nat, newCols: nat, v: nat, j: nat)
    requires Group(lines, oldCols) && 2 <= newCols < oldCols && v < |lines|
    requires
      var lengths := RowLengths(Text(lines, oldCols, |lines|), newCols);
      |lines| <= |lengths| && lengths[v] < j < newCols
    ensures lines[v][j].content == 0
  {
    var text := Text(lines, oldCols, |lines|);
    var lengths, n := RowLengths(text, newCols), |lines|;
    if v + 1 < |lengths| {
      LongRows(text, newCols, v);
      assert false;
    } else {
      RowBounds(text, newCols);
      RowsTotal(text, newCols);
      TotalStart(lengths, v);
      assert Total(lengths[v..]) == lengths[v];
      RowsBehind(lines, oldCols, newCols, lengths, v);
      TextStep(lines, oldCols, v);
      assert lines[v][..oldCols] == lines[v];
      EmptyEnd(lines[v], oldCols, j);
    }
  }

  /** The rows show the text, cut at `lengths`, and nothing else within the new width. */
  ghost predicate Shows(rows: seq<seq<Cell>>, text: seq<Cell>, lengths: seq<nat>, newCols: nat)
    requires Total(lengths) == |text|
  {
    && |rows| == |lengths|
    && forall v :: 0 <= v < |rows| ==>
      && lengths[v] <= newCols <= |rows[v]|
      && rows[v][..lengths[v]] == Rows(text, lengths)[v]
      && forall j :: lengths[v] <= j < newCols ==> rows[v][j].content == 0
  }

  function Cleared(row: seq<Cell>, k: nat, newCols: nat, blank: Cell): (r: seq<Cell>)
    requires k < newCols ==> k < |row|
  {
    if k < newCols then row[k := blank] else row
  }

  lemma ClearedShows(now: seq<seq<Cell>>, moved: seq<seq<Cell>>, was: seq<seq<Cell>>, n: nat,
                     oldCols: nat, newCols: nat, lengths: seq<nat>, blank: Cell)
    requires 0 < n <= |was| && Group(was[..n], oldCols) && 2 <= newCols < oldCols && blank.content == 0
    requires forall v :: n <= v < |was| ==> was[v] == seq(oldCols, i => blank)
    requires |was| == |lengths| && lengths == RowLengths(Text(was[..n], oldCols, n), newCols)
    requires Moved(moved, was, Text(was[..n], oldCols, n), lengths, 0) && |now| == |moved|
    requires forall v :: 0 <= v < |now| ==>
      newCols <= |moved[v]| && now[v] == Cleared(moved[v], lengths[v], newCols, blank)
    ensures Total(lengths) == |Text(was[..n], oldCols, n)| && Shows(now, Text(was[..n], oldCols, n), lengths, newCols)
  {
    hide Text, RowLengths, Group, Total, Rows, Start;
    var text := Text(was[..n], oldCols, n);
    RowsTotal(text, newCols);
    RowBounds(text, newCols);
    forall v | 0 <= v < |now|
      ensures lengths[v] <= newCols <= |now[v]| && now[v][..lengths[v]] == Rows(text, lengths)[v]
      ensures forall j :: lengths[v] <= j < newCols ==> now[v][j].content == 0
    {
      RowAt(text, lengths, v);
      assert now[v][..lengths[v]] == moved[v][..lengths[v]];
      forall j | lengths[v] < j < newCols ensures now[v][j].content == 0 {
        assert now[v][j] == moved[v][j] == was[v][j];
        if v < n {
          NothingStale(was[..n], oldCols, newCols, v, j);
        }
      }
    }
  }
}
