/** Reflow to fewer columns, in place: the cells of a wrapped line, and the strings of its combined characters, move to
    their new rows. */
module ReflowLines {
  import opened Options
  import opened Reflow
  import opened ReflowCopy
  import opened BufferLines
  import opened ReflowStrings
  import opened ReflowLosses

  ghost function Datas(l: seq<BufferLine>): set<array<Cell>> { set i | 0 <= i < |l| :: l[i].data }

  ghost function Contents(l: seq<BufferLine>): (r: seq<seq<Cell>>)
    reads Datas(l)
    ensures |r| == |l| && forall i :: 0 <= i < |l| ==> r[i] == l[i].data[..]
  {
    seq(|l|, i requires 0 <= i < |l| reads Datas(l) => l[i].data[..])
  }

  ghost function AllStrings(l: seq<BufferLine>): (r: seq<Strings>)
    reads l
    ensures |r| == |l| && forall i :: 0 <= i < |l| ==> r[i] == l[i].combined
  {
    seq(|l|, i requires 0 <= i < |l| reads l => l[i].combined)
  }

  ghost predicate Distinct(l: seq<BufferLine>) {
    forall i, j :: 0 <= i < j < |l| ==> l[i] != l[j] && l[i].data != l[j].data
  }

  method LiveWrappedLength(l: seq<BufferLine>, t: nat, cols: nat) returns (n: nat)
    requires t < |l| && (t < |l| - 1 ==> l[t].data.Length == cols > 0 && l[t + 1].data.Length > 0)
    ensures n == WrappedLength(Contents(l), t, cols)
  {
    if t == |l| - 1 {
      n := GetTrimmedLength(l[t].data[..]);
    } else {
      var endsInNull := l[t].data[cols - 1].content == 0 && l[t].data[cols - 1].width == 1;
      var followingStartsWithWide := l[t + 1].data[0].width == 2;
      n := if endsInNull && followingStartsWithWide then cols - 1 else cols;
    }
  }

  /** Copies a stretch from line m to line y, or further right in the same line. */
  method CopyStretch(l: seq<BufferLine>, y: nat, m: nat, srcCol: nat, destCol: nat, s: nat)
    requires Distinct(l) && y < |l| && m < |l| && (y == m ==> srcCol <= destCol)
    requires destCol + s <= |Contents(l)[y]|
    modifies l[y], l[y].data
    ensures
      var was := old(Contents(l));
      Contents(l) == was[y := was[y][..destCol] + Slice(was[m], srcCol, s) + was[y][destCol + s..]]
    ensures AllStrings(l) == old(AllStrings(l))[y := l[y].combined]
    ensures Copied(l[y].combined, old(l[y].combined), old(l[m].combined), y == m, srcCol, destCol - srcCol)
  {
    hide Copied, CopiedCells;
    PlainCopy(l[y].data[..], l[m].data[..], y == m, true, srcCol, destCol, s);
    l[y].CopyCellsFrom(l[m], srcCol, destCol, s, true);
  }

  /** The s cells before position q in the lines as they are, and the room for them. */
  lemma StretchRoom(p: Plan, now: seq<seq<Cell>>, was: seq<seq<Cell>>, y: nat, m: nat, b: nat, c: nat, s: nat, q: nat)
    requires p.Ok() && p.lines <= was && Cursor(p, y, m, b, c) && s == (if c < b then c else b)
    requires q == p.RowStart(y) + b
    requires Moved(now, was, Text(p.lines, p.cols, |p.lines|), p.lengths, q)
    ensures y < |now| && m < |now| && m <= y && (y == m ==> c <= b)
    ensures s <= q <= |Text(p.lines, p.cols, |p.lines|)| && b <= |now[y]|
    ensures Slice(now[m], c - s, s) == Text(p.lines, p.cols, |p.lines|)[q - s..q]
  {
    hide Text, WrappedLength, Placed, Start, Total;
    SourceUnread(now, was, p.lines, p.cols, p.cols - 1, p.lengths, m, c, s);
    RowBelowLine(p, y, m, b, c);
  }

  lemma StretchMoves(p: Plan, before: seq<seq<Cell>>, now: seq<seq<Cell>>, was: seq<seq<Cell>>,
                     y: nat, m: nat, b: nat, c: nat, s: nat, q: nat)
    requires p.Ok() && p.lines <= was && Cursor(p, y, m, b, c) && s == (if c < b then c else b)
    requires q == p.RowStart(y) + b
    requires Moved(before, was, Text(p.lines, p.cols, |p.lines|), p.lengths, q)
    requires y < |before| && m < |before| && b <= |before[y]|
    requires now == before[y := before[y][..b - s] + Slice(before[m], c - s, s) + before[y][b..]]
    ensures s <= q && Moved(now, was, Text(p.lines, p.cols, |p.lines|), p.lengths, q - s)
  {
    hide Text, WrappedLength, Placed, Unwritten, Start, Total;
    StretchRoom(p, before, was, y, m, b, c, s, q);
    StretchCopied(before, now[y], was, Text(p.lines, p.cols, |p.lines|), p.lengths, q, y, b, s);
  }

  /** The s cells before position q, the strings behind their column too. */
  method MoveStretch(l: seq<BufferLine>, y: nat, m: nat, b: nat, c: nat, s: nat,
                     ghost p: Plan, ghost was: seq<seq<Cell>>, ghost q: nat)
    requires Distinct(l) && p.Ok() && p.lines <= was && Cursor(p, y, m, b, c) && s == (if c < b then c else b)
    requires q == p.RowStart(y) + b
    requires Moved(Contents(l), was, Text(p.lines, p.cols, |p.lines|), p.lengths, q)
    requires Strung(p, AllStrings(l), y, m)
    modifies l, Datas(l)
    ensures s <= q && Moved(Contents(l), was, Text(p.lines, p.cols, |p.lines|), p.lengths, q - s)
    ensures Strung(p, AllStrings(l), if b <= c then y - 1 else y, if c <= b then m - 1 else m)
  {
    hide Text, WrappedLength, Moved, Start, Group, Distinct, Total, Strung, Copied;
    ghost var before, strings := Contents(l), AllStrings(l);
    StretchRoom(p, before, was, y, m, b, c, s, q);
    StrungSize(p, strings, y, m);
    CopyStretch(l, y, m, c - s, b - s, s);
    StretchMoves(p, before, Contents(l), was, y, m, b, c, s, q);
    StrungStep(p, strings, y, m, b, c, l[y].combined);
  }

  lemma StrungSize(p: Plan, now: seq<Strings>, y: int, m: int)
    requires p.Ok() && -1 <= y < |p.lengths| && -1 <= m < |p.lines| && Strung(p, now, y, m)
    ensures |now| == |p.strings|
  {
  }

  /** The copying has come to column c of line m, which goes to column b of row y, position q of the text. */
  ghost predicate Progress(p: Plan, now: seq<seq<Cell>>, strings: seq<Strings>, was: seq<seq<Cell>>,
                           y: int, m: int, b: nat, c: nat, q: nat)
    requires p.Ok()
  {
    && -1 <= m < |p.lines| && -1 <= y < |p.lengths|
    && (m < 0 ==> y == -1 && q == 0)
    && (m >= 0 ==> y >= 0 && Cursor(p, y, m, b, c) && q == p.RowStart(y) + b)
    && Moved(now, was, Text(p.lines, p.cols, |p.lines|), p.lengths, q) && Strung(p, strings, y, m)
  }

  lemma ProgressNow(p: Plan, now: seq<seq<Cell>>, strings: seq<Strings>, was: seq<seq<Cell>>,
                    y: nat, m: nat, b: nat, c: nat, q: nat)
    requires p.Ok() && Progress(p, now, strings, was, y, m, b, c, q)
    ensures m < |p.lines| && y < |p.lengths| && 0 < b && Cursor(p, y, m, b, c) && q == p.RowStart(y) + b
    ensures Moved(now, was, Text(p.lines, p.cols, |p.lines|), p.lengths, q) && Strung(p, strings, y, m)
  {
    hide Text, Moved, Strung;
  }

  /** The columns of the cursor after a stretch; the line above has to be looked at. */
  lemma ProgressStep(p: Plan, now: seq<seq<Cell>>, strings: seq<Strings>, was: seq<seq<Cell>>, newCols: nat,
                     y: nat, m: nat, b: nat, c: nat, q: nat, y': int, m': int, b': nat, c': nat)
    requires p.Ok() && Cursor(p, y, m, b, c) && q == p.RowStart(y) + b && p.lines <= was && 2 <= newCols < p.cols
    requires forall k :: 0 <= k < |p.lengths| ==> 1 <= p.lengths[k] <= newCols
    requires y' == (if b <= c then y - 1 else y) && m' == if c <= b then m - 1 else m
    requires
      var s := if c < b then c else b;
      && s <= q && Moved(now, was, Text(p.lines, p.cols, |p.lines|), p.lengths, q - s) && Strung(p, strings, y', m')
    requires |now| == |p.lengths| && (forall v :: 0 <= v < |p.lines| ==> |now[v]| == p.cols)
    requires forall v :: 0 <= v < |now| ==> |now[v]| > 0
    requires y' >= 0 ==> b' == if b <= c then p.lengths[y'] else b - c
    requires m' >= 0 ==> c' == if c <= b then WrappedLength(now, m', p.cols) else c - b
    ensures Progress(p, now, strings, was, y', m', b', c', q - if c < b then c else b)
  {
    hide Text, WrappedLength, Moved, Strung, Start, Group, Total;
    CursorStep(p, y, m, b, c);
    CursorCell(p, y, m, b, c);
    if c <= b {
      NextLineUp(now, was, p.lines, p.cols, newCols, p.lengths, m - 1, q - c);
    }
  }

  lemma ShapeNow(p: Plan, now: seq<seq<Cell>>, was: seq<seq<Cell>>, q: nat)
    requires p.Ok() && p.lines <= was && Moved(now, was, Text(p.lines, p.cols, |p.lines|), p.lengths, q)
    ensures |now| == |p.lengths| && (forall v :: 0 <= v < |p.lines| ==> |now[v]| == p.cols)
    ensures forall v :: 0 <= v < |now| ==> |now[v]| > 0
  {
    hide Text, Placed, Unwritten, Total;
    forall v | 0 <= v < |p.lines| ensures |now[v]| == p.cols {
      assert was[v] == p.lines[v];
    }
  }

  /** The columns after a stretch of s cells. */
  method NextColumns(l: seq<BufferLine>, lengths: seq<nat>, oldCols: nat, y: nat, m: nat, b: nat, c: nat)
    returns (y': int, m': int, b': nat, c': nat)
    requires y < |lengths| && m < |l| && oldCols > 0 && forall i :: 0 <= i < |l| ==> l[i].data.Length > 0
    requires 0 < m < |l| ==> l[m - 1].data.Length == oldCols
    ensures y' == (if b <= c then y - 1 else y) && m' == if c <= b then m - 1 else m
    ensures y' >= 0 ==> b' == if b <= c then lengths[y'] else b - c
    ensures m' >= 0 ==> c' == if c <= b then WrappedLength(Contents(l), m', oldCols) else c - b
  {
    hide WrappedLength;
    var s: nat := if c < b then c else b;
    y', b' := y, b - s;
    if b' == 0 {
      y' := y - 1;
      if y' >= 0 {
        b' := lengths[y'];
      }
    }
    m', c' := m, c - s;
    if c' == 0 {
      m' := m - 1;
      if m' >= 0 {
        c' := LiveWrappedLength(l, m', oldCols);
      }
    }
  }

  /** Moves one stretch. */
  method NextStretch(l: seq<BufferLine>, lengths: seq<nat>, oldCols: nat, y: nat, m: nat, b: nat, c: nat,
                     ghost newCols: nat, ghost p: Plan, ghost was: seq<seq<Cell>>, ghost q: nat)
    returns (y': int, m': int, b': nat, c': nat, ghost q': nat)
    requires Distinct(l) && p.Ok() && p.lengths == lengths && p.cols == oldCols && 2 <= newCols < oldCols
    requires |l| == |lengths| && p.lines <= was && forall k :: 0 <= k < |lengths| ==> 1 <= lengths[k] <= newCols
    requires Progress(p, Contents(l), AllStrings(l), was, y, m, b, c, q)
    modifies l, Datas(l)
    ensures Progress(p, Contents(l), AllStrings(l), was, y', m', b', c', q')
    ensures q' < q || (q' == q && m' < m)
  {
    hide Text, WrappedLength, Moved, Start, Distinct, Total, Group, Strung, Progress, Cursor;
    ProgressNow(p, Contents(l), AllStrings(l), was, y, m, b, c, q);
    var s: nat := if c < b then c else b;
    MoveStretch(l, y, m, b, c, s, p, was, q);
    ShapeNow(p, Contents(l), was, q - s);
    q' := q - s;
    y', m', b', c' := NextColumns(l, lengths, oldCols, y, m, b, c);
    ProgressStep(p, Contents(l), AllStrings(l), was, newCols, y, m, b, c, q, y', m', b', c');
  }

  /** Moves the cells of the first n lines to their rows, the last row first, one stretch at a time. */
  method MoveRows(l: seq<BufferLine>, n: nat, lengths: seq<nat>, oldCols: nat, ghost newCols: nat, ghost p: Plan)
    requires Distinct(l) && p.Ok() && p.lengths == lengths && p.cols == oldCols && 2 <= newCols < oldCols
    requires |l| == |lengths| && 0 < n == |p.lines| && p.lines == Contents(l)[..n] && p.strings == AllStrings(l)
    requires forall v :: n <= v < |l| ==> l[v].data.Length == oldCols
    requires lengths == RowLengths(Text(p.lines, oldCols, n), newCols)
    modifies l, Datas(l)
    ensures Moved(Contents(l), old(Contents(l)), Text(p.lines, oldCols, n), lengths, 0)
    ensures Strung(p, AllStrings(l), -1, -1)
  {
    hide Text, WrappedLength, RowLengths, Moved, Start, Distinct, Total, Group, Strung, Cursor;
    ghost var was := Contents(l);
    MoveSetup(was, n, oldCols, newCols, lengths);
    FirstCursor(p);
    StrungAtFirst(p);
    var y: int, m: int := |lengths| - 1, n - 1;
    var b: nat := lengths[y];
    var c: nat := GetTrimmedLength(l[m].data[..]);
    ghost var q: nat := |Text(p.lines, oldCols, n)|;
    while m >= 0
      invariant Progress(p, Contents(l), AllStrings(l), was, y, m, b, c, q)
      decreases q, m
    {
      y, m, b, c, q := NextStretch(l, lengths, oldCols, y, m, b, c, newCols, p, was, q);
    }
  }

  // ----- one wrapped line, from its old lines to its new rows

  /** Clears the first cell behind each row. */
  method ClearEnds(l: seq<BufferLine>, lengths: seq<nat>, newCols: nat, blank: Cell)
    requires Distinct(l) && Roomy(Contents(l), lengths) && forall v :: 0 <= v < |l| ==> newCols <= l[v].data.Length
    modifies Datas(l)
    ensures AllStrings(l) == old(AllStrings(l))
    ensures forall v :: 0 <= v < |l| ==> Contents(l)[v] == Cleared(old(Contents(l))[v], lengths[v], newCols, blank)
  {
    hide Cleared;
    for v := 0 to |l|
      invariant forall u :: 0 <= u < v ==> l[u].data[..] == Cleared(old(l[u].data[..]), lengths[u], newCols, blank)
      invariant forall u :: v <= u < |l| ==> l[u].data[..] == old(l[u].data[..])
    {
      ClearEnd(l[v], lengths[v], newCols, blank);
    }
  }

  method ClearEnd(line: BufferLine, length: nat, newCols: nat, blank: Cell)
    requires length < newCols ==> length < line.data.Length
    modifies line.data
    ensures line.data[..] == Cleared(old(line.data[..]), length, newCols, blank)
  {
    if length < newCols {
      line.data[length] := blank;
    }
  }

  /** Adds blank lines below the old ones. */
  method AddRows(lines: seq<BufferLine>, n: nat, cols: nat, blank: Cell) returns (rows: seq<BufferLine>)
    requires Distinct(lines) && |lines| <= n
    ensures lines <= rows && |rows| == n && Distinct(rows)
    ensures forall v :: |lines| <= v < |rows| ==> fresh(rows[v]) && fresh(rows[v].data)
    ensures forall v :: |lines| <= v < |rows| ==> Contents(rows)[v] == seq(cols, i => blank)
    ensures forall v :: |lines| <= v < |rows| ==> AllStrings(rows)[v] == map[]
  {
    rows := lines;
    while |rows| < n
      invariant lines <= rows && |rows| <= n && Distinct(rows)
      invariant forall v :: |lines| <= v < |rows| ==> fresh(rows[v]) && fresh(rows[v].data)
      invariant forall v :: |lines| <= v < |rows| ==> rows[v].combined == map[]
      invariant forall v :: |lines| <= v < |rows| ==> rows[v].data[..] == seq(cols, i => blank)
    {
      var line := new BufferLine(cols, blank);
      rows := rows + [line];
    }
  }

  /** The rows of a wrapped line, with no strings in the lines to be added. */
  ghost function PlanFor(lines: seq<seq<Cell>>, cols: nat, strings: seq<Strings>, newCols: nat): Plan
    requires Group(lines, cols) && newCols >= 2
  {
    var lengths := RowLengths(Text(lines, cols, |lines|), newCols);
    Plan(lines, cols,
         seq(|lengths|, v requires 0 <= v < |lengths| => if v < |strings| then strings[v] else map[]), lengths)
  }

  lemma PlanOk(lines: seq<seq<Cell>>, cols: nat, strings: seq<Strings>, newCols: nat)
    requires Group(lines, cols) && 2 <= newCols < cols
    requires Headed(lines) && (|lines| > 1 || TrimmedLength(lines[0]) > 0)
    ensures PlanFor(lines, cols, strings, newCols).Ok()
  {
    hide Text, Headed, RowLengths;
    AsManyRows(lines, cols, newCols);
    RowsTotal(Text(lines, cols, |lines|), newCols);
    RowBounds(Text(lines, cols, |lines|), newCols);
  }

  /** Whether a line needs reflow at all: it has wrapped, or does not fit. */
  predicate Reflows(lines: nat, trimmed: nat, newCols: nat) { lines > 1 || trimmed > newCols }

  /**
   * Reflows one wrapped line. The old line objects become the first rows, new ones are added below them. The cells
   * always are those of the text. The rows display the text if and only if the strings of its combined characters land
   * with their cells, and they do if and only if none is lost.
   */
  method ReflowLine(lines: seq<BufferLine>, oldCols: nat, newCols: nat, blank: Cell) returns (rows: seq<BufferLine>)
    requires Distinct(lines) && Group(Contents(lines), oldCols) && 2 <= newCols < oldCols && blank.content == 0
    requires Headed(Contents(lines))
    modifies lines, Datas(lines)
    ensures !Reflows(|lines|, old(TrimmedLength(Contents(lines)[0])), newCols) ==>
      rows == lines && Contents(rows) == old(Contents(lines)) && AllStrings(rows) == old(AllStrings(lines))
    ensures Reflows(|lines|, old(TrimmedLength(Contents(lines)[0])), newCols) ==>
      var p := PlanFor(old(Contents(lines)), oldCols, old(AllStrings(lines)), newCols);
      && lines <= rows && Distinct(rows) && fresh(set v | |lines| <= v < |rows| :: rows[v])
      && p.Ok() && Shows(Contents(rows), Text(p.lines, oldCols, |lines|), p.lengths, newCols)
      && (RowsDisplay(p, Contents(rows), AllStrings(rows)) <==> StringsLand(p))
      && (Filled(p) ==> (StringsLand(p) <==> NoneLost(p)))
  {
    hide Text, RowLengths, Shows, Placed, Unwritten, Total, Headed, Strung, RowsDisplay, StringsLand, Filled, NoneLost,
      Cleared, TrimmedLength, WrappedLength;
    var trimmed := GetTrimmedLength(lines[0].data[..]);
    if |lines| == 1 && trimmed <= newCols {
      return lines;
    }
    ghost var p := PlanFor(Contents(lines), oldCols, AllStrings(lines), newCols);
    PlanOk(Contents(lines), oldCols, AllStrings(lines), newCols);
    var snapshot := seq(|lines|, i requires 0 <= i < |lines| reads Datas(lines) => lines[i].data[..]);
    assert snapshot == Contents(lines);
    var lengths := GetNewLineLengths(snapshot, oldCols, newCols);
    rows := AddRows(lines, |lengths|, oldCols, blank);
    ghost var was := Contents(rows);
    assert was[..|lines|] == snapshot;
    assert p.strings == AllStrings(rows);
    MoveRows(rows, |lines|, lengths, oldCols, newCols, p);
    ghost var moved := Contents(rows);
    ClearEnds(rows, lengths, newCols, blank);
    RowsShown(p, Contents(rows), moved, was, AllStrings(rows), newCols, blank);
  }

  /** What the rows show in the end. */
  lemma RowsShown(p: Plan, now: seq<seq<Cell>>, moved: seq<seq<Cell>>, was: seq<seq<Cell>>, strings: seq<Strings>,
                  newCols: nat, blank: Cell)
    requires p.Ok() && 2 <= newCols < p.cols && blank.content == 0 && |was| == |p.lengths| == |now| == |moved|
    requires p.lines == was[..|p.lines|]
    requires forall v :: |p.lines| <= v < |was| ==> was[v] == seq(p.cols, i => blank)
    requires p.lengths == RowLengths(Text(p.lines, p.cols, |p.lines|), newCols)
    requires Moved(moved, was, Text(p.lines, p.cols, |p.lines|), p.lengths, 0)
    requires forall v :: 0 <= v < |now| ==>
      newCols <= |moved[v]| && now[v] == Cleared(moved[v], p.lengths[v], newCols, blank)
    requires Strung(p, strings, -1, -1)
    ensures Shows(now, Text(p.lines, p.cols, |p.lines|), p.lengths, newCols)
    ensures |strings| == |p.lengths| && forall v :: 0 <= v < |now| ==> p.lengths[v] <= |now[v]|
    ensures RowsDisplay(p, now, strings) <==> StringsLand(p)
    ensures Filled(p) ==> (StringsLand(p) <==> NoneLost(p))
  {
    hide Text, RowLengths, Total, Cleared, Strung, Moved, StringsLand, NoneLost, Rows;
    ClearedShows(now, moved, was, |p.lines|, p.cols, newCols, p.lengths, blank);
    AllStrung(p, strings);
    DisplayIff(p, now, strings, newCols);
    LandIfFilled(p);
  }

  lemma AllStrung(p: Plan, now: seq<Strings>)
    requires p.Ok() && Strung(p, now, -1, -1)
    ensures |now| == |p.lengths|
    ensures forall v, j :: 0 <= v < |now| && 0 <= j < p.lengths[v] ==> At(now[v], j) == Landed(p, v, j, 0)
  {
  }
}
