/** Reflow to fewer columns: exactly which strings of combined characters are lost. */
module ReflowLosses {
  import opened Options
  import opened Reflow
  import opened ReflowCopy
  import opened BufferLines
  import opened ReflowStrings

  // ----- which string a column gets

  /** How many columns line y moves to the right within itself. */
  ghost function Shift(p: Plan, y: nat): int
    requires p.Ok() && y < |p.lines|
  {
    p.LineStart(y) - p.RowStart(y)
  }

  /** Row v shows column c of line m. */
  ghost predicate InRow(p: Plan, m: nat, c: nat, v: nat)
    requires p.Ok()
  {
    && m < |p.lines| && v < |p.lengths| && c < WrappedLength(p.lines, m, p.cols)
    && p.RowStart(v) <= p.LineStart(m) + c < p.RowStart(v + 1)
  }

  /** The column of line x, which may lie behind its text, that is copied onto what was column c of line m. */
  ghost function KeyOf(p: Plan, x: nat, m: nat, c: nat): int
    requires p.Ok() && x < |p.lines| && m < |p.lines|
  {
    p.LineStart(m) + c - p.LineStart(x)
  }

  ghost predicate HasKey(p: Plan, x: nat, m: nat, c: nat, v: nat)
    requires p.Ok()
  {
    x < |p.lines| && m < |p.lines| && v < |p.lengths| && Reaches(p, x, v) && KeyOf(p, x, m, c) in p.strings[x]
  }

  /** Of the lines with a string for the column, all copied to row v, line k is the first, which is copied last. */
  ghost predicate CopiedLast(p: Plan, k: nat, m: nat, c: nat, v: nat)
    requires p.Ok()
  {
    k <= m && HasKey(p, k, m, c, v) && forall x: nat :: x < k ==> !HasKey(p, x, m, c, v)
  }

  /** The keys d columns apart, as far back as there are any: the string of the first of them is what column h gets when
      the keys of a line are copied d columns to the right within it. */
  function ChainStart(s: Strings, d: int, h: nat): (g: nat)
    requires h in s
    ensures g in s && g <= h
  {
    if d > 0 && h - d >= 0 && h - d in s then ChainStart(s, d, h - d) else h
  }

  function Back(h: int, d: int, i: int): int { h - i * d }

  lemma BackOnce(h: int, d: int, i: int)
    ensures Back(h, d, 0) == h && Back(h, d, 1) == h - d && Back(h - d, d, i) == Back(h, d, i + 1)
  {
    assert (i + 1) * d == i * d + d;
  }

  /** The chain has a key at every step, and none before its start. */
  lemma {:induction false} ChainSteps(s: Strings, d: nat, h: nat) returns (n: nat)
    requires h in s && d > 0
    ensures ChainStart(s, d, h) == Back(h, d, n) && Back(h, d, n + 1) !in s
    ensures forall i :: 0 <= i <= n ==> Back(h, d, i) in s
  {
    hide Back;
    BackOnce(h, d, 0);
    if h - d >= 0 && h - d in s {
      var k := ChainSteps(s, d, h - d);
      n := k + 1;
      BackOnce(h, d, k);
      BackOnce(h, d, k + 1);
      forall i | 0 <= i <= n ensures Back(h, d, i) in s {
        if i > 0 {
          BackOnce(h, d, i - 1);
        }
      }
    } else {
      n := 0;
    }
  }

  lemma {:induction false} ReadsChainStart(s: Strings, within: bool, d: int, h: nat)
    requires h in s
    ensures Read(s, within, 0, d, h) == s[if within then ChainStart(s, d, h) else h]
    decreases h
  {
    if within && d > 0 && h - d >= 0 && h - d in s {
      ReadsChainStart(s, within, d, h - d);
    }
  }

  /** The column of line k whose string is copied there. */
  ghost function Origin(p: Plan, k: nat, m: nat, c: nat, v: nat): (h: nat)
    requires p.Ok() && HasKey(p, k, m, c, v)
    ensures h in p.strings[k]
  {
    if k == v then ChainStart(p.strings[k], Shift(p, k), KeyOf(p, k, m, c)) else KeyOf(p, k, m, c)
  }

  // ----- the exact condition

  /** Column c of line m is text and holds a combined character. */
  ghost predicate Combined(p: Plan, m: nat, c: nat)
    requires p.Ok()
  {
    m < |p.lines| && c < p.cols && c < WrappedLength(p.lines, m, p.cols) && IsCombined(p.lines[m][c])
  }

  /** Every combined character of the text has a string. Other columns may have one too, left from earlier contents. */
  ghost predicate Filled(p: Plan)
    requires p.Ok()
  {
    forall m: nat, c: nat :: Combined(p, m, c) ==> c in p.strings[m]
  }

  /** The string copied last to where column c of line m goes is that of the column. */
  ghost predicate Kept(p: Plan, m: nat, c: nat)
    requires p.Ok() && m < |p.lines| && c in p.strings[m]
  {
    forall v: nat, k: nat :: InRow(p, m, c, v) && CopiedLast(p, k, m, c, v) ==>
      p.strings[k][Origin(p, k, m, c, v)] == p.strings[m][c]
  }

  ghost predicate NoneLost(p: Plan)
    requires p.Ok() && Filled(p)
  {
    forall m: nat, c: nat :: Combined(p, m, c) ==> Kept(p, m, c)
  }

  lemma {:induction false} NoKeys(p: Plan, v: nat, j: nat, i: nat, k: nat)
    requires p.Ok() && v < |p.lengths| && i <= k <= |p.lines|
    requires forall x :: i <= x < k ==> !(Reaches(p, x, v) && KeyFor(p, x, v, j) in p.strings[x])
    ensures Landed(p, v, j, i) == Landed(p, v, j, k)
    decreases k - i
  {
    if i < k {
      NoKeys(p, v, j, i + 1, k);
    }
  }

  /** The string copied last is the one that stays. */
  lemma LandedLast(p: Plan, k: nat, m: nat, c: nat, v: nat)
    requires p.Ok() && InRow(p, m, c, v) && CopiedLast(p, k, m, c, v)
    ensures
      var j := p.LineStart(m) + c - p.RowStart(v);
      && 0 <= j < p.lengths[v]
      && Landed(p, v, j, 0) == Some(p.strings[k][Origin(p, k, m, c, v)])
  {
    hide Text, WrappedLength, Total, Group, Read, Reaches;
    var j := p.LineStart(m) + c - p.RowStart(v);
    NextRowUp(p.lengths, v);
    forall x: nat | x < k ensures !(Reaches(p, x, v) && KeyFor(p, x, v, j) in p.strings[x]) {
      assert !HasKey(p, x, m, c, v);
    }
    NoKeys(p, v, j, 0, k);
    ReadsChainStart(p.strings[k], k == v, p.LineStart(k) - p.RowStart(v), KeyOf(p, k, m, c));
  }

  /** Some line is copied last, as the line of a combined character has a string for it. */
  lemma OneIsLast(p: Plan, m: nat, c: nat, v: nat) returns (k: nat)
    requires p.Ok() && InRow(p, m, c, v) && c in p.strings[m]
    ensures CopiedLast(p, k, m, c, v)
  {
    hide Text, WrappedLength, Total, Group;
    TextStep(p.lines, p.cols, m);
    k := 0;
    while !HasKey(p, k, m, c, v)
      invariant k <= m && forall x: nat :: x < k ==> !HasKey(p, x, m, c, v)
      decreases m - k
    {
      k := k + 1;
    }
  }

  /** Whatever strings are left from earlier contents: the strings land with their cells if and only if each combined
      character gets its own, be it from its own line or by chance. */
  lemma LandIff(p: Plan)
    requires p.Ok() && Filled(p)
    ensures StringsLand(p) <==> NoneLost(p)
  {
    hide Text, WrappedLength, Total, Group, Landed, Displayed, InRow, HasKey;
    if NoneLost(p) {
      KeptLands(p);
    }
    if StringsLand(p) {
      forall m: nat, c: nat, v: nat, k: nat | Combined(p, m, c) && InRow(p, m, c, v) && CopiedLast(p, k, m, c, v)
        ensures p.strings[k][Origin(p, k, m, c, v)] == p.strings[m][c]
      {
        LandsKept(p, m, c, v, k);
      }
    }
  }

  lemma LandIfFilled(p: Plan)
    requires p.Ok()
    ensures Filled(p) ==> (StringsLand(p) <==> NoneLost(p))
  {
    hide StringsLand, NoneLost;
    if Filled(p) {
      LandIff(p);
    }
  }

  lemma LandsKept(p: Plan, m: nat, c: nat, v: nat, k: nat)
    requires p.Ok() && Filled(p) && StringsLand(p)
    requires Combined(p, m, c) && InRow(p, m, c, v) && CopiedLast(p, k, m, c, v)
    ensures p.strings[k][Origin(p, k, m, c, v)] == p.strings[m][c]
  {
    hide Text, WrappedLength, Total, Landed, Displayed, CopiedLast;
    LandedLast(p, k, m, c, v);
    DisplayedAt(p, |p.lines|, m, c);
  }

  lemma KeptLands(p: Plan)
    requires p.Ok() && Filled(p) && NoneLost(p)
    ensures StringsLand(p)
  {
    hide Text, WrappedLength, Total, Landed, Displayed, CopiedLast, Origin;
    var text := Displayed(p, |p.lines|);
    forall v, j | 0 <= v < |p.lengths| && 0 <= j < p.lengths[v] && p.RowStart(v) + j < |text|
      && IsCombined(text[p.RowStart(v) + j].cell)
      ensures Landed(p, v, j, 0) == text[p.RowStart(v) + j].combined
    {
      var m, c := Place(p, |p.lines|, p.RowStart(v) + j);
      DisplayedAt(p, |p.lines|, m, c);
      NextRowUp(p.lengths, v);
      assert Combined(p, m, c) && InRow(p, m, c, v);
      var k := OneIsLast(p, m, c, v);
      LandedLast(p, k, m, c, v);
      assert Kept(p, m, c);
    }
  }

  // ----- when all keys are columns of their line

  ghost predicate Fits(p: Plan)
    requires p.Ok()
  {
    forall k, h :: 0 <= k < |p.lines| && h in p.strings[k] ==> h < p.cols
  }

  /** Only the cell that a line left unused before a wide character can have a string for a later line. */
  lemma HiddenOnly(p: Plan, x: nat, m: nat, c: nat)
    requires p.Ok() && Fits(p) && x < m < |p.lines| && KeyOf(p, x, m, c) in p.strings[x]
    ensures x == m - 1 && c == 0 && WrappedLength(p.lines, x, p.cols) == p.cols - 1 == KeyOf(p, x, m, c)
  {
    hide Text, WrappedLength, Total;
    LineLength(p.lines, x, p.cols);
    TextStep(p.lines, p.cols, x);
    LinesInOrder(p, x + 1, m);
    assert 1 <= p.lengths[0] < p.cols;
    if x < m - 1 {
      LineLength(p.lines, x + 1, p.cols);
      TextStep(p.lines, p.cols, x + 1);
      LinesInOrder(p, x + 2, m);
    }
  }

  /** No wide combined character gets the string of the unused cell before it. */
  ghost predicate NoneHidden(p: Plan)
    requires p.Ok() && Filled(p)
  {
    forall m: nat, v: nat ::
      Combined(p, m, 0) && InRow(p, m, 0, v) && m > 0 && HasKey(p, m - 1, m, 0, v) ==>
      p.strings[m - 1][Origin(p, m - 1, m, 0, v)] == p.strings[m][0]
  }

  /** No combined character gets the string of another one of its line, a multiple of the line's shift away. */
  ghost predicate NoneOverwritten(p: Plan)
    requires p.Ok() && Filled(p)
  {
    forall m: nat, c: nat ::
      Combined(p, m, c) && InRow(p, m, c, m) ==>
      p.strings[m][ChainStart(p.strings[m], Shift(p, m), c)] == p.strings[m][c]
  }

  /** With keys that are columns, the strings land if and only if neither of the two failures occurs. */
  lemma FitIff(p: Plan)
    requires p.Ok() && Filled(p) && Fits(p)
    ensures StringsLand(p) <==> NoneHidden(p) && NoneOverwritten(p)
  {
    hide Text, WrappedLength, Total, Group, StringsLand, HasKey, InRow;
    LandIff(p);
    if NoneHidden(p) && NoneOverwritten(p) {
      forall m: nat, c: nat, v: nat, k: nat | Combined(p, m, c) && InRow(p, m, c, v) && CopiedLast(p, k, m, c, v)
        ensures p.strings[k][Origin(p, k, m, c, v)] == p.strings[m][c]
      {
        NeitherLost(p, m, c, v, k);
      }
    }
    if NoneLost(p) {
      forall m: nat, v: nat | Combined(p, m, 0) && InRow(p, m, 0, v) && m > 0 && HasKey(p, m - 1, m, 0, v)
        ensures p.strings[m - 1][Origin(p, m - 1, m, 0, v)] == p.strings[m][0]
      {
        BeforeIsLast(p, m, v);
        assert Kept(p, m, 0);
      }
      forall m: nat, c: nat | Combined(p, m, c) && InRow(p, m, c, m)
        ensures p.strings[m][ChainStart(p.strings[m], Shift(p, m), c)] == p.strings[m][c]
      {
        LostInLine(p, m, c);
      }
    }
  }

  lemma NeitherLost(p: Plan, m: nat, c: nat, v: nat, k: nat)
    requires p.Ok() && Filled(p) && Fits(p) && NoneHidden(p) && NoneOverwritten(p)
    requires Combined(p, m, c) && InRow(p, m, c, v) && CopiedLast(p, k, m, c, v)
    ensures p.strings[k][Origin(p, k, m, c, v)] == p.strings[m][c]
  {
    hide Text, WrappedLength, Total, Group;
    if k < m {
      HiddenOnly(p, k, m, c);
    }
  }

  lemma BeforeIsLast(p: Plan, m: nat, v: nat)
    requires p.Ok() && Fits(p) && m > 0 && HasKey(p, m - 1, m, 0, v)
    ensures CopiedLast(p, m - 1, m, 0, v)
  {
    hide Text, WrappedLength, Total, Group;
    forall x: nat | x < m - 1 ensures !HasKey(p, x, m, 0, v) {
      if HasKey(p, x, m, 0, v) {
        HiddenOnly(p, x, m, 0);
      }
    }
  }

  lemma LostInLine(p: Plan, m: nat, c: nat)
    requires p.Ok() && Filled(p) && Fits(p) && NoneLost(p) && Combined(p, m, c) && InRow(p, m, c, m)
    ensures p.strings[m][ChainStart(p.strings[m], Shift(p, m), c)] == p.strings[m][c]
  {
    hide Text, WrappedLength, Total, Group;
    var k := OneIsLast(p, m, c, m);
    assert Kept(p, m, c);
    if k < m {
      HiddenOnly(p, k, m, c);
    }
  }

  // ----- when there are no other strings than those displayed

  /** Exactly the cells of the text that hold a combined character have a string. */
  ghost predicate Clean(p: Plan)
    requires p.Ok()
  {
    forall k, h: nat :: 0 <= k < |p.lines| ==> (h in p.strings[k] <==> Combined(p, k, h))
  }

  /** Two different strings of line y stand as far apart as the line moves within itself, in the
      part of it that does. */
  ghost predicate Crossed(p: Plan, y: nat, h: nat)
    requires p.Ok() && y < |p.lines|
  {
    var d := Shift(p, y);
    && d > 0 && h + d < p.RowStart(y + 1) - p.LineStart(y)
    && h in p.strings[y] && h + d in p.strings[y] && p.strings[y][h] != p.strings[y][h + d]
  }

  ghost predicate NoneCrossed(p: Plan)
    requires p.Ok()
  {
    forall y, h: nat :: 0 <= y < |p.lines| ==> !Crossed(p, y, h)
  }

  /** When no strings cross, a chain in the moving part of a line has one string. */
  lemma {:induction false} OneString(p: Plan, y: nat, h: nat)
    requires p.Ok() && NoneCrossed(p) && y < |p.lines| && h in p.strings[y]
    requires h < p.RowStart(y + 1) - p.LineStart(y)
    ensures p.strings[y][ChainStart(p.strings[y], Shift(p, y), h)] == p.strings[y][h]
    decreases h
  {
    hide Text, Total, Group;
    var d := Shift(p, y);
    if d > 0 && h - d >= 0 && h - d in p.strings[y] {
      OneString(p, y, h - d);
      assert !Crossed(p, y, h - d);
    }
  }

  lemma CrossedCells(p: Plan, y: nat, h: nat)
    requires p.Ok() && Clean(p) && y < |p.lines| && Crossed(p, y, h)
    ensures
      var s, d := p.strings[y], Shift(p, y);
      && Combined(p, y, h) && InRow(p, y, h, y) && Combined(p, y, h + d) && InRow(p, y, h + d, y)
      && h in s && h + d in s && ChainStart(s, d, h + d) == ChainStart(s, d, h) && s[h] != s[h + d]
  {
    hide Text, WrappedLength, Total, Group;
  }

  lemma CrossedOverwrites(p: Plan, y: nat, h: nat)
    requires p.Ok() && Filled(p) && Clean(p) && NoneOverwritten(p) && y < |p.lines|
    ensures !Crossed(p, y, h)
  {
    hide Text, WrappedLength, Total, Group, Clean, Crossed, InRow, Combined;
    if Crossed(p, y, h) {
      CrossedCells(p, y, h);
    }
  }

  lemma CleanFits(p: Plan)
    requires p.Ok() && Clean(p)
    ensures Filled(p) && Fits(p) && NoneHidden(p)
  {
    hide Text, WrappedLength, Total, Group, InRow;
    forall x: nat, m: nat, v: nat | x + 1 == m ensures !HasKey(p, x, m, 0, v) {
      if HasKey(p, x, m, 0, v) {
        HiddenOnly(p, x, m, 0);
      }
    }
  }

  /** Without strings left over from earlier contents, the strings land with their cells if and only if none cross. */
  lemma CleanIff(p: Plan)
    requires p.Ok() && Clean(p)
    ensures StringsLand(p) <==> NoneCrossed(p)
  {
    hide Text, WrappedLength, Total, Group, StringsLand, Clean, Crossed, Fits;
    CleanFits(p);
    FitIff(p);
    if NoneCrossed(p) {
      forall m: nat, c: nat | Combined(p, m, c) && InRow(p, m, c, m)
        ensures c in p.strings[m] && p.strings[m][ChainStart(p.strings[m], Shift(p, m), c)] == p.strings[m][c]
      {
        OneString(p, m, c);
      }
    }
    if NoneOverwritten(p) {
      forall y, h: nat | 0 <= y < |p.lines| ensures !Crossed(p, y, h) {
        CrossedOverwrites(p, y, h);
      }
    }
  }

  // ----- an input on which a string is lost

  const CHAR: Cell := Cell(97, 1)
  const COMBINED: Cell := Cell(IS_COMBINED, 1)

  /** Five columns become four: the line of ten characters has combined ones at its sixth and seventh place. */
  const CROSSING: Plan := Plan(
    [[CHAR, CHAR, CHAR, CHAR, CHAR], [COMBINED, COMBINED, CHAR, CHAR, CHAR]], 5,
    [map[], map[0 := "P", 1 := "R"], map[]], [4, 4, 2])

  lemma CrossingText()
    ensures Group(CROSSING.lines, 5) && CROSSING.Ok()
    ensures CROSSING.LineStart(0) == 0 && CROSSING.LineStart(1) == 5 && CROSSING.LineStart(2) == 10
    ensures CROSSING.lengths == RowLengths(Text(CROSSING.lines, 5, 2), 4)
    ensures WrappedLength(CROSSING.lines, 0, 5) == 5 && WrappedLength(CROSSING.lines, 1, 5) == 5
  {
    var l0, l1 := CROSSING.lines[0], CROSSING.lines[1];
    forall i | 0 <= i < 5 ensures PairedAt(l0, i) && PairedAt(l1, i) {
    }
    assert TrimmedLength(l1) == 5;
    assert Text(CROSSING.lines, 5, 0) == [];
    assert Text(CROSSING.lines, 5, 1) == l0[..5] == l0;
    var text := Text(CROSSING.lines, 5, 2);
    assert text == l0 + l1[..5] && l1[..5] == l1;
    assert Total([2]) == 2 && Total([4, 2]) == 6 && [4, 4, 2][1..] == [4, 2] && [4, 2][1..] == [2];
    assert RowLengths(text[8..], 4) == [2];
    assert text[4..][4..] == text[8..];
    assert RowLengths(text[4..], 4) == [4] + RowLengths(text[8..], 4);
  }

  lemma CrossingClean()
    requires CROSSING.Ok()
    requires WrappedLength(CROSSING.lines, 0, 5) == 5 && WrappedLength(CROSSING.lines, 1, 5) == 5
    ensures Clean(CROSSING)
  {
    hide Text, WrappedLength, RowLengths;
    forall k, h: nat | 0 <= k < 2
      ensures h in CROSSING.strings[k] <==> h < 5 && IsCombined(CROSSING.lines[k][h])
    {
    }
  }

  /** The second row gets the string of the sixth character twice, the one of the seventh is lost. */
  lemma StringLost()
    ensures CROSSING.Ok() && CROSSING.lengths == RowLengths(Text(CROSSING.lines, 5, 2), 4)
    ensures Landed(CROSSING, 1, 1, 0) == Some("P") && Landed(CROSSING, 1, 2, 0) == Some("P")
    ensures Clean(CROSSING) && !StringsLand(CROSSING)
  {
    hide Clean, Text, WrappedLength, RowLengths;
    CrossingText();
    CrossingClean();
    var p := CROSSING;
    assert p.RowStart(1) == 4 && p.RowStart(2) == 8;
    assert Landed(p, 1, 1, 1) == Some(Read(p.strings[1], true, 0, 1, 0));
    assert Landed(p, 1, 2, 1) == Some(Read(p.strings[1], true, 0, 1, 1));
    DisplayedAt(p, 2, 1, 1);
    assert !(IsCombined(p.lines[1][1]) ==> Landed(p, 1, 2, 0) == GlyphOf(p.lines[1][1], p.strings[1], 1).combined);
  }

  // ----- an input on which a left-over string shows

  const UNUSED: Cell := Cell(0, 1)
  const BROAD: Cell := Cell(IS_COMBINED, 2)
  const TAIL: Cell := Cell(0, 0)

  /** Five columns become three: a line that wrapped before a wide combined character, with an old string at the cell it
      left unused. */
  const LEFT_OVER: Plan := Plan(
    [[CHAR, CHAR, CHAR, CHAR, UNUSED], [BROAD, TAIL, CHAR, CHAR, CHAR]], 5,
    [map[4 := "S"], map[0 := "E"], map[]], [3, 3, 3])

  const LEFT_OVER_TEXT: seq<Cell> := [CHAR, CHAR, CHAR, CHAR, BROAD, TAIL, CHAR, CHAR, CHAR]

  lemma LeftOverRows()
    ensures RowLengths(LEFT_OVER_TEXT, 3) == [3, 3, 3] && Total([3, 3, 3]) == 9
  {
    hide RowLengths;
    var text := LEFT_OVER_TEXT;
    assert [3, 3, 3][1..] == [3, 3] && [3, 3][1..] == [3] && Total([3]) == 3;
    NoRows(text[9..], 3);
    NextRow(text, 6, 3);
    NextRow(text, 3, 3);
    NextRow(text, 0, 3);
    assert text[0..] == text;
  }

  lemma LeftOverLines()
    ensures Group(LEFT_OVER.lines, 5)
    ensures WrappedLength(LEFT_OVER.lines, 0, 5) == 4 && WrappedLength(LEFT_OVER.lines, 1, 5) == 5
    ensures |Text(LEFT_OVER.lines, 5, 0)| == 0 && |Text(LEFT_OVER.lines, 5, 1)| == 4
    ensures Text(LEFT_OVER.lines, 5, 2) == LEFT_OVER_TEXT
  {
    var l0, l1 := LEFT_OVER.lines[0], LEFT_OVER.lines[1];
    assert TrimmedLength(l1) == 5;
    assert Text(LEFT_OVER.lines, 5, 0) == [];
    assert Text(LEFT_OVER.lines, 5, 1) == [] + Slice(l0, 0, 4);
    assert Text(LEFT_OVER.lines, 5, 2) == Text(LEFT_OVER.lines, 5, 1) + Slice(l1, 0, 5);
  }

  lemma LeftOverText()
    ensures LEFT_OVER.Ok()
    ensures LEFT_OVER.LineStart(0) == 0 && LEFT_OVER.LineStart(1) == 4 && LEFT_OVER.LineStart(2) == 9
    ensures LEFT_OVER.lengths == RowLengths(Text(LEFT_OVER.lines, 5, 2), 3)
    ensures WrappedLength(LEFT_OVER.lines, 0, 5) == 4 && WrappedLength(LEFT_OVER.lines, 1, 5) == 5
  {
    hide Text, WrappedLength, RowLengths, Total;
    LeftOverRows();
    LeftOverLines();
  }

  lemma LeftOverKept()
    requires LEFT_OVER.Ok() && WrappedLength(LEFT_OVER.lines, 0, 5) == 4 && WrappedLength(LEFT_OVER.lines, 1, 5) == 5
    requires LEFT_OVER.LineStart(0) == 0 && LEFT_OVER.LineStart(1) == 4
    ensures Filled(LEFT_OVER) && Fits(LEFT_OVER) && NoneCrossed(LEFT_OVER)
  {
    hide Text, WrappedLength, RowLengths;
    forall m: nat, c: nat | Combined(LEFT_OVER, m, c) ensures c in LEFT_OVER.strings[m] {
      assert m == 1 && c == 0;
    }
  }

  /** The old string replaces that of the wide character, although no strings cross. */
  lemma LeftOverShown()
    ensures LEFT_OVER.Ok() && LEFT_OVER.lengths == RowLengths(Text(LEFT_OVER.lines, 5, 2), 3)
    ensures Filled(LEFT_OVER) && Fits(LEFT_OVER) && NoneCrossed(LEFT_OVER) && !StringsLand(LEFT_OVER)
    ensures Landed(LEFT_OVER, 1, 1, 0) == Some("S")
  {
    hide Text, WrappedLength, RowLengths, NoneCrossed, Filled, Fits;
    LeftOverText();
    LeftOverKept();
    var p := LEFT_OVER;
    assert p.RowStart(1) == 3 && p.RowStart(2) == 6;
    assert Reaches(p, 0, 1) && KeyFor(p, 0, 1, 1) == 4;
    assert Landed(p, 1, 1, 0) == Some(Read(p.strings[0], false, 0, -3, 4));
    DisplayedAt(p, 2, 1, 0);
    assert IsCombined(CellAt(p.lines[1], 0)) && At(p.strings[1], 0) == Some("E");
  }
}
