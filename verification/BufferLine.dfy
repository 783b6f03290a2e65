/** Buffer lines: an array of cells, and the strings of the cells that hold a combined character. */
module BufferLines {
  import opened Options
  import opened Reflow

  const IS_COMBINED: nat := 0x20_0000

  type Strings = map<nat, string>

  predicate IsCombined(c: Cell) { c.content >= IS_COMBINED }

  function At(m: Strings, j: int): Option<string> { if j in m then Some(m[j]) else None }

  // ----- copying cells

  /** Which of n cells, copied one by one from column `from` on to column `to` on, ends up as the s-th: that cell,
      unless it has been overwritten, within one line, before it is read. */
  function SourceOf(within: bool, reverse: bool, from: nat, to: nat, n: nat, s: nat): (r: nat)
    requires s < n
    ensures r < n && (reverse ==> r >= s) && (!reverse ==> r <= s)
    decreases if reverse then n - s else s
  {
    if within && reverse && to < from && s + (from - to) < n then
      SourceOf(within, reverse, from, to, n, s + (from - to))
    else if within && !reverse && from < to && s >= to - from then
      SourceOf(within, reverse, from, to, n, s - (to - from))
    else s
  }

  function CopiedCells(dest: seq<Cell>, src: seq<Cell>, within: bool, reverse: bool, from: nat, to: nat, n: nat):
    (r: seq<Cell>)
    ensures |r| == |dest|
  {
    seq(|dest|, j requires 0 <= j < |dest| =>
      if to <= j < to + n then CellAt(src, from + SourceOf(within, reverse, from, to, n, j - to)) else dest[j])
  }

  /** Between two lines, and within one in the direction that suits, cells are copied as if all were read first. */
  lemma PlainCopy(dest: seq<Cell>, src: seq<Cell>, within: bool, reverse: bool, from: nat, to: nat, n: nat)
    requires to + n <= |dest| && (within ==> if reverse then from <= to else to <= from)
    ensures CopiedCells(dest, src, within, reverse, from, to, n) == dest[..to] + Slice(src, from, n) + dest[to + n..]
  {
    forall s | 0 <= s < n ensures SourceOf(within, reverse, from, to, n, s) == s {
    }
    var a, b := CopiedCells(dest, src, within, reverse, from, to, n), dest[..to] + Slice(src, from, n) + dest[to + n..];
    forall j | 0 <= j < |dest| ensures a[j] == b[j] {
    }
  }

  /** The cells from `lo` up to `hi` have been copied. */
  ghost predicate CopiedPart(now: seq<Cell>, dest: seq<Cell>, src: seq<Cell>, within: bool, reverse: bool,
                             from: nat, to: nat, n: nat, lo: nat, hi: nat)
  {
    && |now| == |dest| && hi <= n
    && (forall j :: 0 <= j < |dest| && !(to + lo <= j < to + hi) ==> now[j] == dest[j])
    && forall j :: 0 <= j < |dest| && to + lo <= j < to + hi ==>
        now[j] == CellAt(src, from + SourceOf(within, reverse, from, to, n, j - to))
  }

  function Written(line: seq<Cell>, j: nat, cell: Cell): seq<Cell> { if j < |line| then line[j := cell] else line }

  lemma NothingCopied(dest: seq<Cell>, src: seq<Cell>, within: bool, reverse: bool, from: nat, to: nat, n: nat)
    ensures
      var s := if reverse then n else 0;
      CopiedPart(dest, dest, src, within, reverse, from, to, n, s, s)
  {
  }

  /** One more cell at either end of the part. */
  lemma PartGrows(now: seq<Cell>, dest: seq<Cell>, src: seq<Cell>, within: bool, reverse: bool,
                  from: nat, to: nat, n: nat, lo: nat, hi: nat, s: nat, cell: Cell)
    requires CopiedPart(now, dest, src, within, reverse, from, to, n, lo, hi) && lo <= hi && s < n
    requires to + s < |dest| ==> cell == CellAt(src, from + SourceOf(within, reverse, from, to, n, s))
    ensures s == hi ==> CopiedPart(Written(now, to + s, cell), dest, src, within, reverse, from, to, n, lo, s + 1)
    ensures s + 1 == lo ==> CopiedPart(Written(now, to + s, cell), dest, src, within, reverse, from, to, n, s, hi)
  {
    hide SourceOf, CellAt;
  }

  lemma CellThen(now: seq<Cell>, dest: seq<Cell>, src: seq<Cell>, within: bool, reverse: bool,
                 from: nat, to: nat, n: nat, lo: nat, hi: nat, j: nat)
    requires CopiedPart(now, dest, src, within, reverse, from, to, n, lo, hi)
    ensures |now| == |dest| && hi <= n
    ensures j < |dest| && !(to + lo <= j < to + hi) ==> now[j] == dest[j]
    ensures j < |dest| && to + lo <= j < to + hi ==>
      now[j] == CellAt(src, from + SourceOf(within, reverse, from, to, n, j - to))
  {
    hide SourceOf;
  }

  lemma BackwardStep(now: seq<Cell>, dest: seq<Cell>, src: seq<Cell>, within: bool, from: nat, to: nat, n: nat, s: nat)
    requires s < n && CopiedPart(now, dest, src, within, true, from, to, n, s + 1, n) && (within ==> dest == src)
    ensures
      var cell := CellAt(if within then now else src, from + s);
      CopiedPart(Written(now, to + s, cell), dest, src, within, true, from, to, n, s, n)
  {
    hide CopiedPart;
    CellThen(now, dest, src, within, true, from, to, n, s + 1, n, from + s);
    var cell := CellAt(if within then now else src, from + s);
    PartGrows(now, dest, src, within, true, from, to, n, s + 1, n, s, cell);
  }

  lemma ForwardStep(now: seq<Cell>, dest: seq<Cell>, src: seq<Cell>, within: bool, from: nat, to: nat, n: nat, s: nat)
    requires s < n && CopiedPart(now, dest, src, within, false, from, to, n, 0, s) && (within ==> dest == src)
    ensures
      var cell := CellAt(if within then now else src, from + s);
      CopiedPart(Written(now, to + s, cell), dest, src, within, false, from, to, n, 0, s + 1)
  {
    hide CopiedPart;
    CellThen(now, dest, src, within, false, from, to, n, 0, s, from + s);
    var cell := CellAt(if within then now else src, from + s);
    PartGrows(now, dest, src, within, false, from, to, n, 0, s, s, cell);
  }

  lemma AllCopied(now: seq<Cell>, dest: seq<Cell>, src: seq<Cell>, within: bool, reverse: bool,
                  from: nat, to: nat, n: nat)
    requires CopiedPart(now, dest, src, within, reverse, from, to, n, 0, n)
    ensures now == CopiedCells(dest, src, within, reverse, from, to, n)
  {
  }

  // ----- copying strings

  /** What the loop over the keys reads at key h. When it copies d columns to the right within one line, the lower keys
      come first, and key h - d has already been copied onto key h. */
  function Read(m: Strings, within: bool, t: nat, d: int, h: nat): string
    requires h in m
  {
    if within && d > 0 && h - d >= t && h - d in m then Read(m, within, t, d, h - d) else m[h]
  }

  /** The strings of a line after a copy of all keys from t on to the keys d columns on. */
  function After(dest: Strings, src: Strings, within: bool, t: nat, d: int, j: int): Option<string> {
    if j - d >= t && j - d in src then Some(Read(src, within, t, d, j - d)) else At(dest, j)
  }

  ghost predicate Copied(now: Strings, dest: Strings, src: Strings, within: bool, t: nat, d: int) {
    forall j: int :: At(now, j) == After(dest, src, within, t, d, j)
  }

  /** The copy of the keys in `done` only. */
  ghost predicate CopiedKeys(now: Strings, dest: Strings, src: Strings, within: bool, t: nat, d: int, done: seq<nat>)
    requires forall h :: h in done ==> h in src
  {
    forall j: int :: At(now, j) == AfterKeys(dest, src, within, t, d, done, j)
  }

  ghost function AfterKeys(dest: Strings, src: Strings, within: bool, t: nat, d: int,
                           done: seq<nat>, j: int): Option<string>
    requires forall h :: h in done ==> h in src
  {
    if j - d >= t && j - d in done then Some(Read(src, within, t, d, j - d)) else At(dest, j)
  }

  /** The next key in ascending order. */
  lemma NextKey(now: Strings, dest: Strings, src: Strings, within: bool, t: nat, r: nat, keys: seq<nat>,
                c: nat, s: string)
    requires Ascending(keys) && c < |keys| && (forall h :: h in keys <==> h in src)
    requires within ==> dest == src
    requires CopiedKeys(now, dest, src, within, t, r - t, keys[..c])
    requires keys[c] >= t ==> At(if within then now else src, keys[c]) == Some(s)
    ensures CopiedKeys(if keys[c] >= t then now[keys[c] - t + r := s] else now,
                       dest, src, within, t, r - t, keys[..c + 1])
  {
    hide Ascending;
    var h, d := keys[c], r - t;
    assert keys[..c + 1] == keys[..c] + [h] && h in keys;
    LowerKeysFirst(keys, c, h - d);
    if h >= t && within {
      assert At(now, h) == AfterKeys(dest, src, within, t, d, keys[..c], h);
    }
    var next := if h >= t then now[h - t + r := s] else now;
    forall j: int ensures At(next, j) == AfterKeys(dest, src, within, t, d, keys[..c + 1], j) {
      assert At(now, j) == AfterKeys(dest, src, within, t, d, keys[..c], j);
    }
  }

  lemma {:induction false} LeastIn(s: set<nat>) returns (x: nat)
    requires s != {}
    ensures x in s && forall y :: y in s ==> x <= y
  {
    var z :| z in s;
    if s == {z} {
      x := z;
    } else {
      var rest := s - {z};
      assert s == rest + {z};
      var y := LeastIn(rest);
      x := if z < y then z else y;
      assert forall k :: k in s ==> k == z || k in rest;
    }
  }

  ghost predicate Ascending(keys: seq<nat>) {
    forall i, j :: 0 <= i < j < |keys| ==> keys[i] < keys[j]
  }

  /** Object.keys: the keys of an object that are numbers come in ascending order. */
  method Keys(m: Strings) returns (keys: seq<nat>)
    ensures Ascending(keys) && forall h :: h in keys <==> h in m
  {
    keys := [];
    var rest := m.Keys;
    while rest != {}
      invariant Ascending(keys) && forall h :: h in m <==> h in keys || h in rest
      invariant forall h, k :: h in keys && k in rest ==> h < k
      decreases rest
    {
      ghost var least := LeastIn(rest);
      var h :| h in rest && forall k :: k in rest ==> h <= k;
      assert forall i :: 0 <= i < |keys| ==> keys[i] in keys;
      keys := keys + [h];
      rest := rest - {h};
    }
  }

  class BufferLine {
    const data: array<Cell>
    var combined: Strings

    /** A line of blank cells. */
    constructor (cols: nat, blank: Cell)
      ensures fresh(data) && data[..] == seq(cols, i => blank) && combined == map[]
    {
      data := new Cell[cols](i => blank);
      combined := map[];
    }

    /** Copies cells, and then the strings of all cells from srcCol on, the first one first. */
    method CopyCellsFrom(src: BufferLine, srcCol: nat, destCol: nat, length: nat, applyInReverse: bool)
      requires src == this || src.data != data
      modifies data, `combined
      ensures data[..] == CopiedCells(
        old(data[..]), old(src.data[..]), src == this, applyInReverse, srcCol, destCol, length)
      ensures Copied(combined, old(combined), old(src.combined), src == this, srcCol, destCol - srcCol)
    {
      hide CopiedCells, Copied;
      if applyInReverse {
        CopyBackward(src, srcCol, destCol, length);
      } else {
        CopyForward(src, srcCol, destCol, length);
      }
      CopyStrings(src, srcCol, destCol);
    }

    /** The last cell first. */
    method CopyBackward(src: BufferLine, srcCol: nat, destCol: nat, length: nat)
      requires src == this || src.data != data
      modifies data
      ensures data[..] == CopiedCells(old(data[..]), old(src.data[..]), src == this, true, srcCol, destCol, length)
    {
      hide CopiedPart, CopiedCells;
      ghost var dest, was := data[..], src.data[..];
      NothingCopied(dest, was, src == this, true, srcCol, destCol, length);
      var s := length;
      while s > 0
        invariant 0 <= s <= length && (src != this ==> src.data[..] == was)
        invariant CopiedPart(data[..], dest, was, src == this, true, srcCol, destCol, length, s, length)
      {
        s := s - 1;
        BackwardStep(data[..], dest, was, src == this, srcCol, destCol, length, s);
        CopyCell(src, srcCol + s, destCol + s);
      }
      AllCopied(data[..], dest, was, src == this, true, srcCol, destCol, length);
    }

    /** The first cell first. */
    method CopyForward(src: BufferLine, srcCol: nat, destCol: nat, length: nat)
      requires src == this || src.data != data
      modifies data
      ensures data[..] == CopiedCells(old(data[..]), old(src.data[..]), src == this, false, srcCol, destCol, length)
    {
      hide CopiedPart, CopiedCells;
      ghost var dest, was := data[..], src.data[..];
      NothingCopied(dest, was, src == this, false, srcCol, destCol, length);
      for s := 0 to length
        invariant src != this ==> src.data[..] == was
        invariant CopiedPart(data[..], dest, was, src == this, false, srcCol, destCol, length, 0, s)
      {
        ForwardStep(data[..], dest, was, src == this, srcCol, destCol, length, s);
        CopyCell(src, srcCol + s, destCol + s);
      }
      AllCopied(data[..], dest, was, src == this, false, srcCol, destCol, length);
    }

    /** A write behind the end of the array is ignored. */
    method CopyCell(src: BufferLine, k: nat, j: nat)
      modifies data
      ensures data[..] == Written(old(data[..]), j, CellAt(old(src.data[..]), k))
    {
      if j < data.Length {
        data[j] := if k < src.data.Length then src.data[k] else Cell(0, 0);
      }
    }

    method CopyStrings(src: BufferLine, srcCol: nat, destCol: nat)
      modifies `combined
      ensures Copied(combined, old(combined), old(src.combined), src == this, srcCol, destCol - srcCol)
    {
      var keys := Keys(src.combined);
      ghost var d, was, dest := destCol - srcCol, src.combined, combined;
      var c := 0;
      while c < |keys|
        invariant 0 <= c <= |keys|
        invariant src != this ==> src.combined == was
        invariant src == this ==> forall h :: h in keys ==> h in combined
        invariant CopiedKeys(combined, dest, was, src == this, srcCol, d, keys[..c])
      {
        var h: nat := keys[c];
        assert h in keys;
        NextKey(combined, dest, was, src == this, srcCol, destCol, keys, c, src.combined[h]);
        if h >= srcCol {
          combined := combined[h - srcCol + destCol := src.combined[h]];
        }
        c := c + 1;
      }
      AllKeys(combined, dest, was, src == this, srcCol, d, keys);
    }
  }

  lemma AllKeys(now: Strings, dest: Strings, src: Strings, within: bool, t: nat, d: int, keys: seq<nat>)
    requires forall h :: h in keys <==> h in src
    requires CopiedKeys(now, dest, src, within, t, d, keys[..|keys|])
    ensures Copied(now, dest, src, within, t, d)
  {
    assert keys[..|keys|] == keys;
    forall j: int ensures At(now, j) == After(dest, src, within, t, d, j) {
      assert At(now, j) == AfterKeys(dest, src, within, t, d, keys, j);
    }
  }

  lemma LowerKeysFirst(keys: seq<nat>, c: nat, k: int)
    requires Ascending(keys) && c < |keys|
    ensures k < keys[c] ==> (k in keys[..c] <==> k in keys)
    ensures k >= keys[c] ==> k !in keys[..c]
    ensures keys[c] !in keys[..c]
  {
    if k < keys[c] && k in keys {
      var i :| 0 <= i < |keys| && keys[i] == k;
      assert i < c;
    }
  }
}
