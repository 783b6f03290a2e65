/** DynamicCharAtlas: which cell of the bitmap holds which glyph. */
module GlyphAtlas {
  import opened Options
  import opened LruSpec
  import opened LruMaps

  datatype Glyph = Glyph(code: nat, fg: nat, bg: nat, bold: bool, dim: bool, italic: bool)

  // The cell of a glyph, and whether nothing is to be seen in it.
  datatype Slot = Slot(index: nat, isEmpty: bool)

  const CANVAS_SIZE: nat := 1024
  const MAX_DRAWS_PER_FRAME: nat := 100

  function Flag(b: bool, weight: nat): nat { if b then 0 else weight }

  /** The colors of a palette, and the codes that the atlas accepts. */
  predicate Packable(g: Glyph) { g.code < 256 && g.fg < 512 && g.bg < 512 }

  /** The bitwise or of two numbers. */
  function Or(a: nat, b: nat): nat
    decreases a + b
  {
    if a == 0 && b == 0 then 0
    else 2 * Or(a / 2, b / 2) + if a % 2 == 1 || b % 2 == 1 then 1 else 0
  }

  /** getGlyphCacheKey: the parts of the glyph, shifted and joined by a bitwise or. */
  function CacheKey(g: Glyph): nat
    requires Packable(g)
  {
    Or(Or(Or(g.code * 0x20_0000, g.bg * 0x1000), g.fg * 8), Flag(g.bold, 4) + Flag(g.dim, 2) + Flag(g.italic, 1))
  }

  function Power(k: nat): nat { if k == 0 then 1 else 2 * Power(k - 1) }

  /** Joining a multiple of a power of two with a smaller number adds them. */
  lemma {:induction false} OrAdds(k: nat, a: nat, b: nat)
    requires b < Power(k)
    ensures Or(a * Power(k), b) == a * Power(k) + b
  {
    if k == 0 {
      OrNothing(a);
    } else {
      var m := a * Power(k - 1);
      assert a * Power(k) == 2 * m;
      OrAdds(k - 1, a, b / 2);
      assert 2 * m / 2 == m;
    }
  }

  lemma {:induction false} OrNothing(a: nat)
    ensures Or(a, 0) == a
  {
    if a > 0 {
      OrNothing(a / 2);
    }
  }

  /** The shifted parts do not overlap, so that the or is a sum, which fits into 32 bits. */
  lemma KeyPartsApart(g: Glyph)
    requires Packable(g)
    ensures CacheKey(g) ==
      g.code * 0x20_0000 + g.bg * 0x1000 + g.fg * 8 + Flag(g.bold, 4) + Flag(g.dim, 2) + Flag(g.italic, 1)
    ensures CacheKey(g) < 0x2000_0000
  {
    hide Or, Power;
    Powers();
    OrAdds(21, g.code, g.bg * 0x1000);
    OrAdds(12, g.code * 0x200 + g.bg, g.fg * 8);
    var flags := Flag(g.bold, 4) + Flag(g.dim, 2) + Flag(g.italic, 1);
    OrAdds(3, g.code * 0x4_0000 + g.bg * 0x200 + g.fg, flags);
  }

  lemma Powers()
    ensures Power(3) == 8 && Power(12) == 0x1000 && Power(21) == 0x20_0000
  {
    assert Power(6) == 64;
    assert Power(9) == 512;
    assert Power(15) == 0x8000;
    assert Power(18) == 0x4_0000;
  }

  /** Different glyphs have different keys. */
  lemma KeyInjective(g: Glyph, h: Glyph)
    requires Packable(g) && Packable(h) && CacheKey(g) == CacheKey(h)
    ensures g == h
  {
    hide CacheKey;
    KeyPartsApart(g);
    KeyPartsApart(h);
    assert g.code == h.code && g.bg == h.bg && g.fg == h.fg;
  }

  type Cells = Entries<int, Slot>

  ghost predicate Taken(c: Cells, x: int) {
    exists i :: 0 <= i < |c| && c[i].1.index == x
  }

  /** The cells in use are exactly 0 .. |c| - 1, each for one glyph only. */
  ghost predicate SlotsExact(c: Cells) {
    && (forall i :: 0 <= i < |c| ==> c[i].1.index < |c|)
    && (forall i, j :: 0 <= i < j < |c| ==> c[i].1.index != c[j].1.index)
    && forall x :: 0 <= x < |c| ==> Taken(c, x)
  }

  /** Moving an entry to the end. */
  lemma RotateKeeps(c: Cells, i: nat, k: int, s: Slot)
    requires SlotsExact(c) && i < |c| && s.index == c[i].1.index
    ensures SlotsExact(c[..i] + c[i + 1..] + [(k, s)])
  {
    var d := c[..i] + c[i + 1..] + [(k, s)];
    forall j | 0 <= j < |d| - 1 ensures d[j] == c[if j < i then j else j + 1] {
    }
    forall x | 0 <= x < |d| ensures Taken(d, x) {
      assert Taken(c, x);
      var j :| 0 <= j < |c| && c[j].1.index == x;
      var j' := if j < i then j else if j == i then |d| - 1 else j - 1;
      assert d[j'].1.index == x;
    }
  }

  lemma TouchKeeps(c: Cells, k: int)
    requires SlotsExact(c) && DistinctKeys(c)
    ensures SlotsExact(Touch(c, k))
  {
    if Has(c, k) {
      var i :| 0 <= i < |c| && c[i].0 == k;
      AtKey(c, i);
      RotateKeeps(c, i, k, c[i].1);
    } else {
      NotThere(c, k);
    }
  }

  /** A new glyph takes the next cell, or the cell of the least recently used one. */
  lemma PutKeeps(c: Cells, capacity: nat, k: int, isEmpty: bool)
    requires SlotsExact(c) && DistinctKeys(c) && !Has(c, k) && |c| <= capacity && capacity >= 1
    ensures
      var index := if |c| < capacity then |c| else c[0].1.index;
      SlotsExact(Put(c, capacity, k, Slot(index, isEmpty)))
  {
    NotThere(c, k);
    if |c| < capacity {
      var d := c + [(k, Slot(|c|, isEmpty))];
      forall x | 0 <= x < |d| ensures Taken(d, x) {
        if x < |c| {
          assert Taken(c, x);
          var j :| 0 <= j < |c| && c[j].1.index == x;
          assert d[j].1.index == x;
        } else {
          assert d[|c|].1.index == x;
        }
      }
    } else {
      RotateKeeps(c, 0, k, Slot(c[0].1.index, isEmpty));
      assert c[..0] + c[1..] == c[1..];
    }
  }

  lemma {:induction false} LastIsFound(c: Cells, k: int, v: Slot)
    requires !Has(c, k)
    ensures ValueOf(c + [(k, v)], k) == Some(v)
  {
    if c != [] {
      assert c[0].0 != k;
      forall i | 0 <= i < |c[1..]| ensures c[1..][i].0 != k {
        assert c[1..][i] == c[i + 1];
      }
      LastIsFound(c[1..], k, v);
      assert (c + [(k, v)])[1..] == c[1..] + [(k, v)];
    }
  }

  /** After either step the glyph is found where it was put. */
  lemma UsedIsFound(c: Cells, capacity: nat, k: int, v: Slot)
    requires DistinctKeys(c)
    ensures Has(c, k) ==> ValueOf(Touch(c, k), k) == ValueOf(c, k)
    ensures !Has(c, k) ==> ValueOf(Put(c, capacity, k, v), k) == Some(v)
  {
    if Has(c, k) {
      var i :| 0 <= i < |c| && c[i].0 == k;
      AtKey(c, i);
      KeysAfterRemove(c, i);
      LastIsFound(c[..i] + c[i + 1..], k, c[i].1);
    } else {
      NotThere(c, k);
      LastIsFound(c, k, v);
      if c != [] {
        forall i | 0 <= i < |c[1..]| ensures c[1..][i].0 != k {
          assert c[1..][i] == c[i + 1];
        }
        LastIsFound(c[1..], k, v);
      }
    }
  }

  datatype Drawn = Blank | NotDrawn | FromCell(index: nat, isEmpty: bool)

  class DynamicCharAtlas {
    const width: nat   // cells in a row
    const height: nat  // rows
    const charWidth: nat
    const charHeight: nat
    const cacheMap: LruMap<Slot>
    var drawToCacheCount: nat

    ghost predicate Valid()
      reads this, cacheMap, cacheMap.order, cacheMap.nodePool
    {
      && cacheMap.Valid() && cacheMap.capacity >= 1
      && Laid()
      && SlotsExact(cacheMap.Contents())
    }

    /** The cells lie on the canvas, and the cache has one entry for each. */
    ghost predicate Laid() {
      && cacheMap.capacity == width * height
      && charWidth > 0 && charHeight > 0
      && width * charWidth <= CANVAS_SIZE && height * charHeight <= CANVAS_SIZE
    }

    constructor (charWidth: nat, charHeight: nat)
      requires 0 < charWidth <= CANVAS_SIZE && 0 < charHeight <= CANVAS_SIZE
      ensures Valid() && cacheMap.Contents() == [] && fresh(cacheMap)
      ensures this.charWidth == charWidth && this.charHeight == charHeight
      ensures width == CANVAS_SIZE / charWidth && height == CANVAS_SIZE / charHeight
    {
      this.charWidth, this.charHeight := charWidth, charHeight;
      width, height := CANVAS_SIZE / charWidth, CANVAS_SIZE / charHeight;
      Sizes(charWidth);
      Sizes(charHeight);
      var cache := new LruMap<Slot>(CANVAS_SIZE / charWidth * (CANVAS_SIZE / charHeight));
      cache.Prealloc(CANVAS_SIZE / charWidth * (CANVAS_SIZE / charHeight), 0, Slot(0, true));
      cacheMap := cache;
      drawToCacheCount := 0;
    }

    method BeginFrame()
      requires Valid()
      modifies this
      ensures Valid() && drawToCacheCount == 0
    {
      drawToCacheCount := 0;
    }

    /** Draws from the cell of the glyph, which is nobody else's cell, and first
        gives the glyph a cell when it has none and the frame allows it. */
    method Draw(g: Glyph, isEmpty: bool) returns (r: Drawn)
      requires Valid() && (g.code < 256 ==> Packable(g))
      modifies this, cacheMap, cacheMap.Nodes()
      ensures Valid()
      ensures r == Blank <==> g.code == 32
      ensures r.FromCell? ==>
              g.code < 256 && ValueOf(cacheMap.Contents(), CacheKey(g)) == Some(Slot(r.index, r.isEmpty))
      ensures
        var c, c' := old(cacheMap.Contents()), cacheMap.Contents();
        if g.code == 32 || g.code >= 256 then
          c' == c && drawToCacheCount == old(drawToCacheCount) && (g.code >= 256 ==> r == NotDrawn)
        else
          var key := CacheKey(g);
          if Has(c, key) then
            && c' == Touch(c, key) && drawToCacheCount == old(drawToCacheCount)
            && ValueOf(c, key).Some? && r == FromCell(ValueOf(c, key).value.index, ValueOf(c, key).value.isEmpty)
          else if old(drawToCacheCount) < MAX_DRAWS_PER_FRAME then
            && r == FromCell(if |c| < cacheMap.capacity || c == [] then |c| else c[0].1.index, isEmpty)
            && c' == Put(c, cacheMap.capacity, key, Slot(r.index, isEmpty))
            && drawToCacheCount == old(drawToCacheCount) + 1
          else
            c' == c && r == NotDrawn && drawToCacheCount == old(drawToCacheCount)
    {
      hide CacheKey, SlotsExact, Touch, Put, Has, ValueOf, DistinctKeys, LruMap.Valid, Laid;
      if g.code == 32 {
        return Blank;
      }
      if g.code >= 256 {
        return NotDrawn;
      }
      var key := CacheKey(g);
      cacheMap.KeysDistinct();
      HitIffHas(cacheMap.Contents(), key);
      TouchKeeps(cacheMap.Contents(), key);
      UsedIsFound(cacheMap.Contents(), cacheMap.capacity, key, Slot(0, true));
      var found := cacheMap.Get(key);
      if found.Some? {
        return FromCell(found.value.index, found.value.isEmpty);
      }
      if drawToCacheCount < MAX_DRAWS_PER_FRAME {
        drawToCacheCount := drawToCacheCount + 1;
        var index := AddGlyph(key, isEmpty);
        return FromCell(index, isEmpty);
      }
      return NotDrawn;
    }

    /** Gives a new glyph the next free cell or that of the least recently used one. */
    method AddGlyph(key: int, isEmpty: bool) returns (index: nat)
      requires Valid() && !Has(cacheMap.Contents(), key)
      modifies cacheMap, cacheMap.Nodes()
      ensures Valid()
      ensures
        var c := old(cacheMap.Contents());
        && index == (if |c| < cacheMap.capacity || c == [] then |c| else c[0].1.index)
        && cacheMap.Contents() == Put(c, cacheMap.capacity, key, Slot(index, isEmpty))
        && ValueOf(cacheMap.Contents(), key) == Some(Slot(index, isEmpty))
    {
      hide SlotsExact, Touch, Put, Has, ValueOf, DistinctKeys, Laid;
      cacheMap.KeysDistinct();
      PutKeeps(cacheMap.Contents(), cacheMap.capacity, key, isEmpty);
      var first := cacheMap.Peek();
      index := if cacheMap.size < cacheMap.capacity then cacheMap.size else first.value.index;
      UsedIsFound(cacheMap.Contents(), cacheMap.capacity, key, Slot(index, isEmpty));
      cacheMap.Set(key, Slot(index, isEmpty));
    }
  }

  lemma HitIffHas(c: Cells, k: int)
    requires DistinctKeys(c)
    ensures ValueOf(c, k).Some? <==> Has(c, k)
    ensures !Has(c, k) ==> Touch(c, k) == c
  {
    if Has(c, k) {
      var i :| 0 <= i < |c| && c[i].0 == k;
      AtKey(c, i);
    } else {
      NotThere(c, k);
    }
  }

  // ----- cells on the canvas

  function CoordinateX(width: nat, charWidth: nat, index: nat): nat
    requires width > 0
  {
    index % width * charWidth
  }

  function CoordinateY(width: nat, charHeight: nat, index: nat): nat
    requires width > 0
  {
    index / width * charHeight
  }

  lemma Sizes(size: nat)
    requires 0 < size <= CANVAS_SIZE
    ensures CANVAS_SIZE / size >= 1 && CANVAS_SIZE / size * size <= CANVAS_SIZE
  {
  }

  lemma {:induction false} Apart(a: nat, b: nat, size: nat)
    requires a < b
    ensures a * size + size <= b * size
    decreases b
  {
    if a + 1 < b {
      Apart(a, b - 1, size);
    }
  }

  lemma AtLeast(a: nat, b: nat, size: nat)
    requires a <= b
    ensures a * size <= b * size
  {
    if a < b {
      Apart(a, b, size);
    }
  }

  /** The cells fill the canvas row by row, and the rectangle of each lies on it. */
  lemma CellOnCanvas(width: nat, height: nat, charWidth: nat, charHeight: nat, index: nat)
    requires charWidth > 0 && charHeight > 0 && index < width * height
    requires width * charWidth <= CANVAS_SIZE && height * charHeight <= CANVAS_SIZE
    ensures
      var x, y := CoordinateX(width, charWidth, index), CoordinateY(width, charHeight, index);
      && x + charWidth <= CANVAS_SIZE && y + charHeight <= CANVAS_SIZE
      && exists row: nat, column: nat ::
        column < width && row < height && index == row * width + column
        && x == column * charWidth && y == row * charHeight
  {
    var row, column := index / width, index % width;
    assert index == row * width + column;
    if row >= height {
      AtLeast(height, row, width);
    }
    Apart(column, width, charWidth);
    Apart(row, height, charHeight);
  }

  /** The rectangles of different cells do not overlap. */
  lemma CellsApart(width: nat, charWidth: nat, charHeight: nat, a: nat, b: nat)
    requires width > 0 && a != b
    ensures
      var xa, xb := CoordinateX(width, charWidth, a), CoordinateX(width, charWidth, b);
      var ya, yb := CoordinateY(width, charHeight, a), CoordinateY(width, charHeight, b);
      xa + charWidth <= xb || xb + charWidth <= xa || ya + charHeight <= yb || yb + charHeight <= ya
  {
    assert a == a / width * width + a % width && b == b / width * width + b % width;
    if a % width < b % width {
      Apart(a % width, b % width, charWidth);
    } else if b % width < a % width {
      Apart(b % width, a % width, charWidth);
    } else if a / width < b / width {
      Apart(a / width, b / width, charHeight);
    } else {
      Apart(b / width, a / width, charHeight);
    }
  }

  /** Two glyphs in the cache never share a piece of the bitmap. */
  lemma GlyphsNeverShareCells(c: Cells, i: nat, j: nat, width: nat, charWidth: nat, charHeight: nat)
    requires SlotsExact(c) && i < |c| && j < |c| && i != j && width > 0
    ensures
      var a, b := c[i].1.index, c[j].1.index;
      var xa, xb := CoordinateX(width, charWidth, a), CoordinateX(width, charWidth, b);
      var ya, yb := CoordinateY(width, charHeight, a), CoordinateY(width, charHeight, b);
      xa + charWidth <= xb || xb + charWidth <= xa || ya + charHeight <= yb || yb + charHeight <= ya
  {
    CellsApart(width, charWidth, charHeight, c[i].1.index, c[j].1.index);
  }
}
