/** CircularList: the lines of a terminal buffer in a ring. */
module CircularLists {
  import opened Options

  // ----- positions on the ring

  function Cyclic(start: nat, max: nat, i: nat): (r: nat)
    requires max > 0
    ensures r < max
  {
    (start + i) % max
  }

  lemma ModStep(a: nat, max: nat)
    requires max > 0
    ensures (a + max) % max == a % max
  {
    var q, r := a / max, a % max;
    assert a + max == (q + 1) * max + r;
    DivUnique(a + max, max, q + 1, r);
  }

  lemma DivUnique(a: nat, max: nat, q: nat, r: nat)
    requires max > 0 && a == q * max + r && r < max
    ensures a % max == r
  {
    var d := a / max - q;
    assert a == a / max * max + a % max;
    assert d * max == r - a % max;
    Multiples(d, max);
  }

  lemma Multiples(d: int, max: nat)
    ensures d >= 1 ==> d * max >= max
    ensures d <= -1 ==> d * max + max <= 0
    ensures d == 0 ==> d * max == 0
  {
  }

  /** Positions less than a lap apart are different slots. */
  lemma CyclicApart(start: nat, max: nat, i: nat, j: nat)
    requires i < j < i + max && max > 0
    ensures Cyclic(start, max, i) != Cyclic(start, max, j)
  {
    var a, b := start + i, start + j;
    if a % max == b % max {
      assert a == a / max * max + a % max && b == b / max * max + b % max;
      assert b - a == (b / max - a / max) * max;
      Multiples(b / max - a / max, max);
    }
  }

  /** Advancing the start, with or without reducing it to the ring. */
  lemma CyclicAdvance(start: nat, max: nat, k: nat, i: nat)
    requires max > 0
    ensures Cyclic(start + k, max, i) == Cyclic(start, max, k + i)
    ensures Cyclic((start + k) % max, max, i) == Cyclic(start, max, k + i)
  {
    var a := start + k;
    assert a == a / max * max + a % max;
    Laps(a % max + i, max, a / max);
  }

  lemma {:induction false} Laps(a: nat, max: nat, n: nat)
    requires max > 0
    ensures (n * max + a) % max == a % max
  {
    if n > 0 {
      Laps(a, max, n - 1);
      ModStep((n - 1) * max + a, max);
      assert (n - 1) * max + a + max == n * max + a;
    }
  }

  /** A position brought back to the first lap. */
  function Norm(p: nat, max: nat): (r: nat)
    requires max > 0
    ensures r < max
  {
    p % max
  }

  lemma CyclicNorm(start: nat, max: nat, p: nat)
    requires max > 0
    ensures Cyclic(start, max, p) == Cyclic(start, max, Norm(p, max))
  {
    assert p == p / max * max + p % max;
    Laps(start + p % max, max, p / max);
  }

  lemma NormNear(p: nat, max: nat)
    requires p < 2 * max
    ensures Norm(p, max) == if p < max then p else p - max
  {
    if p < max {
      DivUnique(p, max, 0, p);
    } else {
      DivUnique(p, max, 1, p - max);
    }
  }

  /** The slots in the order of the ring, from the start index on. */
  function Ring<T>(s: seq<T>, start: nat): (w: seq<T>)
    requires |s| > 0
    ensures |w| == |s| && forall i :: 0 <= i < |w| ==> w[i] == s[Cyclic(start, |s|, i)]
  {
    seq(|s|, i requires 0 <= i < |s| => s[Cyclic(start, |s|, i)])
  }

  /** The element at a position any number of laps ahead. */
  function Around<T>(w: seq<T>, p: nat): T
    requires |w| > 0
  {
    w[Norm(p, |w|)]
  }

  lemma InFirstLap<T>(w: seq<T>)
    requires |w| > 0
    ensures forall p :: 0 <= p < |w| ==> Around(w, p) == w[p]
  {
    hide Norm;
    forall p | 0 <= p < |w| ensures Around(w, p) == w[p] {
      NormNear(p, |w|);
    }
  }

  /** Positions one lap apart are the same, others within a lap are not. */
  lemma NormLap(p: nat, max: nat)
    requires max > 0
    ensures Norm(p + max, max) == Norm(p, max)
  {
    ModStep(p, max);
  }

  lemma NormApart(p: nat, q: nat, max: nat)
    requires p < q < p + max && max > 0
    ensures Norm(p, max) != Norm(q, max)
  {
    CyclicApart(0, max, p, q);
  }

  /** The slots after those from index a up to n were cleared. */
  function Cleared<T>(s: seq<T>, a: nat, n: nat, blank: T): (r: seq<T>)
    requires a <= n <= |s|
    ensures |r| == |s|
  {
    s[..a] + seq(n - a, i => blank) + s[n..]
  }

  lemma ClearedStep<T>(s: seq<T>, a: nat, n: nat, blank: T)
    requires a <= n < |s|
    ensures Cleared(s, a, a, blank) == s && Cleared(s, a, n, blank)[n := blank] == Cleared(s, a, n + 1, blank)
  {
  }

  lemma CyclicSlot(start: nat, max: nat, i: nat)
    requires i < max
    ensures Cyclic(start, max, i) == if start % max + i < max then start % max + i else start % max + i - max
  {
    var s := start % max;
    assert start == start / max * max + s;
    Laps(s + i, max, start / max);
    NormNear(s + i, max);
  }

  /** A position of the list whose slot is cleared, if there is one. */
  lemma ClearedAt(start: nat, max: nat, length: nat, n: nat) returns (i: nat)
    requires length < n <= max && length > 0 && 0 < start % max < n
    ensures i < length && length <= Cyclic(start, max, i) < n
  {
    var s := start % max;
    i := if s < length then length - s else 0;
    CyclicSlot(start, max, i);
  }

  /** Growing a list keeps its elements if and only if the list starts at slot 0, or not before slot n. */
  lemma GrowthKeeps<T>(s: seq<T>, start: nat, length: nat, n: nat, blank: T)
    requires length < n <= |s| && blank !in Ring(s, start)[..length]
    ensures
      Ring(Cleared(s, length, n, blank), start)[..length] == Ring(s, start)[..length]
      <==> length == 0 || start % |s| == 0 || n <= start % |s|
    ensures start % |s| == 0 ==>
      Ring(Cleared(s, length, n, blank), start)[..n] == Ring(s, start)[..length] + seq(n - length, i => blank)
  {
    hide Cyclic;
    var r, w := Ring(Cleared(s, length, n, blank), start), Ring(s, start);
    if length > 0 && 0 < start % |s| < n {
      var i := ClearedAt(start, |s|, length, n);
      assert r[..length][i] == blank && w[..length][i] in w[..length];
    } else {
      forall i | 0 <= i < length ensures r[i] == w[i] {
        CyclicSlot(start, |s|, i);
      }
    }
    if start % |s| == 0 {
      forall i | 0 <= i < n ensures r[i] == if i < length then w[i] else blank {
        CyclicSlot(start, |s|, i);
      }
    }
  }

  /** A list of 1 and 2 in slots 1 and 2 of four, made to hold three elements, loses the 2. */
  lemma GrowthLoses()
    ensures Ring([9, 1, 2, 9], 1)[..2] == [1, 2]
    ensures Ring(Cleared([9, 1, 2, 9], 2, 3, 0), 1)[..3] == [1, 0, 9]
  {
    assert Cleared([9, 1, 2, 9], 2, 3, 0) == [9, 1, 0, 9];
    forall i | 0 <= i < 3 ensures Cyclic(1, 4, i) == i + 1 {
    }
  }

  // ----- copying within a ring

  /** n elements from `from` on copied to `to`, as if all were read first. */
  function Blit<T>(w: seq<T>, to: nat, from: nat, n: nat): (r: seq<T>)
    requires to + n <= |w| && from + n <= |w|
    ensures |r| == |w|
  {
    w[..to] + w[from..from + n] + w[to + n..]
  }

  /** Copying to lower positions, the first element first. */
  lemma BlitUp<T>(w: seq<T>, to: nat, from: nat, n: nat)
    requires to <= from && from + n < |w|
    ensures
      var b := Blit(w, to, from, n);
      b[from + n] == w[from + n] && b[to + n := b[from + n]] == Blit(w, to, from, n + 1)
  {
  }

  lemma BlitNone<T>(w: seq<T>, to: nat, from: nat)
    requires to <= |w| && from <= |w|
    ensures Blit(w, to, from, 0) == w
  {
  }

  lemma PulledUp<T>(w: seq<T>, length: nat, start: nat, count: nat, target: nat)
    requires start + count <= length <= |w| && target <= start
    ensures Blit(w, target, start, count)[..length] == Copied(w[..length], start, count, target)
    ensures start + count == length ==>
      Blit(w, target, start, count)[..target + count] == w[..length][..target] + w[..length][start..]
  {
  }

  // ----- the list as a sequence

  /** count elements from `start` copied to `target`, extending the list when they reach past its end. */
  function Copied<T>(c: seq<T>, start: nat, count: nat, target: nat): (r: seq<T>)
    requires start + count <= |c| && target <= |c|
    ensures |r| == if target + count > |c| then target + count else |c|
  {
    c[..target] + c[start..start + count] + if target + count > |c| then [] else c[target + count..]
  }

  function Ones(n: nat): (r: seq<nat>)
    ensures |r| == n && forall i :: 0 <= i < n ==> r[i] == 1
  {
    seq(n, i => 1)
  }

  datatype ShiftError = NoError | StartOutOfRange | BeyondIndexZero

  /** What stays of c when only `max` elements fit: the oldest are dropped. */
  function Bounded<T>(c: seq<T>, max: nat): (r: seq<T>)
    ensures |r| == if |c| <= max then |c| else max
    ensures forall i :: 0 <= i < |r| ==> r[i] == c[|c| - |r| + i]
  {
    if |c| <= max then c else c[|c| - max..]
  }

  /** The amounts of trim events that dropping n elements fires. */
  function Fired(n: nat): seq<nat> { if n == 0 then [] else [n] }

  function Over(n: nat, max: nat): nat { if n <= max then 0 else n - max }

  // ----- copying around a ring

  /** The ring holds the last elements of s, at their positions. */
  ghost predicate Holds<T>(w: seq<T>, s: seq<T>) {
    |w| > 0 && forall p :: Over(|s|, |w|) <= p < |s| ==> Around(w, p) == s[p]
  }

  /** Position p of the first lap is one of the n positions from a on, or some laps away from one. */
  ghost predicate Touched(a: nat, n: nat, max: nat, p: nat)
    requires max > 0
  {
    exists q: nat :: a <= q < a + n && Norm(q, max) == p
  }

  /** Which of `count` elements, copied one by one `offset` positions ahead, the last one first, ends up as the x-th:
      that element, unless it has been overwritten around the ring before it is read. */
  function Source(count: nat, max: nat, offset: nat, x: nat): (r: nat)
    requires x < count
    ensures r < count
    decreases count - x
  {
    if 0 < offset < max && x + (max - offset) < count then Source(count, max, offset, x + (max - offset)) else x
  }

  /** Of the elements from `start` on, those from the i-th on have been copied. */
  ghost predicate Slid<T>(w: seq<T>, now: seq<T>, start: nat, count: nat, offset: nat, i: nat)
    requires start + count <= |w| && i <= count
  {
    && |now| == |w| > 0
    && (forall q :: start + offset + i <= q < start + offset + count ==>
      Around(now, q) == w[start + Source(count, |w|, offset, q - start - offset)])
    && forall p :: 0 <= p < |w| && !Touched(start + offset + i, count - i, |w|, p) ==> now[p] == w[p]
  }

  lemma SlidNot<T>(w: seq<T>, start: nat, count: nat, offset: nat)
    requires start + count <= |w| && |w| > 0
    ensures Slid(w, w, start, count, offset, count)
  {
  }

  /** What is read next is the element itself, or the one that has overwritten it. */
  lemma SlidReads<T>(w: seq<T>, now: seq<T>, start: nat, count: nat, offset: nat, i: nat)
    requires start + count <= |w| && offset <= |w| && i < count && Slid(w, now, start, count, offset, i + 1)
    ensures now[start + i] == w[start + Source(count, |w|, offset, i)]
  {
    hide Norm, Touched;
    var max, p := |w|, start + i;
    NormNear(p, max);
    if 0 < offset < max && i + (max - offset) < count {
      NormLap(p, max);
      assert Around(now, p + max) == w[start + Source(count, max, offset, p + max - start - offset)];
    } else {
      NotAhead(start + offset + (i + 1), count - (i + 1), max, p);
    }
  }

  /** A position of the first lap that is not in a stretch, and whose next lap is not, is not touched by it. */
  lemma NotAhead(a: nat, n: nat, max: nat, p: nat)
    requires p < max && a + n <= 2 * max && !(a <= p < a + n) && !(a <= p + max < a + n)
    ensures !Touched(a, n, max, p)
  {
    hide Norm;
    forall q: nat | a <= q < a + n ensures Norm(q, max) != p {
      NormNear(q, max);
    }
  }

  lemma SlidStep<T>(w: seq<T>, now: seq<T>, start: nat, count: nat, offset: nat, i: nat)
    requires start + count <= |w| && offset <= |w| && i < count && Slid(w, now, start, count, offset, i + 1)
    ensures Slid(w, now[Norm(start + i + offset, |w|) := now[start + i]], start, count, offset, i)
  {
    hide Norm, Touched, Source;
    SlidReads(w, now, start, count, offset, i);
    var max, to := |w|, start + offset + i;
    var next := now[Norm(to, max) := now[start + i]];
    forall q | to < q < start + offset + count ensures Around(next, q) == Around(now, q) {
      NormApart(to, q, max);
    }
    forall p | 0 <= p < max && !Touched(to, count - i, max, p) ensures next[p] == w[p] {
      TouchedMore(to, count - i, max, p);
    }
  }

  lemma TouchedMore(a: nat, n: nat, max: nat, p: nat)
    requires n > 0 && p < max && !Touched(a, n, max, p)
    ensures Norm(a, max) != p && Norm(a + n - 1, max) != p
    ensures !Touched(a + 1, n - 1, max, p) && !Touched(a, n - 1, max, p)
  {
    hide Norm;
    assert Norm(a, max) != p;
    assert Norm(a + n - 1, max) != p;
  }

  /** The first n elements of r have been written from position e on; of those that share a slot the last one stays. */
  ghost predicate Laid<T>(w: seq<T>, now: seq<T>, e: nat, r: seq<T>, n: nat)
    requires n <= |r|
  {
    && |now| == |w| > 0
    && (forall q :: e <= q < e + n && e + n - |w| <= q ==> Around(now, q) == r[q - e])
    && forall p :: 0 <= p < |w| && !Touched(e, n, |w|, p) ==> now[p] == w[p]
  }

  lemma LaidStep<T>(w: seq<T>, now: seq<T>, e: nat, r: seq<T>, n: nat)
    requires n < |r| && Laid(w, now, e, r, n)
    ensures Laid(w, now[Norm(e + n, |w|) := r[n]], e, r, n + 1)
  {
    hide Norm, Touched;
    var max := |w|;
    var next := now[Norm(e + n, max) := r[n]];
    forall q | e <= q < e + n && e + n + 1 - max <= q ensures Around(next, q) == Around(now, q) {
      NormApart(q, e + n, max);
    }
    forall p | 0 <= p < max && !Touched(e, n + 1, max, p) ensures next[p] == w[p] {
      TouchedMore(e, n + 1, max, p);
    }
  }

  lemma LaidNothing<T>(w: seq<T>, e: nat, r: seq<T>)
    requires |w| > 0
    ensures Laid(w, w, e, r, 0)
  {
  }

  lemma PushedRing<T>(w: seq<T>, length: nat, x: T)
    requires 0 < |w| && length <= |w|
    ensures Holds(w[Norm(length, |w|) := x], w[..length] + [x])
  {
    hide Norm;
    NormNear(length, |w|);
    forall p | 0 <= p < length ensures Norm(p, |w|) == p {
      NormNear(p, |w|);
    }
  }

  /** A ring that is full, and its first element once more behind the last. */
  lemma TurnedRing<T>(w: seq<T>)
    requires |w| > 0
    ensures Holds(w, w + [w[0]])
  {
    hide Norm;
    forall p | 0 <= p <= |w| ensures Norm(p, |w|) == if p < |w| then p else 0 {
      NormNear(p, |w|);
    }
  }

  // ----- splice

  /** The list after r was inserted at e by copying around a ring of size max, before the oldest elements are dropped:
      elements that reach a lap ahead of the insertion are overwritten by r, and some below by those. */
  function Spliced<T>(c: seq<T>, e: nat, r: seq<T>, max: nat): (s: seq<T>)
    requires e <= |c| <= max
    ensures |s| == |c| + |r|
  {
    seq(|c| + |r|, p requires 0 <= p < |c| + |r| =>
      if p < e then c[p]
      else if p < e + |r| then r[p - e]
      else if p - max >= e then r[p - max - e]
      else c[e + Source(|c| - e, max, |r|, p - |r| - e)])
  }

  lemma SplicedRing<T>(w: seq<T>, gap: seq<T>, now: seq<T>, length: nat, e: nat, r: seq<T>)
    requires e <= length <= |w| && |gap| == |w| > 0 && Laid(gap, now, e, r, |r|)
    requires |r| < |w| ==> Slid(w, gap, e, length - e, |r|, 0)
    ensures Holds(now, Spliced(w[..length], e, r, |w|))
  {
    hide Norm, Touched, Source;
    var max, k, s := |w|, |r|, Spliced(w[..length], e, r, |w|);
    forall p | Over(length + k, max) <= p < length + k ensures Around(now, p) == s[p] {
      if p < e {
        KeptBefore(w, gap, now, length, e, r, p);
      } else if p < e + k {
        assert Around(now, p) == r[p - e];
      } else if p - max >= e {
        NormLap(p - max, max);
        assert Around(now, p - max) == r[p - max - e];
      } else {
        KeptBehind(w, gap, now, length, e, r, p);
      }
    }
  }

  lemma KeptBefore<T>(w: seq<T>, gap: seq<T>, now: seq<T>, length: nat, e: nat, r: seq<T>, p: nat)
    requires e <= length <= |w| && |gap| == |w| > 0 && Laid(gap, now, e, r, |r|)
    requires |r| < |w| ==> Slid(w, gap, e, length - e, |r|, 0)
    requires Over(length + |r|, |w|) <= p < e
    ensures Around(now, p) == w[p]
  {
    hide Norm, Touched;
    NormNear(p, |w|);
    NotAhead(e, |r|, |w|, p);
    NotAhead(e + |r|, length - e, |w|, p);
  }

  lemma KeptBehind<T>(w: seq<T>, gap: seq<T>, now: seq<T>, length: nat, e: nat, r: seq<T>, p: nat)
    requires e <= length <= |w| && |gap| == |w| > 0 && Laid(gap, now, e, r, |r|)
    requires |r| < |w| ==> Slid(w, gap, e, length - e, |r|, 0)
    requires e + |r| <= p < length + |r| && p - |w| < e
    ensures Around(now, p) == w[e + Source(length - e, |w|, |r|, p - |r| - e)]
  {
    hide Norm, Touched, Source;
    assert Around(gap, p) == w[e + Source(length - e, |w|, |r|, p - e - |r|)];
    NotBehind(e, |r|, |w|, p);
  }

  /** A position less than a lap ahead of a stretch is not touched by it. */
  lemma NotBehind(a: nat, n: nat, max: nat, p: nat)
    requires max > 0 && a + n <= p < a + max
    ensures !Touched(a, n, max, Norm(p, max))
  {
    hide Norm;
    forall q: nat | a <= q < a + n ensures Norm(q, max) != Norm(p, max) {
      NormApart(q, p, max);
    }
  }

  /** The insertion is as on a sequence if the elements dropped all lie before e, or there are none behind e. */
  lemma SplicedPlain<T>(c: seq<T>, e: nat, r: seq<T>, max: nat)
    requires e <= |c| <= max && (Over(|c| + |r|, max) <= e || e == |c|)
    ensures Spliced(c, e, r, max) == c[..e] + r + c[e..]
  {
    var s, k := Spliced(c, e, r, max), |r|;
    forall p | 0 <= p < |s| ensures s[p] == (c[..e] + r + c[e..])[p] {
      if p >= e + k {
        assert p - max < e && Source(|c| - e, max, k, p - k - e) == p - k - e;
      }
    }
  }

  /** Exactly when splice inserts as on a sequence, if the last element of the list is not among those inserted. */
  lemma SpliceIff<T>(c: seq<T>, e: nat, r: seq<T>, max: nat)
    requires e <= |c| <= max && max > 0 && (e < |c| ==> c[|c| - 1] !in r)
    ensures
      Bounded(Spliced(c, e, r, max), max) == Bounded(c[..e] + r + c[e..], max)
      <==> Over(|c| + |r|, max) <= e || e == |c|
  {
    hide Source;
    var n, o := |c| + |r|, Over(|c| + |r|, max);
    if o <= e || e == |c| {
      SplicedPlain(c, e, r, max);
    } else {
      var s, plain := Spliced(c, e, r, max), c[..e] + r + c[e..];
      assert plain[n - 1] == c[|c| - 1] && s[n - 1] in r;
      assert Bounded(s, max)[max - 1] == s[n - 1] && Bounded(plain, max)[max - 1] == plain[n - 1];
    }
  }

  // ----- shifting

  /** The list after `count` elements from `start` on were copied `offset` positions ahead around a ring of size max. */
  function Shifted<T>(c: seq<T>, start: nat, count: nat, offset: nat, max: nat): (s: seq<T>)
    requires start + count <= |c| && start + offset <= |c|
    ensures |s| == if start + count + offset > |c| then start + count + offset else |c|
  {
    var n := if start + count + offset > |c| then start + count + offset else |c|;
    seq(n, p requires 0 <= p < n =>
      if start + offset <= p < start + offset + count then c[start + Source(count, max, offset, p - start - offset)]
      else c[p])
  }

  lemma ShiftedRing<T>(w: seq<T>, now: seq<T>, length: nat, start: nat, count: nat, offset: nat)
    requires 0 < length <= |w| && start + count <= length && start + offset <= length
    requires Slid(w, now, start, count, offset, 0)
    ensures Holds(now, Shifted(w[..length], start, count, offset, |w|))
  {
    hide Norm, Touched, Source;
    var max, s := |w|, Shifted(w[..length], start, count, offset, |w|);
    forall p | Over(|s|, max) <= p < |s| ensures Around(now, p) == s[p] {
      if start + offset <= p < start + offset + count {
        assert Around(now, p) == w[start + Source(count, max, offset, p - start - offset)];
      } else {
        NormNear(p, max);
        NotAhead(start + offset, count, max, p);
      }
    }
  }

  lemma ShiftedPlain<T>(c: seq<T>, start: nat, count: nat, offset: nat, max: nat)
    requires start + count <= |c| && start + offset <= |c| <= max && (count + offset <= max || offset == max)
    ensures Shifted(c, start, count, offset, max) == Copied(c, start, count, start + offset)
  {
    var s, plain := Shifted(c, start, count, offset, max), Copied(c, start, count, start + offset);
    forall p | 0 <= p < |s| ensures s[p] == plain[p] {
      if start + offset <= p < start + offset + count {
        assert Source(count, max, offset, p - start - offset) == p - start - offset;
      }
    }
  }

  /** Exactly when a shift to higher positions copies as if all elements were read first, if no element is repeated. */
  lemma ShiftIff<T>(c: seq<T>, start: nat, count: nat, offset: nat, max: nat)
    requires start + count <= |c| && start + offset <= |c| <= max && offset > 0
    requires forall i, j :: 0 <= i < j < |c| ==> c[i] != c[j]
    ensures
      Bounded(Shifted(c, start, count, offset, max), max) == Bounded(Copied(c, start, count, start + offset), max)
      <==> count + offset <= max || offset == max
  {
    var s, plain := Shifted(c, start, count, offset, max), Copied(c, start, count, start + offset);
    if count + offset <= max || offset == max {
      ShiftedPlain(c, start, count, offset, max);
    } else {
      var x := count + offset - max - 1;
      assert Source(count, max, offset, x) == count - 1;
      var p := start + offset + x;
      assert s[p] == c[start + count - 1] && plain[p] == c[start + x];
      var o := Over(|s|, max);
      assert Bounded(s, max)[p - o] == s[p] && Bounded(plain, max)[p - o] == plain[p];
    }
  }


  class CircularList<T(0)> {
    var slots: array<T>
    var maxLength: nat
    var startIndex: nat
    var length: nat
    var trims: seq<nat>  // the amounts of all trim events so far

    ghost predicate Valid()
      reads this
    {
      maxLength > 0 && slots.Length == maxLength && length <= maxLength
    }

    /** The whole ring from the start index on. */
    ghost function Window(): (w: seq<T>)
      requires slots.Length == maxLength > 0
      reads `slots, `maxLength, `startIndex, slots
      ensures |w| == maxLength
      ensures forall i :: 0 <= i < |w| ==> w[i] == slots[Cyclic(startIndex, maxLength, i)]
    {
      Ring(slots[..], startIndex)
    }

    ghost function Contents(): seq<T>
      requires Valid()
      reads this, slots
    {
      Window()[..length]
    }

    constructor (maxLength: nat)
      requires maxLength > 0
      ensures Valid() && this.maxLength == maxLength && Contents() == [] && trims == [] && fresh(slots)
    {
      slots := new T[maxLength];
      this.maxLength := maxLength;
      startIndex, length, trims := 0, 0, [];
    }

    method Get(i: nat) returns (x: T)
      requires Valid()
      ensures x == Window()[Norm(i, maxLength)]
      ensures i < maxLength ==> x == Window()[i]
      ensures i < length ==> x == Contents()[i]
    {
      hide Cyclic, Norm;
      CyclicNorm(startIndex, maxLength, i);
      if i < maxLength {
        NormNear(i, maxLength);
      }
      x := slots[Cyclic(startIndex, maxLength, i)];
    }

    /** Writes at a position that may lie any number of laps ahead. */
    method Set(i: nat, x: T)
      requires slots.Length == maxLength > 0
      modifies slots
      ensures Window() == old(Window())[Norm(i, maxLength) := x]
    {
      hide Cyclic, Norm;
      var k := Norm(i, maxLength);
      CyclicNorm(startIndex, maxLength, i);
      ghost var w := Window();
      slots[Cyclic(startIndex, maxLength, i)] := x;
      forall j | 0 <= j < maxLength ensures Window()[j] == w[k := x][j] {
        if j < k {
          CyclicApart(startIndex, maxLength, j, k);
        } else if k < j {
          CyclicApart(startIndex, maxLength, k, j);
        }
      }
    }

    /** The ring after the start has moved on by k. */
    twostate lemma Turned(k: nat)
      requires slots == old(slots) && unchanged(slots) && maxLength == old(maxLength) == slots.Length
      requires maxLength > 0
      requires startIndex == old(startIndex) + k || startIndex == (old(startIndex) + k) % maxLength
      ensures forall j :: 0 <= j < maxLength ==> Window()[j] == Around(old(Window()), k + j)
    {
      hide Cyclic, Norm;
      forall j | 0 <= j < maxLength ensures Window()[j] == Around(old(Window()), k + j) {
        CyclicAdvance(old(startIndex), maxLength, k, j);
        CyclicNorm(old(startIndex), maxLength, k + j);
      }
    }

    /** The list after the elements in excess were dropped. */
    twostate lemma Dropped(s: seq<T>)
      requires slots == old(slots) && unchanged(slots) && maxLength == old(maxLength) == slots.Length
      requires maxLength > 0 && Holds(old(Window()), s) && length == |s| - Over(|s|, maxLength)
      requires
        var k := Over(|s|, maxLength);
        startIndex == old(startIndex) + k || startIndex == (old(startIndex) + k) % maxLength
      ensures Valid() && Contents() == Bounded(s, maxLength)
    {
      hide Cyclic, Norm, Around;
      Turned(Over(|s|, maxLength));
    }

    method Push(x: T)
      requires Valid()
      modifies this`startIndex, this`length, this`trims, slots
      ensures Valid() && Contents() == Bounded(old(Contents()) + [x], maxLength)
      ensures trims == old(trims) + Fired(Over(old(length) + 1, maxLength))
    {
      hide Cyclic, Norm, CircularList.Window;
      ghost var w := Window();
      Set(length, x);
      PushedRing(w, length, x);
      label written:
      if length == maxLength {
        startIndex := (startIndex + 1) % maxLength;
        trims := trims + [1];
      } else {
        length := length + 1;
      }
      Dropped@written(w[..old(length)] + [x]);
    }

    /** The oldest element becomes the newest one; fails unless the list is full. */
    method Recycle() returns (x: Option<T>)
      requires Valid()
      modifies this`startIndex, this`trims
      ensures Valid()
      ensures length < maxLength ==> x == None && Contents() == old(Contents()) && trims == old(trims)
      ensures length == maxLength ==>
        x == Some(old(Contents())[0]) && Contents() == old(Contents())[1..] + [x.value] && trims == old(trims) + [1]
    {
      hide Cyclic, Norm, CircularList.Window;
      if length != maxLength {
        return None;
      }
      ghost var w := Window();
      TurnedRing(w);
      startIndex := (startIndex + 1) % maxLength;
      Dropped(w + [w[0]]);
      trims := trims + [1];
      var y := Get(length - 1);
      x := Some(y);
    }

    method Pop() returns (x: T)
      requires Valid() && length > 0
      modifies this`length
      ensures Valid() && old(Contents()) == Contents() + [x]
    {
      x := Get(length - 1);
      length := length - 1;
    }

    method TrimStart(n: nat)
      requires Valid()
      modifies this`startIndex, this`length, this`trims
      ensures
        var k := if n > old(length) then old(length) else n;
        Valid() && Contents() == old(Contents())[k..] && trims == old(trims) + [k]
    {
      hide Cyclic, Norm, Around, CircularList.Window;
      ghost var w := Window();
      var k := if n > length then length else n;
      startIndex := startIndex + k;
      Turned(k);
      length := length - k;
      trims := trims + [k];
      InFirstLap(w);
    }

    /** Keeps the first elements; the list is whole afterwards if and only if all of them fit. */
    method SetMaxLength(max: nat)
      requires Valid()
      modifies this`slots, this`maxLength, this`startIndex
      ensures maxLength == max == slots.Length && (Valid() <==> old(length) <= max && max > 0)
      ensures forall i :: 0 <= i < old(length) && i < max ==> Window()[i] == old(Contents())[i]
      ensures old(length) <= max && max > 0 ==> Contents() == old(Contents())
      ensures fresh(slots) || slots == old(slots)
    {
      if maxLength != max {
        var t := new T[max];
        ghost var w := Window();
        var r := 0;
        while r < max && r < length
          invariant 0 <= r <= length && r <= max && fresh(t) && t.Length == max
          invariant forall i :: 0 <= i < r ==> t[i] == w[i]
          modifies t
        {
          t[r] := slots[Cyclic(startIndex, maxLength, r)];
          r := r + 1;
        }
        slots, maxLength, startIndex := t, max, 0;
        forall i | 0 <= i < length && i < max ensures Window()[i] == w[i] {
          assert Cyclic(0, max, i) == i by {
            DivUnique(i, max, 0, i);
          }
        }
      }
    }

    /** Shortens the list, or clears the slots from index `length` to n, which need not be those behind the list. */
    method SetLength(n: nat, blank: T)
      requires Valid() && n <= maxLength
      modifies this`length, slots
      ensures Valid() && length == n
      ensures n <= old(length) ==> Contents() == old(Contents())[..n]
      ensures n > old(length) ==> slots[..] == Cleared(old(slots[..]), old(length), n, blank)
    {
      hide CircularList.Window, Cleared;
      if n > length {
        ghost var was := slots[..];
        ClearedStep(was, length, length, blank);
        for t := length to n
          invariant slots[..] == Cleared(was, length, t, blank)
          modifies slots
        {
          ClearedStep(was, length, t, blank);
          slots[t] := blank;
        }
      }
      length := n;
    }

    /** The elements behind a deleted stretch move up. */
    method CloseGap(e: nat, t: nat)
      requires Valid() && e + t <= length
      modifies slots
      ensures Window() == Blit(old(Window()), e, e + t, length - t - e)
    {
      hide Cyclic, Blit, CircularList.Window;
      ghost var w := Window();
      BlitNone(w, e, e + t);
      var n := e;
      while n < length - t
        invariant e <= n <= length - t
        invariant Window() == Blit(w, e, e + t, n - e)
      {
        BlitUp(w, e, e + t, n - e);
        var x := Get(n + t);
        NormNear(n, maxLength);
        Set(n, x);
        n := n + 1;
      }
    }

    /** The elements from e on are copied k positions ahead, the last one first. */
    method OpenGap(e: nat, k: nat)
      requires Valid() && e <= length
      modifies slots
      ensures k < maxLength ==> Slid(old(Window()), Window(), e, length - e, k, 0)
    {
      hide Cyclic, Norm, Slid, CircularList.Window;
      ghost var w := Window();
      SlidNot(w, e, length - e, k);
      var n: int := length - 1;
      while n >= e
        invariant e - 1 <= n < length
        invariant k < maxLength ==> Slid(w, Window(), e, length - e, k, n + 1 - e)
      {
        var x := Get(n);
        if k < maxLength {
          SlidStep(w, Window(), e, length - e, k, n - e);
        }
        Set(n + k, x);
        n := n - 1;
      }
    }

    method Fill(e: nat, r: seq<T>)
      requires Valid()
      modifies slots
      ensures Laid(old(Window()), Window(), e, r, |r|)
    {
      hide Cyclic, Norm, Laid, CircularList.Window;
      ghost var w := Window();
      LaidNothing(w, e, r);
      var n := 0;
      while n < |r|
        invariant 0 <= n <= |r| && Laid(w, Window(), e, r, n)
      {
        LaidStep(w, Window(), e, r, n);
        Set(e + n, r[n]);
        n := n + 1;
      }
    }

    method Delete(e: nat, t: nat)
      requires Valid() && e + t <= length
      modifies this`length, slots
      ensures Valid() && Contents() == old(Contents())[..e] + old(Contents())[e + t..]
    {
      hide Cyclic, Blit, CircularList.Window;
      if t > 0 {
        PulledUp(Window(), length, e + t, length - t - e, e);
        CloseGap(e, t);
        length := length - t;
      } else {
        assert Contents() == Contents()[..e] + Contents()[e..];
      }
    }

    method Insert(e: nat, r: seq<T>)
      requires Valid() && e <= length
      modifies this`startIndex, this`length, this`trims, slots
      ensures Valid() && Contents() == Bounded(Spliced(old(Contents()), e, r, maxLength), maxLength)
      ensures trims == old(trims) + Fired(Over(old(length) + |r|, maxLength))
    {
      hide Cyclic, Norm, Slid, Laid, Spliced, Holds, CircularList.Window;
      ghost var w, s := Window(), Spliced(Contents(), e, r, maxLength);
      OpenGap(e, |r|);
      ghost var gap := Window();
      Fill(e, r);
      SplicedRing(w, gap, Window(), length, e, r);
      label moved:
      if length + |r| > maxLength {
        var d := length + |r| - maxLength;
        startIndex := startIndex + d;
        length := maxLength;
        trims := trims + [d];
      } else {
        length := length + |r|;
      }
      Dropped@moved(s);
    }

    /** Deletes t elements at e and inserts r there, as on a sequence if the elements then dropped all lie before e. */
    method Splice(e: nat, t: nat, r: seq<T>)
      requires Valid() && e + t <= length
      modifies this`startIndex, this`length, this`trims, slots
      ensures Valid()
      ensures
        var c := old(Contents())[..e] + old(Contents())[e + t..];
        && Contents() == Bounded(Spliced(c, e, r, maxLength), maxLength)
        && (Over(old(length) - t + |r|, maxLength) <= e || e == |c| ==>
          Contents() == Bounded(old(Contents())[..e] + r + old(Contents())[e + t..], maxLength))
      ensures trims == old(trims) + Fired(Over(old(length) - t + |r|, maxLength))
    {
      hide Spliced, Bounded, CircularList.Window;
      ghost var was := Contents();
      Delete(e, t);
      ghost var c := Contents();
      assert c[..e] == was[..e] && c[e..] == was[e + t..];
      Insert(e, r);
      if Over(|c| + |r|, maxLength) <= e || e == |c| {
        SplicedPlain(c, e, r, maxLength);
      }
    }

    /** Copies the elements to higher positions, the last first. */
    method CopyDown(start: nat, count: nat, offset: nat)
      requires Valid() && start + count <= length && offset <= maxLength
      modifies slots
      ensures Slid(old(Window()), Window(), start, count, offset, 0)
    {
      hide Cyclic, Norm, Slid, CircularList.Window;
      ghost var w := Window();
      SlidNot(w, start, count, offset);
      var i: int := count - 1;
      while i >= 0
        invariant -1 <= i < count
        invariant Slid(w, Window(), start, count, offset, i + 1)
      {
        var x := Get(start + i);
        SlidStep(w, Window(), start, count, offset, i);
        Set(start + i + offset, x);
        i := i - 1;
      }
    }

    /** Copies the elements to lower positions, the first first. */
    method CopyUp(start: nat, count: nat, offset: int)
      requires Valid() && start + count <= length && offset <= 0 <= start + offset
      modifies slots
      ensures Contents() == Copied(old(Contents()), start, count, start + offset)
    {
      hide Cyclic, Blit, Copied, CircularList.Window;
      ghost var w := Window();
      BlitNone(w, start + offset, start);
      var n := 0;
      while n < count
        invariant 0 <= n <= count
        invariant Window() == Blit(w, start + offset, start, n)
      {
        BlitUp(w, start + offset, start, n);
        var x := Get(start + n);
        NormNear(start + n + offset, maxLength);
        Set(start + n + offset, x);
        n := n + 1;
      }
      PulledUp(w, length, start, count, start + offset);
    }

    /** Drops the oldest elements until the list fits. */
    method TrimToFit()
      requires slots.Length == maxLength > 0
      modifies this`startIndex, this`length, this`trims
      ensures length == old(length) - Over(old(length), maxLength)
      ensures startIndex == old(startIndex) + Over(old(length), maxLength)
      ensures trims == old(trims) + Ones(Over(old(length), maxLength))
    {
      ghost var n, s := length, startIndex;
      while length > maxLength
        invariant maxLength <= length || length == n
        invariant length <= n && startIndex == s + (n - length)
        invariant trims == old(trims) + Ones(n - length)
      {
        length := length - 1;
        startIndex := startIndex + 1;
        trims := trims + [1];
      }
    }

    method ShiftElements(start: int, count: int, offset: int) returns (error: ShiftError)
      requires Valid()
      requires count > 0 && 0 <= start < length && start + offset >= 0 ==>
        start + count <= length && start + offset <= length
      modifies this`startIndex, this`length, this`trims, slots
      ensures Valid()
      ensures error ==
        if count <= 0 then NoError
        else if start < 0 || start >= old(length) then StartOutOfRange
        else if start + offset < 0 then BeyondIndexZero else NoError
      ensures error != NoError || count <= 0 ==> Contents() == old(Contents()) && trims == old(trims)
      ensures error == NoError && count > 0 && offset > 0 ==>
        Contents() == Bounded(Shifted(old(Contents()), start, count, offset, maxLength), maxLength)
      ensures error == NoError && count > 0 && (count + offset <= maxLength || offset == maxLength) ==>
        Contents() == Bounded(Copied(old(Contents()), start, count, start + offset), maxLength)
      ensures error == NoError && count > 0 ==> trims == old(trims) + Ones(Over(start + count + offset, maxLength))
    {
      hide Cyclic, Norm, Blit, Copied, Slid, Shifted, Holds, CircularList.Window;
      if count <= 0 {
        return NoError;
      }
      if start < 0 || start >= length {
        return StartOutOfRange;
      }
      if start + offset < 0 {
        return BeyondIndexZero;
      }
      if offset > 0 {
        ShiftDown(start, count, offset);
      } else {
        CopyUp(start, count, offset);
      }
      return NoError;
    }

    method ShiftDown(start: nat, count: nat, offset: nat)
      requires Valid() && start < length && start + count <= length && start + offset <= length && offset > 0
      modifies this`startIndex, this`length, this`trims, slots
      ensures Valid()
      ensures Contents() == Bounded(Shifted(old(Contents()), start, count, offset, maxLength), maxLength)
      ensures count + offset <= maxLength || offset == maxLength ==>
        Contents() == Bounded(Copied(old(Contents()), start, count, start + offset), maxLength)
      ensures trims == old(trims) + Ones(Over(start + count + offset, maxLength))
    {
      hide Cyclic, Norm, Blit, Copied, Slid, Shifted, Holds, CircularList.Window;
      ghost var w, c := Window(), Contents();
      CopyDown(start, count, offset);
      ShiftedRing(w, Window(), length, start, count, offset);
      label copied:
      var excess := start + count + offset - length;
      if excess > 0 {
        length := length + excess;
        TrimToFit();
      }
      Dropped@copied(Shifted(c, start, count, offset, maxLength));
      if count + offset <= maxLength || offset == maxLength {
        ShiftedPlain(c, start, count, offset, maxLength);
      }
    }
  }
}
