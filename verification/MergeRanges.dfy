/** Character joiners: the ranges of several joiners merged into one list, in place. */
module MergeRanges {

  datatype Range = Range(lo: int, hi: int)

  /** Sorted, no two ranges overlapping; ranges may touch, or be empty. */
  ghost predicate Sorted(rs: seq<Range>) {
    && (forall i :: 0 <= i < |rs| ==> rs[i].lo <= rs[i].hi)
    && (forall i, j :: 0 <= i < j < |rs| ==> rs[i].hi <= rs[j].lo)
  }

  ghost predicate NonEmpty(rs: seq<Range>) {
    forall i :: 0 <= i < |rs| ==> rs[i].lo < rs[i].hi
  }

  ghost predicate Good(rs: seq<Range>) { Sorted(rs) && NonEmpty(rs) }

  /** With d = 0: r covers x. With d = 1: r joins x - 1 and x, that is, covers both. */
  predicate In(r: Range, d: nat, x: int) { r.lo + d <= x < r.hi }

  ghost predicate Holds(rs: seq<Range>, d: nat, x: int) {
    exists i :: 0 <= i < |rs| && In(rs[i], d, x)
  }

  /** What the ranges of `a` cover and join is what those of `b` do. */
  ghost predicate Alike(a: seq<Range>, b: seq<Range>) {
    forall d: nat, x: int :: d <= 1 ==> (Holds(a, d, x) <==> Holds(b, d, x))
  }

  /** The list covers and joins exactly what the given ranges do, and has no empty range if they have none. */
  ghost predicate Merged(given: seq<Range>, rs: seq<Range>) {
    Sorted(rs) && Alike(rs, given) && (NonEmpty(given) ==> NonEmpty(rs))
  }

  // ----- the list is determined by what it covers and joins

  lemma TailHolds(rs: seq<Range>, d: nat, x: int)
    requires Good(rs) && rs != [] && d <= 1
    ensures Holds(rs[1..], d, x) <==> Holds(rs, d, x) && x >= rs[0].hi + d
  {
    if Holds(rs[1..], d, x) {
      var i :| 0 <= i < |rs| - 1 && In(rs[1..][i], d, x);
      assert In(rs[i + 1], d, x);
    }
    if Holds(rs, d, x) && x >= rs[0].hi + d {
      var i :| 0 <= i < |rs| && In(rs[i], d, x);
      assert rs[1..][i - 1] == rs[i];
    }
  }

  /** The first range starts and ends where that of a list alike does. */
  lemma FirstRange(a: seq<Range>, b: seq<Range>)
    requires Good(a) && Good(b) && a != [] && Alike(a, b)
    ensures b != [] && b[0].lo <= a[0].lo
    ensures b[0].lo == a[0].lo ==> b[0].hi <= a[0].hi
  {
    assert In(a[0], 0, a[0].lo);
    assert Holds(b, 0, a[0].lo);
    if b[0].lo == a[0].lo && a[0].hi < b[0].hi {
      NotJoined(a);
      assert false;
    }
  }

  lemma NotJoined(a: seq<Range>)
    requires Good(a) && a != []
    ensures !Holds(a, 1, a[0].hi)
  {
  }

  lemma {:induction false} Determined(a: seq<Range>, b: seq<Range>)
    requires Good(a) && Good(b) && Alike(a, b)
    ensures a == b
    decreases |a|
  {
    hide In, Holds;
    if a == [] {
      if b != [] {
        FirstRange(b, a);
      }
    } else {
      FirstRange(a, b);
      FirstRange(b, a);
      forall d: nat, x | d <= 1 ensures Holds(a[1..], d, x) <==> Holds(b[1..], d, x) {
        TailHolds(a, d, x);
        TailHolds(b, d, x);
      }
      Determined(a[1..], b[1..]);
      assert a == [a[0]] + a[1..] && b == [b[0]] + b[1..];
    }
  }

  /** The order in which the ranges are merged makes no difference, nor does merging one twice. */
  lemma OrderIndependent(p: seq<Range>, q: seq<Range>, a: seq<Range>, b: seq<Range>)
    requires Merged(p, a) && Merged(q, b) && NonEmpty(p) && forall r :: r in p <==> r in q
    ensures a == b
  {
    forall i | 0 <= i < |q| ensures q[i].lo < q[i].hi {
      assert q[i] in p;
    }
    forall d: nat, x | d <= 1 ensures Holds(p, d, x) <==> Holds(q, d, x) {
      SameRanges(p, q, d, x);
      SameRanges(q, p, d, x);
    }
    Determined(a, b);
  }

  lemma SameRanges(p: seq<Range>, q: seq<Range>, d: nat, x: int)
    requires forall r :: r in p ==> r in q
    ensures Holds(p, d, x) ==> Holds(q, d, x)
  {
    if Holds(p, d, x) {
      var i :| 0 <= i < |p| && In(p[i], d, x);
      assert p[i] in q;
    }
  }

  // ----- edits of the list

  lemma HoldsConcat(a: seq<Range>, b: seq<Range>, d: nat, x: int)
    ensures Holds(a + b, d, x) <==> Holds(a, d, x) || Holds(b, d, x)
  {
    if Holds(a, d, x) {
      var i :| 0 <= i < |a| && In(a[i], d, x);
      assert (a + b)[i] == a[i];
    }
    if Holds(b, d, x) {
      var i :| 0 <= i < |b| && In(b[i], d, x);
      assert (a + b)[|a| + i] == b[i];
    }
  }

  /** What `a` and t cover and join is what `b` and t do. */
  ghost predicate AlikeWith(a: seq<Range>, b: seq<Range>, t: Range) {
    && (forall d: nat, x: int :: d <= 1 ==> (Holds(a, d, x) || In(t, d, x) <==> Holds(b, d, x) || In(t, d, x)))
    && (NonEmpty(b) && t.lo < t.hi ==> NonEmpty(a))
  }

  ghost predicate Includes(a: seq<Range>, t: Range) {
    forall d: nat, x: int :: d <= 1 && In(t, d, x) ==> Holds(a, d, x)
  }

  lemma HoldsFew(p: Range, q: Range)
    ensures forall d: nat, x: int :: !Holds([], d, x)
    ensures forall d: nat, x: int :: Holds([p], d, x) <==> In(p, d, x)
    ensures forall d: nat, x: int :: Holds([p, q], d, x) <==> In(p, d, x) || In(q, d, x)
  {
    forall d: nat, x: int
      ensures Holds([p], d, x) <==> In(p, d, x)
      ensures Holds([p, q], d, x) <==> In(p, d, x) || In(q, d, x)
    {
      assert [p][0] == p && [p, q][0] == p && [p, q][1] == q;
    }
  }

  /** Replacing the ranges i up to j by r. */
  lemma Edited(was: seq<Range>, now: seq<Range>, i: nat, j: nat, r: seq<Range>, t: Range)
    requires i <= j <= |was| && now == was[..i] + r + was[j..] && AlikeWith(r, was[i..j], t)
    ensures AlikeWith(now, was, t)
    ensures Includes(r, t) ==> Includes(now, t)
  {
    forall d: nat, x | d <= 1
      ensures Holds(now, d, x) <==> Holds(was[..i], d, x) || Holds(r, d, x) || Holds(was[j..], d, x)
      ensures Holds(was, d, x) <==> Holds(was[..i], d, x) || Holds(was[i..j], d, x) || Holds(was[j..], d, x)
    {
      HoldsConcat(was[..i] + r, was[j..], d, x);
      HoldsConcat(was[..i], r, d, x);
      assert was == was[..i] + was[i..j] + was[j..];
      HoldsConcat(was[..i] + was[i..j], was[j..], d, x);
      HoldsConcat(was[..i], was[i..j], d, x);
    }
  }

  lemma NonEmptyMore(rs: seq<Range>, t: Range)
    ensures NonEmpty(rs + [t]) <==> NonEmpty(rs) && t.lo < t.hi
  {
    if NonEmpty(rs + [t]) {
      forall i | 0 <= i < |rs| ensures rs[i].lo < rs[i].hi {
        assert (rs + [t])[i] == rs[i];
      }
      assert (rs + [t])[|rs|] == t;
    }
  }

  /** When the new range is part of the list, nothing else has changed. */
  lemma MergedNow(was: seq<Range>, now: seq<Range>, t: Range)
    requires Sorted(now) && AlikeWith(now, was, t) && Includes(now, t)
    ensures Merged(was + [t], now)
  {
    NonEmptyMore(was, t);
    forall d: nat, x | d <= 1 ensures Holds(was + [t], d, x) <==> Holds(now, d, x) {
      HoldsConcat(was, [t], d, x);
      HoldsFew(t, t);
    }
  }

  ghost predicate InAny(p: Range, q: Range, t: Range, d: nat, x: int) {
    In(p, d, x) || In(q, d, x) || In(t, d, x)
  }

  /** One range in place of one or two, or of none. */
  lemma OneRange(r: Range, p: Range, q: Range, t: Range)
    requires p.lo < p.hi && q.lo < q.hi && t.lo < t.hi ==> r.lo < r.hi
    ensures p == q && (forall d: nat, x :: d <= 1 ==> (In(r, d, x) || In(t, d, x) <==> In(p, d, x) || In(t, d, x))) ==>
      AlikeWith([r], [p], t)
    ensures (forall d: nat, x :: d <= 1 ==> (In(r, d, x) || In(t, d, x) <==> InAny(p, q, t, d, x))) ==>
      AlikeWith([r], [p, q], t)
    ensures AlikeWith([t], [], t)
    ensures (forall d: nat, x :: d <= 1 && In(p, d, x) ==> In(t, d, x)) ==> AlikeWith([], [p], t)
    ensures r.lo <= t.lo && t.hi <= r.hi ==> Includes([r], t)
  {
    hide Holds;
    assert [p][0] == p && [p, q][0] == p && [p, q][1] == q;
    HoldsFew(r, r);
    HoldsFew(p, q);
    HoldsFew(t, t);
  }

  // ----- one merge, in the array of the ranges

  function Min(a: int, b: int): int { if a < b then a else b }

  function Max(a: int, b: int): int { if a < b then b else a }

  /** r may stand between two lists that are sorted together. */
  predicate Fits(r: Range, before: seq<Range>, after: seq<Range>) {
    && r.lo <= r.hi
    && (before != [] ==> before[|before| - 1].hi <= r.lo)
    && (after != [] ==> r.hi <= after[0].lo)
  }

  lemma StillSorted(was: seq<Range>, i: nat, j: nat, r: Range)
    requires Sorted(was) && i <= j <= |was| && Fits(r, was[..i], was[j..])
    ensures Sorted(was[..i] + [r] + was[j..])
  {
    forall a | 0 <= a < i ensures was[a].hi <= r.lo {
      assert was[..i][i - 1] == was[i - 1];
    }
    forall b | j <= b < |was| ensures r.hi <= was[b].lo {
      assert was[j..][0] == was[j];
    }
    JoinedSorted(was[..i], r, was[j..]);
  }

  lemma JoinedSorted(before: seq<Range>, r: Range, after: seq<Range>)
    requires Sorted(before) && Sorted(after) && r.lo <= r.hi
    requires forall i :: 0 <= i < |before| ==> before[i].hi <= r.lo
    requires forall j :: 0 <= j < |after| ==> r.hi <= after[j].lo
    ensures Sorted(before + [r] + after)
  {
  }

  lemma Neighbours(e: seq<Range>, i: nat)
    requires Sorted(e) && i < |e|
    ensures e[i].lo <= e[i].hi && (0 < i ==> e[i - 1].hi <= e[i].lo) && (i + 1 < |e| ==> e[i].hi <= e[i + 1].lo)
  {
  }

  class RangeList {
    var e: seq<Range>

    constructor (initial: seq<Range>)
      ensures e == initial
    {
      e := initial;
    }

    /** e[i] becomes r. */
    method Replace(i: nat, r: Range, ghost t: Range)
      requires Sorted(e) && i < |e| && Fits(r, e[..i], e[i + 1..])
      requires forall d: nat, x :: d <= 1 ==> (In(r, d, x) || In(t, d, x) <==> In(e[i], d, x) || In(t, d, x))
      requires e[i].lo < e[i].hi && t.lo < t.hi ==> r.lo < r.hi
      modifies this
      ensures Sorted(e) && e == old(e)[i := r] && AlikeWith(e, old(e), t)
      ensures r.lo <= t.lo && t.hi <= r.hi ==> Includes(e, t)
    {
      hide Sorted, Holds;
      OneRange(r, e[i], e[i], t);
      ghost var was := e;
      StillSorted(was, i, i + 1, r);
      e := e[i := r];
      assert e == was[..i] + [r] + was[i + 1..] && was[i..i + 1] == [was[i]];
      Edited(was, e, i, i + 1, [r], t);
    }

    /** e[i] goes. */
    method Remove(i: nat, ghost t: Range)
      requires Sorted(e) && i < |e| && forall d: nat, x :: d <= 1 && In(e[i], d, x) ==> In(t, d, x)
      modifies this
      ensures Sorted(e) && e == old(e)[..i] + old(e)[i + 1..] && AlikeWith(e, old(e), t)
    {
      OneRange(e[i], e[i], e[i], t);
      ghost var was := e;
      e := e[..i] + e[i + 1..];
      assert e == was[..i] + [] + was[i + 1..] && was[i..i + 1] == [was[i]];
      Edited(was, e, i, i + 1, [], t);
    }

    method Insert(i: nat, t: Range)
      requires Sorted(e) && i <= |e| && Fits(t, e[..i], e[i..])
      modifies this
      ensures Sorted(e) && e == old(e)[..i] + [t] + old(e)[i..] && AlikeWith(e, old(e), t) && Includes(e, t)
    {
      hide Sorted, Holds;
      OneRange(t, t, t, t);
      ghost var was := e;
      StillSorted(was, i, i, t);
      e := e[..i] + [t] + e[i..];
      assert was[i..i] == [];
      Edited(was, e, i, i, [t], t);
    }

    method MergeRange(t: Range)
      requires Sorted(e) && t.lo <= t.hi
      modifies this
      ensures Merged(old(e) + [t], e)
    {
      hide Holds, Alike, Includes, AlikeWith, Merged, Sorted, In;
      ghost var was := e;
      Reflexive(e, t);
      var inRange, done := false, false;
      var i := 0;
      while i < |e|
        invariant 0 <= i <= |e| && Sorted(e) && AlikeWith(e, was, t)
        invariant !inRange ==> e == was && (0 < i ==> e[i - 1].hi <= t.lo)
        invariant inRange ==> 0 < i && e[i - 1].lo <= t.lo < e[i - 1].hi < t.hi
        decreases |e| - i
      {
        if !inRange {
          done, inRange := Meet(i, t);
        } else {
          done := Swallow(i, t, was);
          i := i - 1;
        }
        if done {
          return;
        }
        i := i + 1;
      }
      Close(t, inRange, was);
    }

    /** No range before i has met t. */
    method Meet(i: nat, t: Range) returns (done: bool, inRange: bool)
      requires Sorted(e) && i < |e| && t.lo <= t.hi && (0 < i ==> e[i - 1].hi <= t.lo)
      modifies this
      ensures done ==> Merged(old(e) + [t], e)
      ensures !done && inRange ==>
        Sorted(e) && AlikeWith(e, old(e), t) && |e| == |old(e)| && e[i].lo <= t.lo < e[i].hi < t.hi
      ensures !done && !inRange ==> e == old(e) && e[i].hi <= t.lo
    {
      hide Holds, Alike, Includes, AlikeWith, Merged, Sorted;
      ghost var was := e;
      var n := e[i];
      Neighbours(e, i);
      if t.hi <= n.lo {
        Insert(i, t);
        MergedNow(was, e, t);
        return true, false;
      } else if t.hi <= n.hi {
        Replace(i, n.(lo := Min(t.lo, n.lo)), t);
        MergedNow(was, e, t);
        return true, false;
      } else if t.lo < n.hi {
        Replace(i, n.(lo := Min(t.lo, n.lo)), t);
        return false, true;
      }
      return false, false;
    }

    /** The range before i has met t and grows over e[i], or up to it. */
    method Swallow(i: nat, t: Range, ghost was: seq<Range>) returns (done: bool)
      requires Sorted(e) && 0 < i < |e| && e[i - 1].lo <= t.lo < e[i - 1].hi < t.hi && AlikeWith(e, was, t)
      modifies this
      ensures done ==> Merged(was + [t], e)
      ensures !done ==> Sorted(e) && AlikeWith(e, was, t) && e == old(e)[..i] + old(e)[i + 1..]
    {
      hide Holds, Alike, Includes, AlikeWith, Merged, Sorted;
      ghost var before := e;
      var n := e[i];
      Neighbours(e, i);
      done := t.hi <= n.hi;
      if t.hi <= n.lo {
        Neighbours(e, i - 1);
        Replace(i - 1, e[i - 1].(hi := t.hi), t);
      } else if t.hi <= n.hi {
        Widen(i, t);
      } else {
        Remove(i, t);
      }
      Chain(e, before, was, t);
      if done {
        MergedNow(was, e, t);
      }
    }

    /** No range is left. */
    method Close(t: Range, inRange: bool, ghost was: seq<Range>)
      requires Sorted(e) && t.lo <= t.hi && AlikeWith(e, was, t)
      requires if inRange then e != [] && e[|e| - 1].lo <= t.lo < e[|e| - 1].hi < t.hi
               else e != [] ==> e[|e| - 1].hi <= t.lo
      modifies this
      ensures Merged(was + [t], e)
    {
      hide Holds, Alike, Includes, AlikeWith, Merged, Sorted;
      ghost var before := e;
      if inRange {
        Neighbours(e, |e| - 1);
        Replace(|e| - 1, e[|e| - 1].(hi := t.hi), t);
      } else {
        Insert(|e|, t);
      }
      Chain(e, before, was, t);
      MergedNow(was, e, t);
    }

    /** The range before i takes over the end of e[i], which goes. */
    method Widen(i: nat, t: Range)
      requires Sorted(e) && 0 < i < |e| && e[i - 1].lo <= t.lo < e[i - 1].hi < t.hi
      requires e[i - 1].hi <= e[i].lo < t.hi <= e[i].hi
      modifies this
      ensures
        var was := old(e);
        && Sorted(e) && e == was[..i - 1] + [Range(was[i - 1].lo, was[i].hi)] + was[i + 1..]
        && AlikeWith(e, was, t) && Includes(e, t)
    {
      hide Sorted, Holds;
      ghost var was := e;
      var n := e[i];
      Neighbours(e, i - 1);
      Neighbours(e, i);
      e := e[i - 1 := e[i - 1].(hi := Max(t.hi, n.hi))];
      e := e[..i] + e[i + 1..];
      ghost var r := Range(was[i - 1].lo, n.hi);
      StillSorted(was, i - 1, i + 1, r);
      OneRange(r, was[i - 1], n, t);
      assert e == was[..i - 1] + [r] + was[i + 1..] && was[i - 1..i + 1] == [was[i - 1], n];
      Edited(was, e, i - 1, i + 1, [r], t);
    }
  }

  lemma Reflexive(a: seq<Range>, t: Range)
    ensures AlikeWith(a, a, t)
  {
  }

  lemma Chain(c: seq<Range>, b: seq<Range>, a: seq<Range>, t: Range)
    requires AlikeWith(c, b, t) && AlikeWith(b, a, t)
    ensures AlikeWith(c, a, t)
  {
  }

  /** The ranges of further joiners are merged into those of the first one. */
  method MergeAll(first: seq<Range>, more: seq<Range>) returns (rs: seq<Range>)
    requires Sorted(first) && forall i :: 0 <= i < |more| ==> more[i].lo <= more[i].hi
    ensures Merged(first + more, rs)
  {
    var list := new RangeList(first);
    assert first + more[..0] == first;
    for i := 0 to |more|
      invariant Merged(first + more[..i], list.e)
    {
      ghost var before := list.e;
      list.MergeRange(more[i]);
      assert first + more[..i + 1] == first + more[..i] + [more[i]];
      MergedMore(first + more[..i], before, list.e, more[i]);
    }
    assert more[..|more|] == more;
    rs := list.e;
  }

  lemma MergedMore(given: seq<Range>, before: seq<Range>, rs: seq<Range>, t: Range)
    requires Merged(given, before) && Merged(before + [t], rs)
    ensures Merged(given + [t], rs)
  {
    NonEmptyMore(given, t);
    NonEmptyMore(before, t);
    forall d: nat, x | d <= 1 ensures Holds(given + [t], d, x) <==> Holds(before + [t], d, x) {
      HoldsConcat(given, [t], d, x);
      HoldsConcat(before, [t], d, x);
    }
  }
}
