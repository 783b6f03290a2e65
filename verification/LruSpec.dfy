/** The cache as a list of entries, least recently used first. */
module LruSpec {
  import opened Options

  type Entries<K, V> = seq<(K, V)>

  ghost predicate DistinctKeys<K, V>(c: Entries<K, V>) {
    forall i, j :: 0 <= i < j < |c| ==> c[i].0 != c[j].0
  }

  ghost predicate Has<K, V>(c: Entries<K, V>, k: K) {
    exists i :: 0 <= i < |c| && c[i].0 == k
  }

  ghost function ValueOf<K, V>(c: Entries<K, V>, k: K): Option<V> {
    if c == [] then None else if c[0].0 == k then Some(c[0].1) else ValueOf(c[1..], k)
  }

  ghost function Remove<K, V>(c: Entries<K, V>, k: K): Entries<K, V> {
    if c == [] then [] else if c[0].0 == k then c[1..] else [c[0]] + Remove(c[1..], k)
  }

  /** What get does: a hit becomes the most recent entry. */
  ghost function Touch<K, V>(c: Entries<K, V>, k: K): Entries<K, V> {
    match ValueOf(c, k)
    case None => c
    case Some(v) => Remove(c, k) + [(k, v)]
  }

  /** What set does: a full cache drops its least recent entry for a new key. */
  ghost function Put<K, V>(c: Entries<K, V>, capacity: nat, k: K, v: V): Entries<K, V> {
    if !Has(c, k) && c != [] && |c| >= capacity then c[1..] + [(k, v)]
    else Remove(c, k) + [(k, v)]
  }

  // ----- facts about entries

  lemma {:induction false} AtKey<K, V>(c: Entries<K, V>, i: nat)
    requires DistinctKeys(c) && i < |c|
    ensures Remove(c, c[i].0) == c[..i] + c[i + 1..]
    ensures ValueOf(c, c[i].0) == Some(c[i].1)
  {
    if i == 0 {
      assert c[..0] + c[1..] == c[1..];
    } else {
      assert c[1..][i - 1] == c[i] && DistinctKeys(c[1..]);
      AtKey(c[1..], i - 1);
      assert [c[0]] + (c[1..][..i - 1] + c[1..][i..]) == c[..i] + c[i + 1..];
    }
  }

  lemma {:induction false} NotThere<K, V>(c: Entries<K, V>, k: K)
    requires !Has(c, k)
    ensures Remove(c, k) == c && ValueOf(c, k) == None
  {
    if c != [] {
      assert c[0].0 != k;
      forall i | 0 <= i < |c[1..]| ensures c[1..][i].0 != k {
        assert c[1..][i] == c[i + 1];
      }
      NotThere(c[1..], k);
    }
  }

  lemma KeysAfterAppend<K, V>(c: Entries<K, V>, k: K, v: V)
    requires DistinctKeys(c) && !Has(c, k)
    ensures DistinctKeys(c + [(k, v)])
  {
  }

  lemma KeysAfterRemove<K, V>(c: Entries<K, V>, i: nat)
    requires DistinctKeys(c) && i < |c|
    ensures DistinctKeys(c[..i] + c[i + 1..]) && !Has(c[..i] + c[i + 1..], c[i].0)
  {
    var d := c[..i] + c[i + 1..];
    forall j | 0 <= j < |d| ensures d[j] == c[if j < i then j else j + 1] {
    }
  }

  // ----- whole runs

  datatype Op<K, V> = Get(k: K) | Set(k: K, v: V)

  ghost function Cache<K, V>(capacity: nat, ops: seq<Op<K, V>>): Entries<K, V> {
    if ops == [] then [] else
    var c := Cache(capacity, ops[..|ops| - 1]);
    match ops[|ops| - 1]
    case Get(k) => Touch(c, k)
    case Set(k, v) => Put(c, capacity, k, v)
  }

  /** Everything ever set, with its last value, in the order of the last use.
      A get that finds nothing in the cache is not a use. */
  ghost function History<K, V>(capacity: nat, ops: seq<Op<K, V>>): Entries<K, V> {
    if ops == [] then [] else
    var h := History(capacity, ops[..|ops| - 1]);
    match ops[|ops| - 1]
    case Get(k) => if Has(Cache(capacity, ops[..|ops| - 1]), k) then Touch(h, k) else h
    case Set(k, v) => Remove(h, k) + [(k, v)]
  }

  ghost function Latest<K, V>(h: Entries<K, V>, n: nat): Entries<K, V> {
    if |h| <= n then h else h[|h| - n..]
  }

  lemma Appended<K, V>(h: Entries<K, V>, n: nat, e: (K, V))
    requires n >= 1
    ensures Latest(h + [e], n) == Latest(h, n - 1) + [e]
  {
  }

  /** Removing an entry leaves the latest ones as they are, or removes it from them. */
  lemma LatestRemove<K, V>(h: Entries<K, V>, n: nat, i: nat)
    requires DistinctKeys(h) && i < |h| && n >= 1
    ensures
      var rest := h[..i] + h[i + 1..];
      && (i >= |h| - n ==> Latest(rest, n - 1) == Remove(Latest(h, n), h[i].0))
      && (i < |h| - n ==> Latest(rest, n - 1) == Latest(h, n)[1..] && !Has(Latest(h, n), h[i].0))
  {
    hide Remove;
    if i >= |h| - n {
      LatestRemoveInside(h, n, i);
    } else {
      LatestRemoveBefore(h, n, i);
    }
  }

  lemma LatestRemoveInside<K, V>(h: Entries<K, V>, n: nat, i: nat)
    requires DistinctKeys(h) && i < |h| && n >= 1 && i >= |h| - n
    ensures Latest(h[..i] + h[i + 1..], n - 1) == Remove(Latest(h, n), h[i].0)
  {
    hide Remove, Latest, DistinctKeys;
    var cut := if |h| <= n then 0 else |h| - n;
    LatestIsSuffix(h, n, cut);
    LatestIsSuffix(h[..i] + h[i + 1..], n - 1, cut);
    SuffixWithout(h, cut, i);
    SuffixDistinct(h, cut);
    AtKey(h[cut..], i - cut);
  }

  lemma LatestIsSuffix<K, V>(h: Entries<K, V>, n: nat, cut: nat)
    requires cut == if |h| <= n then 0 else |h| - n
    ensures Latest(h, n) == h[cut..]
  {
  }

  lemma SuffixDistinct<K, V>(h: Entries<K, V>, cut: nat)
    requires DistinctKeys(h) && cut <= |h|
    ensures DistinctKeys(h[cut..])
  {
  }

  lemma SuffixWithout<T>(s: seq<T>, cut: nat, i: nat)
    requires cut <= i < |s|
    ensures (s[..i] + s[i + 1..])[cut..] == s[cut..][..i - cut] + s[cut..][i - cut + 1..] && s[cut..][i - cut] == s[i]
  {
  }

  lemma LatestRemoveBefore<K, V>(h: Entries<K, V>, n: nat, i: nat)
    requires DistinctKeys(h) && n >= 1 && i < |h| - n
    ensures Latest(h[..i] + h[i + 1..], n - 1) == Latest(h, n)[1..] && !Has(Latest(h, n), h[i].0)
  {
    hide Remove;
    var l, cut := Latest(h, n), |h| - n;
    assert l == h[cut..] && l[1..] == h[cut + 1..];
    assert Latest(h[..i] + h[i + 1..], n - 1) == h[cut + 1..];
    forall j | 0 <= j < |l| ensures l[j].0 != h[i].0 {
      assert l[j] == h[cut + j];
    }
  }

  lemma ValueInLatest<K, V>(h: Entries<K, V>, n: nat, k: K) returns (i: nat)
    requires DistinctKeys(h) && Has(Latest(h, n), k)
    ensures i < |h| && i >= |h| - n && h[i].0 == k
    ensures ValueOf(Latest(h, n), k) == ValueOf(h, k) == Some(h[i].1)
  {
    var l := Latest(h, n);
    var cut := |h| - |l|;
    var j :| 0 <= j < |l| && l[j].0 == k;
    i := cut + j;
    assert h[i] == l[j];
    AtKey(l, j);
    AtKey(h, i);
  }

  /** Moving a key of the history to the end. */
  lemma UseOld<K, V>(h: Entries<K, V>, n: nat, i: nat, v: V)
    requires DistinctKeys(h) && n >= 1 && i < |h|
    ensures
      var k := h[i].0;
      && DistinctKeys(Remove(h, k) + [(k, v)])
      && Latest(Remove(h, k) + [(k, v)], n) == Put(Latest(h, n), n, k, v)
      && (Has(Latest(h, n), k) ==> Put(Latest(h, n), n, k, v) == Remove(Latest(h, n), k) + [(k, v)])
  {
    hide DistinctKeys, Remove, Latest, Has;
    var k, rest := h[i].0, h[..i] + h[i + 1..];
    AtKey(h, i);
    KeysAfterRemove(h, i);
    KeysAfterAppend(rest, k, v);
    Appended(rest, n, (k, v));
    LatestRemove(h, n, i);
    LatestHas(h, n, i);
  }

  lemma LatestHas<K, V>(h: Entries<K, V>, n: nat, i: nat)
    requires i < |h| && n >= 1
    ensures Latest(h, n) != [] && (|Latest(h, n)| < n ==> i >= |h| - n)
    ensures i >= |h| - n ==> Has(Latest(h, n), h[i].0)
  {
    if i >= |h| - n {
      assert Latest(h, n)[i - (|h| - |Latest(h, n)|)] == h[i];
    }
  }

  /** A new key. */
  lemma UseNew<K, V>(h: Entries<K, V>, n: nat, k: K, v: V)
    requires DistinctKeys(h) && n >= 1 && !Has(h, k)
    ensures DistinctKeys(Remove(h, k) + [(k, v)])
    ensures Latest(Remove(h, k) + [(k, v)], n) == Put(Latest(h, n), n, k, v)
    ensures !Has(Latest(h, n), k)
  {
    hide DistinctKeys, Remove;
    NotThere(h, k);
    KeysAfterAppend(h, k, v);
    forall j | 0 <= j < |Latest(h, n)| ensures Latest(h, n)[j].0 != k {
      assert Latest(h, n)[j] == h[|h| - |Latest(h, n)| + j];
    }
    NotThere(Latest(h, n), k);
  }

  /** Moving one key to the end of the history and of its latest part. */
  lemma UseStep<K, V>(h: Entries<K, V>, n: nat, k: K, v: V)
    requires DistinctKeys(h) && n >= 1
    ensures DistinctKeys(Remove(h, k) + [(k, v)])
    ensures Latest(Remove(h, k) + [(k, v)], n) == Put(Latest(h, n), n, k, v)
    ensures Has(Latest(h, n), k) ==> Put(Latest(h, n), n, k, v) == Remove(Latest(h, n), k) + [(k, v)]
  {
    hide DistinctKeys, Remove, Latest, Put;
    if Has(h, k) {
      var i :| 0 <= i < |h| && h[i].0 == k;
      UseOld(h, n, i, v);
    } else {
      UseNew(h, n, k, v);
    }
  }

  /** After any run the cache holds exactly the most recently used entries, in
      order of use: what was evicted was always the least recently used. */
  lemma {:induction false} CacheIsLatest<K, V>(capacity: nat, ops: seq<Op<K, V>>)
    requires capacity >= 1
    ensures DistinctKeys(History(capacity, ops))
    ensures Cache(capacity, ops) == Latest(History(capacity, ops), capacity)
  {
    if ops != [] {
      var front := ops[..|ops| - 1];
      CacheIsLatest(capacity, front);
      var h, c := History(capacity, front), Cache(capacity, front);
      match ops[|ops| - 1]
      case Set(k, v) => UseStep(h, capacity, k, v);
      case Get(k) =>
        if Has(c, k) {
          var i := ValueInLatest(h, capacity, k);
          UseStep(h, capacity, k, ValueOf(h, k).value);
        } else {
          NotThere(c, k);
        }
    }
  }

  // ----- what recency means, said of the calls

  /** The last call that used the key: a set, or a get that found it; -1 if there was none. */
  ghost function LastUse<K, V>(capacity: nat, ops: seq<Op<K, V>>, k: K): int {
    if ops == [] then -1
    else
      var n := |ops| - 1;
      match ops[n]
      case Set(k', v) => if k' == k then n else LastUse(capacity, ops[..n], k)
      case Get(k') => if k' == k && Has(Cache(capacity, ops[..n]), k) then n else LastUse(capacity, ops[..n], k)
  }

  /** The value of the last set of the key. */
  function LastSet<K(==), V>(ops: seq<Op<K, V>>, k: K): Option<V> {
    if ops == [] then None
    else if ops[|ops| - 1].Set? && ops[|ops| - 1].k == k then Some(ops[|ops| - 1].v)
    else LastSet(ops[..|ops| - 1], k)
  }

  /** Entries in the order of the last use of their keys, each with the value last set. */
  ghost predicate InOrderOfUse<K(!new), V>(capacity: nat, ops: seq<Op<K, V>>, h: Entries<K, V>) {
    && (forall i :: 0 <= i < |h| ==>
          0 <= LastUse(capacity, ops, h[i].0) < |ops| && LastSet(ops, h[i].0) == Some(h[i].1))
    && (forall i, j :: 0 <= i < j < |h| ==> LastUse(capacity, ops, h[i].0) < LastUse(capacity, ops, h[j].0))
    && forall k :: LastUse(capacity, ops, k) >= 0 ==> Has(h, k)
  }

  lemma {:induction false} HistoryInOrder<K(!new), V>(capacity: nat, ops: seq<Op<K, V>>)
    requires capacity >= 1
    ensures DistinctKeys(History(capacity, ops)) && InOrderOfUse(capacity, ops, History(capacity, ops))
  {
    hide DistinctKeys, Remove, InOrderOfUse, Has, LastUse, LastSet;
    CacheIsLatest(capacity, ops);
    if ops == [] {
      NothingUsed<K, V>(capacity);
    } else {
      var front := ops[..|ops| - 1];
      HistoryInOrder(capacity, front);
      CallUses(capacity, ops);
      var h, c := History(capacity, front), Cache(capacity, front);
      match ops[|ops| - 1]
      case Set(k, v) => UsedLast(capacity, ops, h, k, v);
      case Get(k) =>
        if Has(c, k) {
          CacheIsLatest(capacity, front);
          var i := ValueInLatest(h, capacity, k);
          ValueUsed(capacity, front, h, i);
          UsedLast(capacity, ops, h, k, h[i].1);
        }
    }
  }

  lemma NothingUsed<K(!new), V>(capacity: nat)
    ensures InOrderOfUse<K, V>(capacity, [], [])
  {
  }

  lemma ValueUsed<K(!new), V>(capacity: nat, ops: seq<Op<K, V>>, h: Entries<K, V>, i: nat)
    requires InOrderOfUse(capacity, ops, h) && i < |h|
    ensures LastSet(ops, h[i].0) == Some(h[i].1)
  {
  }

  /** What the last call does to the last uses and values of all keys. */
  lemma CallUses<K(!new), V>(capacity: nat, ops: seq<Op<K, V>>)
    requires ops != []
    ensures
      var front, op := ops[..|ops| - 1], ops[|ops| - 1];
      && (op.Set? || Has(Cache(capacity, front), op.k) ==> LastUse(capacity, ops, op.k) == |front|)
      && (op.Set? ==> LastSet(ops, op.k) == Some(op.v))
      && (op.Get? ==> LastSet(ops, op.k) == LastSet(front, op.k))
      && (op.Get? && !Has(Cache(capacity, front), op.k) ==>
        forall h :: InOrderOfUse(capacity, front, h) ==> InOrderOfUse(capacity, ops, h))
  {
    var front, op := ops[..|ops| - 1], ops[|ops| - 1];
    if op.Get? && !Has(Cache(capacity, front), op.k) {
      forall h | InOrderOfUse(capacity, front, h) ensures InOrderOfUse(capacity, ops, h) {
        MissUsesNothing(capacity, ops);
      }
    }
  }

  lemma MissUsesNothing<K(!new), V>(capacity: nat, ops: seq<Op<K, V>>)
    requires ops != [] && ops[|ops| - 1].Get? && !Has(Cache(capacity, ops[..|ops| - 1]), ops[|ops| - 1].k)
    ensures forall x :: LastUse(capacity, ops, x) == LastUse(capacity, ops[..|ops| - 1], x)
    ensures forall x :: LastSet(ops, x) == LastSet(ops[..|ops| - 1], x)
  {
  }

  /** A call that concerns key k only. */
  lemma OthersUsed<K(!new), V>(capacity: nat, ops: seq<Op<K, V>>, k: K, x: K)
    requires ops != [] && ops[|ops| - 1].k == k && x != k
    ensures LastUse(capacity, ops, x) == LastUse(capacity, ops[..|ops| - 1], x)
    ensures LastSet(ops, x) == LastSet(ops[..|ops| - 1], x)
  {
  }

  /** The last call uses key k, which had place i of h, or none. */
  ghost predicate Uses<K(!new), V>(capacity: nat, ops: seq<Op<K, V>>, h: Entries<K, V>, i: nat, k: K, v: V) {
    && ops != [] && DistinctKeys(h) && InOrderOfUse(capacity, ops[..|ops| - 1], h)
    && LastUse(capacity, ops, k) == |ops| - 1 && LastSet(ops, k) == Some(v) && ops[|ops| - 1].k == k
    && i <= |h| && forall j :: 0 <= j < |h| ==> (h[j].0 == k <==> j == i)
  }

  function Without<T>(s: seq<T>, i: nat): (r: seq<T>)
    ensures i < |s| ==> |r| == |s| - 1 && forall j :: 0 <= j < |r| ==> r[j] == s[if j < i then j else j + 1]
    ensures i >= |s| ==> r == s
  {
    if i < |s| then s[..i] + s[i + 1..] else s
  }

  lemma OldEntry<K(!new), V>(capacity: nat, ops: seq<Op<K, V>>, h: Entries<K, V>, i: nat, k: K, v: V, j: nat)
    requires Uses(capacity, ops, h, i, k, v) && j < |Without(h, i)|
    ensures
      var r, front := Without(h, i), ops[..|ops| - 1];
      && r[j] == h[if j < i then j else j + 1] && r[j].0 != k
      && LastUse(capacity, ops, r[j].0) == LastUse(capacity, front, r[j].0) < |front|
      && 0 <= LastUse(capacity, front, r[j].0) && LastSet(ops, r[j].0) == Some(r[j].1)
  {
    hide LastUse, LastSet, Without;
    OthersUsed(capacity, ops, k, Without(h, i)[j].0);
  }

  lemma KeyStays<K(!new), V>(capacity: nat, ops: seq<Op<K, V>>, h: Entries<K, V>, i: nat, k: K, v: V, x: K)
    requires Uses(capacity, ops, h, i, k, v) && LastUse(capacity, ops, x) >= 0
    ensures Has(Without(h, i) + [(k, v)], x)
  {
    hide LastUse, LastSet, Without, DistinctKeys;
    var r := Without(h, i);
    var all := r + [(k, v)];
    if x == k {
      assert all[|r|].0 == k;
    } else {
      OthersUsed(capacity, ops, k, x);
      var j :| 0 <= j < |h| && h[j].0 == x;
      assert all[if j < i then j else j - 1] == h[j];
    }
  }

  /** It goes behind all others. */
  lemma AppendedInOrder<K(!new), V>(capacity: nat, ops: seq<Op<K, V>>, h: Entries<K, V>, i: nat, k: K, v: V)
    requires Uses(capacity, ops, h, i, k, v)
    ensures InOrderOfUse(capacity, ops, Without(h, i) + [(k, v)])
  {
    hide LastUse, LastSet, Without, DistinctKeys, Has;
    var r := Without(h, i);
    var all := r + [(k, v)];
    forall j | 0 <= j < |all|
      ensures 0 <= LastUse(capacity, ops, all[j].0) < |ops| && LastSet(ops, all[j].0) == Some(all[j].1)
    {
      if j < |r| {
        OldEntry(capacity, ops, h, i, k, v, j);
      }
    }
    forall a, b | 0 <= a < b < |all| ensures LastUse(capacity, ops, all[a].0) < LastUse(capacity, ops, all[b].0) {
      OldEntry(capacity, ops, h, i, k, v, a);
      if b < |r| {
        OldEntry(capacity, ops, h, i, k, v, b);
      }
    }
    forall x | LastUse(capacity, ops, x) >= 0 ensures Has(all, x) {
      KeyStays(capacity, ops, h, i, k, v, x);
    }
  }

  lemma UsedLast<K(!new), V>(capacity: nat, ops: seq<Op<K, V>>, h: Entries<K, V>, k: K, v: V)
    requires ops != [] && DistinctKeys(h) && InOrderOfUse(capacity, ops[..|ops| - 1], h)
    requires LastUse(capacity, ops, k) == |ops| - 1 && LastSet(ops, k) == Some(v) && ops[|ops| - 1].k == k
    ensures InOrderOfUse(capacity, ops, Remove(h, k) + [(k, v)])
  {
    hide Remove, LastUse, LastSet, InOrderOfUse;
    if Has(h, k) {
      var i :| 0 <= i < |h| && h[i].0 == k;
      AtKey(h, i);
      AppendedInOrder(capacity, ops, h, i, k, v);
    } else {
      NotThere(h, k);
      AppendedInOrder(capacity, ops, h, |h|, k, v);
    }
  }

  /** After any run the cache holds the keys used last, in the order of their last use, each with the value last set: a
      key that was used but is no longer there was last used before every key that is. */
  lemma RecentlyUsed<K(!new), V>(capacity: nat, ops: seq<Op<K, V>>, i: nat)
    requires capacity >= 1 && i < |Cache(capacity, ops)|
    ensures
      var c := Cache(capacity, ops);
      && |c| <= capacity
      && LastSet(ops, c[i].0) == Some(c[i].1)
      && (forall j :: i < j < |c| ==> LastUse(capacity, ops, c[i].0) < LastUse(capacity, ops, c[j].0))
      && forall k :: LastUse(capacity, ops, k) >= 0 && !Has(c, k) ==>
          |c| == capacity && LastUse(capacity, ops, k) < LastUse(capacity, ops, c[i].0)
  {
    hide LastUse, LastSet, History, Cache, DistinctKeys, InOrderOfUse, Has;
    HistoryInOrder(capacity, ops);
    CacheIsLatest(capacity, ops);
    var h, c := History(capacity, ops), Cache(capacity, ops);
    var cut := |h| - |c|;
    ValueUsed(capacity, ops, h, cut + i);
    forall j | i < j < |c| ensures LastUse(capacity, ops, c[i].0) < LastUse(capacity, ops, c[j].0) {
      UsedBefore(capacity, ops, h, cut + i, cut + j);
    }
    forall k | LastUse(capacity, ops, k) >= 0 && !Has(c, k)
      ensures |c| == capacity && LastUse(capacity, ops, k) < LastUse(capacity, ops, c[i].0)
    {
      var j := PlaceOf(capacity, ops, h, k);
      NotAmongLast(h, c, j);
      UsedBefore(capacity, ops, h, j, cut + i);
    }
  }

  lemma UsedBefore<K(!new), V>(capacity: nat, ops: seq<Op<K, V>>, h: Entries<K, V>, i: nat, j: nat)
    requires InOrderOfUse(capacity, ops, h) && i < j < |h|
    ensures LastUse(capacity, ops, h[i].0) < LastUse(capacity, ops, h[j].0)
  {
  }

  lemma PlaceOf<K(!new), V>(capacity: nat, ops: seq<Op<K, V>>, h: Entries<K, V>, k: K) returns (j: nat)
    requires InOrderOfUse(capacity, ops, h) && LastUse(capacity, ops, k) >= 0
    ensures j < |h| && h[j].0 == k
  {
    hide LastUse, LastSet;
    j :| 0 <= j < |h| && h[j].0 == k;
  }

  lemma NotAmongLast<K, V>(h: Entries<K, V>, c: Entries<K, V>, j: nat)
    requires |c| <= |h| && c == h[|h| - |c|..] && j < |h| && !Has(c, h[j].0)
    ensures j < |h| - |c|
  {
    if j >= |h| - |c| {
      AmongLast(h, c, j);
    }
  }

  lemma AmongLast<K, V>(h: Entries<K, V>, c: Entries<K, V>, j: nat)
    requires |c| <= |h| && c == h[|h| - |c|..] && |h| - |c| <= j < |h|
    ensures Has(c, h[j].0)
  {
    assert c[j - (|h| - |c|)] == h[j];
  }
}
