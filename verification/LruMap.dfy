/** LRUMap: a map whose nodes are also linked in the order of their use.  The
    keys are numbers, as its only user packs them. */
module LruMaps {
  import opened Options
  import opened LruSpec

  class Node<V(0)> {
    var prev: Node?<V>
    var next: Node?<V>
    var key: int
    var value: V

    constructor (key: int, value: V)
      ensures prev == null && next == null && this.key == key && this.value == value
    {
      this.prev, this.next, this.key, this.value := null, null, key, value;
    }
  }

  class LruMap<V(0)> {
    const capacity: nat
    var index: map<int, Node<V>>
    var head: Node?<V>
    var tail: Node?<V>
    var nodePool: seq<Node<V>>
    var size: nat
    ghost var order: seq<Node<V>>  // least recently used first

    static ghost predicate Distinct(s: seq<Node<V>>) {
      forall i, j :: 0 <= i < j < |s| ==> s[i] != s[j]
    }

    /** head, tail, prev and next are one doubly linked list through `order`. */
    ghost predicate Linked()
      reads `head, `tail, `order, order`prev, order`next
    {
      && Distinct(order)
      && (order == [] ==> head == null && tail == null)
      && (order != [] ==>
        && head == order[0] && order[0].prev == null
        && tail == order[|order| - 1] && order[|order| - 1].next == null)
      && (forall i {:trigger order[i].prev} :: 1 <= i < |order| ==> order[i].prev == order[i - 1])
      && (forall i {:trigger order[i].next} :: 0 <= i < |order| - 1 ==> order[i].next == order[i + 1])
    }

    /** The map finds exactly the linked nodes, by their keys. */
    ghost predicate Indexed()
      reads `index, `order, order`key
    {
      && (forall n :: n in order ==> n.key in index && index[n.key] == n)
      && (forall k :: k in index ==> index[k] in order && index[k].key == k)
    }

    /** The pool holds other nodes than the list. */
    ghost predicate Pooled()
      reads `order, `nodePool
    {
      Distinct(nodePool) && forall n :: n in nodePool ==> n !in order
    }

    ghost predicate Valid()
      reads this, order, nodePool
    {
      Linked() && Indexed() && size == |order| <= capacity && Pooled()
    }

    /** All nodes, linked or in the pool. */
    ghost function Nodes(): set<Node<V>>
      reads this
    {
      (set n | n in order) + (set n | n in nodePool)
    }

    ghost function Contents(): (c: Entries<int, V>)
      reads this, order
      ensures |c| == |order| && forall i :: 0 <= i < |c| ==> c[i] == (order[i].key, order[i].value)
    {
      seq(|order|, i requires 0 <= i < |order| reads this, order => (order[i].key, order[i].value))
    }

    constructor (capacity: nat)
      ensures Valid() && this.capacity == capacity && Contents() == [] && nodePool == []
    {
      this.capacity := capacity;
      index, head, tail, nodePool, size, order := map[], null, null, [], 0, [];
    }

    static lemma DistinctRemoved(s: seq<Node<V>>, i: nat)
      requires Distinct(s) && i < |s|
      ensures
        var r := s[..i] + s[i + 1..];
        && Distinct(r) && s[i] !in r
        && (forall j :: 0 <= j < i ==> r[j] == s[j])
        && forall j :: i <= j < |r| ==> r[j] == s[j + 1]
    {
      var r := s[..i] + s[i + 1..];
      forall j | 0 <= j < |r| ensures r[j] == s[if j < i then j else j + 1] {
      }
    }

    method UnlinkNode(e: Node<V>, ghost i: nat)
      requires Linked() && i < |order| && order[i] == e
      modifies `head, `tail, `order, order`prev, order`next
      ensures order == old(order)[..i] + old(order)[i + 1..] && Linked() && e !in order
    {
      ghost var was := order;
      DistinctRemoved(order, i);
      var prev, next := e.prev, e.next;
      assert i > 0 ==> prev == was[i - 1] && was[i - 1] in was;
      assert i + 1 < |was| ==> next == was[i + 1] && was[i + 1] in was;
      if e == head {
        head := next;
      }
      if e == tail {
        tail := prev;
      }
      if prev != null {
        prev.next := next;
      }
      if next != null {
        next.prev := prev;
      }
      order := order[..i] + order[i + 1..];
    }

    method AppendNode(e: Node<V>)
      requires Linked() && e !in order
      modifies `head, `tail, `order, order`next, e`prev, e`next
      ensures order == old(order) + [e] && Linked()
    {
      ghost var was := order;
      var last := tail;
      assert was != [] ==> last == was[|was| - 1] && last in was;
      if last != null {
        last.next := e;
      }
      e.prev := last;
      e.next := null;
      tail := e;
      if head == null {
        head := e;
      }
      order := order + [e];
      assert forall j :: 0 <= j < |was| ==> order[j] == was[j];
    }

    method Prealloc(n: nat, key: int, value: V)
      requires Valid()
      modifies this`nodePool
      ensures Valid() && |nodePool| == old(|nodePool|) + n && Contents() == old(Contents())
      ensures forall x :: x in nodePool ==> x in old(nodePool) || fresh(x)
    {
      var i := 0;
      while i < n
        invariant 0 <= i <= n && Valid() && |nodePool| == old(|nodePool|) + i
        invariant forall x :: x in nodePool ==> x in old(nodePool) || fresh(x)
      {
        var node := new Node(key, value);
        nodePool := nodePool + [node];
        i := i + 1;
      }
    }

    /** Makes the node the most recently used one. */
    method Use(node: Node<V>, ghost i: nat)
      requires Linked() && i < |order| && order[i] == node
      modifies `head, `tail, `order, order`prev, order`next
      ensures Linked() && order == old(order)[..i] + old(order)[i + 1..] + [node] && |order| == |old(order)|
      ensures forall x :: x in order <==> x in old(order)
    {
      hide Linked;
      UnlinkNode(node, i);
      AppendNode(node);
      RotatedSame(old(order), i);
    }

    lemma RotatedSame(s: seq<Node<V>>, i: nat)
      requires i < |s|
      ensures forall x :: x in s[..i] + s[i + 1..] + [s[i]] <==> x in s
    {
      assert s == s[..i] + [s[i]] + s[i + 1..];
    }

    static lemma RotatedAt<T>(s: seq<T>, i: nat, j: nat)
      requires i < |s| && j < |s|
      ensures (s[..i] + s[i + 1..] + [s[i]])[j] == s[if j < i then j else if j < |s| - 1 then j + 1 else i]
    {
    }

    /** The entries after node i went to the end. */
    twostate lemma RotatedContents(i: nat)
      requires i < |old(order)| && Distinct(old(order))
      requires order == old(order)[..i] + old(order)[i + 1..] + [old(order)[i]]
      requires forall n :: n in old(order) ==> n.key == old(n.key) && n.value == old(n.value)
      ensures
        var c := old(Contents());
        Contents() == c[..i] + c[i + 1..] + [c[i]]
    {
      hide Distinct, Contents;
      var c, was := old(Contents()), old(order);
      forall j | 0 <= j < |was| ensures Contents()[j] == (c[..i] + c[i + 1..] + [c[i]])[j] {
        RotatedAt(was, i, j);
        RotatedAt(c, i, j);
        assert order[j] in was;
      }
    }

    /** Only the last node has a new key or value. */
    twostate lemma LastContents()
      requires order == old(order) && order != [] && Distinct(order)
      requires
        var last := order[|order| - 1];
        forall n :: n in order && n != last ==> n.key == old(n.key) && n.value == old(n.value)
      ensures
        var last := order[|order| - 1];
        Contents() == old(Contents())[..|order| - 1] + [(last.key, last.value)]
    {
      hide Distinct, Contents;
      DistinctLast(order);
      forall j | 0 <= j < |order| - 1 ensures Contents()[j] == old(Contents())[j] {
        assert order[j] in order[..|order| - 1];
      }
    }

    /** Makes the node the most recently used one, in a map. */
    method Refresh(node: Node<V>, ghost i: nat)
      requires Valid() && i < |order| && order[i] == node
      modifies `head, `tail, `order, order`prev, order`next
      ensures Valid() && order != [] && order[|order| - 1] == node && Nodes() == old(Nodes())
      ensures
        var c := old(Contents());
        Contents() == c[..i] + c[i + 1..] + [c[i]]
      ensures forall x :: x in order <==> x in old(order)
    {
      hide Linked, Indexed, Pooled, Distinct, Contents, Nodes;
      OrderDistinct();
      Use(node, i);
      StillIndexed();
      StillPooled();
      RotatedContents(i);
    }

    static lemma FirstReplaced(c: Entries<int, V>, rotated: Entries<int, V>, now: Entries<int, V>, e: (int, V))
      requires c != [] && rotated == c[..0] + c[1..] + [c[0]] && now == rotated[..|c| - 1] + [e]
      ensures now == c[1..] + [e]
    {
    }

    lemma HeadFirst()
      requires Valid() && size > 0
      ensures order != [] && head == order[0] && |Contents()| == |order|
    {
    }

    twostate lemma AppendedContents(new node: Node<V>)
      requires order == old(order) + [node]
      requires forall n :: n in old(order) ==> n.key == old(n.key) && n.value == old(n.value)
      ensures Contents() == old(Contents()) + [(node.key, node.value)]
    {
      hide Distinct, Contents;
      forall j | 0 <= j < |old(order)| ensures Contents()[j] == old(Contents())[j] {
        assert order[j] == old(order)[j] && old(order)[j] in old(order);
      }
    }

    static lemma DistinctLast(s: seq<Node<V>>)
      requires Distinct(s) && s != []
      ensures Distinct(s[..|s| - 1]) && s[|s| - 1] !in s[..|s| - 1]
      ensures forall x :: x in s[..|s| - 1] ==> x in s
    {
    }

    /** A hit moves the key to the end of the list; a miss changes nothing. */
    method Get(k: int) returns (r: Option<V>)
      requires Valid()
      modifies this, Nodes()
      ensures Valid() && Nodes() == old(Nodes())
      ensures r == ValueOf(old(Contents()), k) && Contents() == Touch(old(Contents()), k)
    {
      hide Linked, Indexed, Pooled, Remove, ValueOf, Has, DistinctKeys, Distinct, Contents, Touch;
      if k !in index {
        Missing(k);
        return None;
      }
      var node := index[k];
      IndexedAt(k);
      ghost var i := Position(node);
      EntryAt(i);
      Refresh(node, i);
      r := Some(node.value);
    }

    method PeekValue(k: int) returns (r: Option<V>)
      requires Valid()
      ensures r == ValueOf(Contents(), k)
    {
      if k !in index {
        Missing(k);
        return None;
      }
      ghost var i := Position(index[k]);
      EntryAt(i);
      r := Some(index[k].value);
    }

    /** The value of the least recently used key. */
    method Peek() returns (r: Option<V>)
      requires Valid()
      ensures r == if Contents() == [] then None else Some(Contents()[0].1)
    {
      r := if head == null then None else Some(head.value);
    }

    ghost method Position(node: Node<V>) returns (i: nat)
      requires node in order
      ensures i < |order| && order[i] == node
    {
      i :| 0 <= i < |order| && order[i] == node;
    }

    /** Neither the keys nor the set of linked nodes has changed. */
    twostate lemma StillIndexed()
      requires old(Indexed()) && index == old(index)
      requires forall n :: n in order <==> n in old(order)
      requires forall n :: n in order ==> n.key == old(n.key)
      ensures Indexed()
    {
    }

    twostate lemma StillPooled()
      requires old(Pooled()) && nodePool == old(nodePool)
      requires forall n :: n in order <==> n in old(order)
      ensures Pooled() && Nodes() == old(Nodes())
    {
    }

    /** Gives the most recently used node a new key and value. */
    method Rename(node: Node<V>, k: int, v: V)
      requires Valid() && order != [] && order[|order| - 1] == node && k !in index
      modifies `index, node`key, node`value
      ensures Valid() && Contents() == old(Contents())[..|order| - 1] + [(k, v)]
    {
      hide Contents, Distinct, Linked, Pooled;
      OrderDistinct();
      index := index - {node.key};
      node.key := k;
      node.value := v;
      index := index[k := node];
      LastContents();
    }

    /** Gives the most recently used node a new value. */
    method Assign(node: Node<V>, v: V)
      requires Valid() && order != [] && order[|order| - 1] == node
      modifies node`value
      ensures Valid() && Contents() == old(Contents())[..|order| - 1] + [(node.key, v)]
    {
      hide Contents, Distinct;
      node.value := v;
      LastContents();
    }

    lemma IndexedAt(k: int)
      requires Indexed() && k in index
      ensures index[k] in order && index[k].key == k
    {
    }

    lemma OrderDistinct()
      requires Linked()
      ensures Distinct(order) && (order != [] ==> head == order[0])
    {
    }

    lemma KeysDistinct()
      requires Valid()
      ensures DistinctKeys(Contents())
    {
    }

    lemma Missing(k: int)
      requires Valid() && k !in index
      ensures !Has(Contents(), k) && ValueOf(Contents(), k) == None && Remove(Contents(), k) == Contents()
      ensures Touch(Contents(), k) == Contents()
    {
      NotThere(Contents(), k);
    }

    lemma EntryAt(i: nat)
      requires Valid() && i < |order|
      ensures
        var c := Contents();
        && Has(c, order[i].key)
        && ValueOf(c, order[i].key) == Some(order[i].value)
        && Remove(c, order[i].key) == c[..i] + c[i + 1..]
        && Touch(c, order[i].key) == c[..i] + c[i + 1..] + [(order[i].key, order[i].value)]
    {
      KeysDistinct();
      AtKey(Contents(), i);
      assert Contents()[i].0 == order[i].key;
    }

    /** A full map gives up its least recently used key for a new one. */
    method Set(k: int, v: V)
      requires Valid() && capacity >= 1
      modifies this, Nodes()
      ensures Valid() && Contents() == Put(old(Contents()), capacity, k, v)
      ensures fresh(Nodes() - old(Nodes()))
    {
      hide Linked, Remove, Has, DistinctKeys, Distinct;
      if k in index {
        Renew(k, v);
      } else if size >= capacity {
        Recycle(k, v);
      } else {
        Add(k, v);
      }
    }

    /** Set of a key that is there. */
    method Renew(k: int, v: V)
      requires Valid() && k in index
      modifies `head, `tail, `order, order
      ensures Valid() && Has(old(Contents()), k) && Contents() == Remove(old(Contents()), k) + [(k, v)]
      ensures forall x :: x in order <==> x in old(order)
    {
      hide Linked, Indexed, Pooled, Nodes, Remove, ValueOf, Has, DistinctKeys, Distinct, Contents, Touch;
      var node := index[k];
      IndexedAt(k);
      ghost var i := Position(node);
      EntryAt(i);
      Refresh(node, i);
      Assign(node, v);
    }

    /** Set of a new key in a full map: the head is evicted and used again. */
    method Recycle(k: int, v: V)
      requires Valid() && k !in index && size > 0
      modifies `head, `tail, `order, `index, order
      ensures Valid() && !Has(old(Contents()), k) && old(Contents()) != []
      ensures Contents() == old(Contents())[1..] + [(k, v)]
      ensures forall x :: x in order <==> x in old(order)
    {
      hide LruMap.Valid, Linked, Indexed, Pooled, Nodes, Remove, ValueOf, Has, DistinctKeys, Distinct, Contents, Touch;
      ghost var was := Contents();
      Missing(k);
      HeadFirst();
      var node := head;
      Refresh(node, 0);
      ghost var rotated := Contents();
      Rename(node, k, v);
      FirstReplaced(was, rotated, Contents(), (k, v));
    }

    /** A node for a new entry, from the pool if there is one. */
    method TakeNode(k: int, v: V) returns (node: Node<V>)
      requires Valid()
      modifies `nodePool, nodePool`key, nodePool`value
      ensures Valid() && Contents() == old(Contents()) && forall n :: n in nodePool ==> n in old(nodePool)
      ensures node.key == k && node.value == v && (node in old(nodePool) || fresh(node))
      ensures node !in order && node !in nodePool
    {
      hide Distinct, Linked, Contents;
      if |nodePool| > 0 {
        node := nodePool[|nodePool| - 1];
        DistinctLast(nodePool);
        nodePool := nodePool[..|nodePool| - 1];
        node.key := k;
        node.value := v;
      } else {
        node := new Node(k, v);
      }
    }

    /** A new entry is found by its key. */
    twostate lemma IndexedMore(new node: Node<V>)
      requires old(Indexed()) && order == old(order) + [node] && node.key !in old(index)
      requires index == old(index)[node.key := node] && forall n :: n in old(order) ==> n.key == old(n.key)
      ensures Indexed()
    {
    }

    /** Links a node with a new key behind the others. */
    method Link(node: Node<V>)
      requires Valid() && node.key !in index && size < capacity && node !in order && node !in nodePool
      modifies `index, `size, `head, `tail, `order, order`next, node`prev, node`next
      ensures Valid() && order == old(order) + [node]
      ensures Contents() == old(Contents()) + [(node.key, node.value)]
    {
      hide Linked, Indexed, Contents, Distinct;
      index := index[node.key := node];
      size := size + 1;
      AppendNode(node);
      IndexedMore(node);
      AppendedContents(node);
    }

    /** Set of a new key while there is room. */
    method Add(k: int, v: V)
      requires Valid() && k !in index && size < capacity
      modifies this, Nodes()
      ensures Valid() && !Has(old(Contents()), k) && Contents() == Remove(old(Contents()), k) + [(k, v)]
      ensures fresh(Nodes() - old(Nodes()))
    {
      hide LruMap.Valid, Remove, ValueOf, Has, Contents, Touch;
      Missing(k);
      var node := TakeNode(k, v);
      Link(node);
    }
  }
}
