/** What every interleaving of ArenaThreads keeps, and what follows over whole runs. */
module ArenaThreadSafety {
  import opened Options
  import opened ArenaThreads

  // The published SerialArenas of each arena, newest first.
  type Lists = map<ArenaId, seq<Addr>>

  // ----- the invariant

  ghost predicate Within(mem: map<Addr, SerialArena>, l: seq<Addr>) {
    forall i :: 0 <= i < |l| ==> l[i] in mem
  }

  ghost predicate NoneOwned(mem: map<Addr, SerialArena>, l: seq<Addr>, t: Thread) {
    forall i :: 0 <= i < |l| ==> l[i] in mem && mem[l[i]].owner != t
  }

  /** At most one SerialArena per owner thread (which also makes the addresses distinct). */
  ghost predicate DistinctOwners(mem: map<Addr, SerialArena>, l: seq<Addr>)
    requires Within(mem, l)
  {
    forall i, j :: 0 <= i < j < |l| ==> mem[l[i]].owner != mem[l[j]].owner
  }

  ghost predicate ListOk(w: World, l: seq<Addr>, a: ArenaId)
    requires a in w.arenas
  {
    var arena := w.arenas[a];
    && Linked(w.mem, arena.threads, l)
    && DistinctOwners(w.mem, l)
    && (arena.hint.Some? ==> arena.hint.value in l)
    && (arena.initial.Some? ==> arena.initial.value.addr in l)
    && 0 <= arena.lifecycle < w.nextLifecycle
  }

  ghost predicate Apart(ls: Lists) {
    forall a, b, s :: a in ls && b in ls && a != b && s in ls[a] ==> s !in ls[b]
  }

  ghost predicate DistinctLifecycles(w: World) {
    forall a, b :: a in w.arenas && b in w.arenas && a != b ==> w.arenas[a].lifecycle != w.arenas[b].lifecycle
  }

  ghost predicate Owns(w: World, l: seq<Addr>, s: Addr, t: Thread) {
    s in l && s in w.mem && w.mem[s].owner == t
  }

  ghost predicate CacheOk(w: World, ls: Lists, t: Thread)
    requires t < |w.caches| && ls.Keys == w.arenas.Keys
  {
    var cache := w.caches[t];
    && cache.lastLifecycle < w.nextLifecycle
    && forall a :: a in w.arenas && w.arenas[a].lifecycle == cache.lastLifecycle ==>
        cache.lastSerial.Some? && Owns(w, ls[a], cache.lastSerial.value, t)
  }

  function Private(pc: Pc): Option<Addr> {
    if pc.CountBlock? || pc.NewSerial? || pc.LoadHead? || pc.SetNext? || pc.Cas? then Some(pc.s) else None
  }

  /** A private SerialArena is on no list and belongs to one thread only. */
  ghost predicate PrivatesOk(w: World, ls: Lists) {
    && (forall t :: 0 <= t < |w.pcs| && Private(w.pcs[t]).Some? ==> Private(w.pcs[t]).value in w.mem)
    && (forall t, a :: 0 <= t < |w.pcs| && a in ls && Private(w.pcs[t]).Some? ==> Private(w.pcs[t]).value !in ls[a])
    && (forall t, u :: 0 <= t < u < |w.pcs| && Private(w.pcs[t]).Some? ==> Private(w.pcs[t]) != Private(w.pcs[u]))
  }

  /** A walk that has reached `cur` has passed only SerialArenas of other threads. */
  ghost predicate WalkOk(mem: map<Addr, SerialArena>, l: seq<Addr>, cur: Option<Addr>, t: Thread) {
    exists k :: 0 <= k <= |l| && cur == HeadOf(l[k..]) && NoneOwned(mem, l[..k], t)
  }

  ghost predicate PcOk(w: World, ls: Lists, t: Thread)
    requires t < |w.pcs|
  {
    var pc := w.pcs[t];
    && !pc.Crashed?
    && (!pc.Idle? ==> pc.arena in w.arenas && pc.arena in ls)
    && (pc.FastOwner? ==> pc.hint in ls[pc.arena])
    && (pc.Walk? ==> WalkOk(w.mem, ls[pc.arena], pc.cur, t))
    && (pc.NeedBlock? || Private(pc).Some? ==> NoneOwned(w.mem, ls[pc.arena], t))
    && (pc.LoadHead? || pc.SetNext? || pc.Cas? ==>
      pc.s in w.mem && w.mem[pc.s].owner == t && w.mem[pc.s].bytes == pc.bytes)
    && (pc.Cas? ==> w.mem[pc.s].next == pc.head)
    && (pc.WriteCache? || pc.WriteHint? || pc.Ready? || pc.LinkBlock? ==> Owns(w, ls[pc.arena], pc.s, t))
  }

  // Bytes that a thread has counted in space_allocated_ but not yet linked.
  function Owed(pc: Pc, a: ArenaId): nat {
    if (pc.NewSerial? || pc.LoadHead? || pc.SetNext? || pc.Cas? || pc.LinkBlock?) && pc.arena == a then pc.bytes else 0
  }

  function SumOwed(pcs: seq<Pc>, a: ArenaId): nat {
    if pcs == [] then 0 else Owed(pcs[0], a) + SumOwed(pcs[1..], a)
  }

  ghost predicate SpaceOk(w: World, l: seq<Addr>, a: ArenaId)
    requires a in w.arenas && Within(w.mem, l)
  {
    w.arenas[a].space == ListBytes(w.mem, l) + SumOwed(w.pcs, a)
  }

  /** The part of the invariant that does not look at program counters. */
  ghost predicate Core(w: World, ls: Lists) {
    && |w.pcs| == |w.caches|
    && 0 <= w.nextLifecycle
    && ls.Keys == w.arenas.Keys
    && (forall a :: a in ls ==> ListOk(w, ls[a], a))
    && Apart(ls)
    && DistinctLifecycles(w)
    && (forall t :: 0 <= t < |w.caches| ==> CacheOk(w, ls, t))
  }

  ghost predicate Inv(w: World, ls: Lists) {
    && Core(w, ls)
    && PrivatesOk(w, ls)
    && (forall t :: 0 <= t < |w.pcs| ==> PcOk(w, ls, t))
    && (forall a :: a in ls ==> SpaceOk(w, ls[a], a))
  }

  // ----- sums

  lemma {:induction false} SumOwedUpdate(pcs: seq<Pc>, t: nat, pc: Pc, a: ArenaId)
    requires t < |pcs|
    ensures SumOwed(pcs[t := pc], a) == SumOwed(pcs, a) - Owed(pcs[t], a) + Owed(pc, a)
  {
    if t == 0 {
      assert pcs[t := pc][1..] == pcs[1..];
    } else {
      assert pcs[t := pc][1..] == pcs[1..][t - 1 := pc];
      SumOwedUpdate(pcs[1..], t - 1, pc, a);
    }
  }

  lemma {:induction false} SumOwedQuiet(pcs: seq<Pc>, a: ArenaId)
    requires forall t :: 0 <= t < |pcs| ==> Owed(pcs[t], a) == 0
    ensures SumOwed(pcs, a) == 0
  {
    if pcs != [] {
      SumOwedQuiet(pcs[1..], a);
    }
  }

  lemma {:induction false} ListBytesFrame(mem: map<Addr, SerialArena>, mem': map<Addr, SerialArena>, l: seq<Addr>)
    requires forall i :: 0 <= i < |l| ==> l[i] in mem && l[i] in mem' && mem[l[i]].bytes == mem'[l[i]].bytes
    ensures ListBytes(mem, l) == ListBytes(mem', l)
  {
    if l != [] {
      ListBytesFrame(mem, mem', l[1..]);
    }
  }

  lemma {:induction false} ListBytesGrow(mem: map<Addr, SerialArena>, l: seq<Addr>, s: Addr, bytes: nat)
    requires Within(mem, l) && DistinctOwners(mem, l) && s in l
    ensures Within(mem[s := mem[s].(bytes := mem[s].bytes + bytes)], l)
    ensures ListBytes(mem[s := mem[s].(bytes := mem[s].bytes + bytes)], l) == ListBytes(mem, l) + bytes
  {
    var mem' := mem[s := mem[s].(bytes := mem[s].bytes + bytes)];
    if l[0] == s {
      forall i | 0 <= i < |l[1..]|
        ensures l[1..][i] in mem && l[1..][i] in mem' && mem[l[1..][i]].bytes == mem'[l[1..][i]].bytes
      {
        assert l[1..][i] == l[i + 1];
      }
      ListBytesFrame(mem, mem', l[1..]);
    } else {
      assert Within(mem, l[1..]) && DistinctOwners(mem, l[1..]);
      ListBytesGrow(mem, l[1..], s, bytes);
    }
  }

  // ----- preservation, one kind of step at a time

  /** Only thread t has moved, and no arena got another list, id or initial block. */
  ghost predicate Moved(w: World, w': World, t: Thread, pc: Pc) {
    && t < |w.pcs| && w'.pcs == w.pcs[t := pc]
    && |w'.caches| == |w.caches| && (forall u :: 0 <= u < |w.caches| && u != t ==> w'.caches[u] == w.caches[u])
    && w'.nextLifecycle == w.nextLifecycle
    && w'.arenas.Keys == w.arenas.Keys
    && forall a :: a in w.arenas ==>
        && w'.arenas[a].lifecycle == w.arenas[a].lifecycle
        && w'.arenas[a].threads == w.arenas[a].threads
        && w'.arenas[a].initial == w.arenas[a].initial
        && w'.arenas[a].space + Owed(w.pcs[t], a) == w.arenas[a].space + Owed(pc, a)
  }

  // ----- what the invariant says of one arena and of one thread

  lemma InvArena(w: World, ls: Lists, a: ArenaId)
    requires Inv(w, ls) && (a in ls || a in w.arenas)
    ensures a in ls && a in w.arenas && Within(w.mem, ls[a]) && ListOk(w, ls[a], a) && SpaceOk(w, ls[a], a)
  {
    hide SpaceOk, PcOk, CacheOk, PrivatesOk;
    assert ListOk(w, ls[a], a);
  }

  lemma InvThread(w: World, ls: Lists, t: Thread)
    requires Inv(w, ls) && (t < |w.pcs| || t < |w.caches|)
    ensures t < |w.pcs| == |w.caches| && ls.Keys == w.arenas.Keys && PcOk(w, ls, t) && CacheOk(w, ls, t)
    ensures PrivatesOk(w, ls)
  {
    hide SpaceOk, PcOk, CacheOk, PrivatesOk, ListOk;
  }

  lemma InvCore(w: World, ls: Lists)
    requires Inv(w, ls)
    ensures |w.pcs| == |w.caches| && 0 <= w.nextLifecycle && ls.Keys == w.arenas.Keys
    ensures Apart(ls) && DistinctLifecycles(w) && PrivatesOk(w, ls) && Core(w, ls)
  {
    hide SpaceOk, PcOk, CacheOk, PrivatesOk, ListOk;
  }

  /** What holds of every arena and every thread makes up the invariant. */
  lemma MakeInv(w: World, ls: Lists)
    requires |w.pcs| == |w.caches| && 0 <= w.nextLifecycle && ls.Keys == w.arenas.Keys
    requires Apart(ls) && DistinctLifecycles(w) && PrivatesOk(w, ls)
    requires forall a :: a in ls ==> Within(w.mem, ls[a]) && ListOk(w, ls[a], a) && SpaceOk(w, ls[a], a)
    requires forall u :: 0 <= u < |w.pcs| ==> PcOk(w, ls, u) && CacheOk(w, ls, u)
    ensures Inv(w, ls)
  {
    hide SpaceOk, PcOk, CacheOk, PrivatesOk, ListOk;
  }

  // ----- steps that write no SerialArena

  lemma MovedList(w: World, w': World, ls: Lists, t: Thread, pc: Pc, a: ArenaId)
    requires Inv(w, ls) && Moved(w, w', t, pc) && w'.mem == w.mem && a in ls
    requires forall b :: b in w'.arenas && w'.arenas[b].hint.Some? ==> b in ls && w'.arenas[b].hint.value in ls[b]
    ensures a in w'.arenas && Within(w'.mem, ls[a]) && ListOk(w', ls[a], a) && SpaceOk(w', ls[a], a)
  {
    hide Inv, Linked, DistinctOwners, Owed, SumOwed;
    InvArena(w, ls, a);
    SumOwedUpdate(w.pcs, t, pc, a);
  }

  lemma MovedPc(w: World, w': World, ls: Lists, t: Thread, pc: Pc, u: Thread)
    requires Moved(w, w', t, pc) && w'.mem == w.mem && u < |w.pcs| && u != t && PcOk(w, ls, u)
    ensures PcOk(w', ls, u)
  {
    hide WalkOk, NoneOwned, Owed;
  }

  lemma MovedCache(w: World, w': World, ls: Lists, t: Thread, pc: Pc, u: Thread)
    requires Moved(w, w', t, pc) && w'.mem == w.mem && u < |w.caches| && u != t && ls.Keys == w.arenas.Keys
    requires CacheOk(w, ls, u)
    ensures CacheOk(w', ls, u)
  {
    hide Owed;
  }

  lemma MovedPrivates(w: World, w': World, ls: Lists, t: Thread, pc: Pc)
    requires Moved(w, w', t, pc) && w'.mem == w.mem && PrivatesOk(w, ls) && DistinctLifecycles(w)
    requires Private(pc) == Private(w.pcs[t])
    ensures PrivatesOk(w', ls) && DistinctLifecycles(w')
  {
    hide Owed, PrivatesOk;
    PrivatesSame(w, w', ls);
  }

  lemma KeepMoved(w: World, w': World, ls: Lists, t: Thread, pc: Pc)
    requires Inv(w, ls) && Moved(w, w', t, pc) && w'.mem == w.mem
    requires PcOk(w', ls, t) && ls.Keys == w.arenas.Keys && t < |w.caches| && CacheOk(w', ls, t)
    requires Private(pc) == Private(w.pcs[t])
    requires forall a :: a in w'.arenas && w'.arenas[a].hint.Some? ==> w'.arenas[a].hint.value in ls[a]
    ensures Inv(w', ls)
  {
    hide Inv, ListOk, SpaceOk, PcOk, CacheOk, PrivatesOk, Within, Owed, DistinctLifecycles, Apart;
    InvCore(w, ls);
    MovedPrivates(w, w', ls, t, pc);
    forall a | a in ls ensures Within(w'.mem, ls[a]) && ListOk(w', ls[a], a) && SpaceOk(w', ls[a], a) {
      MovedList(w, w', ls, t, pc, a);
    }
    forall u | 0 <= u < |w'.pcs| ensures PcOk(w', ls, u) && CacheOk(w', ls, u) {
      if u != t {
        InvThread(w, ls, u);
        MovedPc(w, w', ls, t, pc, u);
        MovedCache(w, w', ls, t, pc, u);
      }
    }
    MakeInv(w', ls);
  }

  lemma PrivatesSame(w: World, w': World, ls: Lists)
    requires PrivatesOk(w, ls) && |w'.pcs| == |w.pcs| && w'.mem.Keys == w.mem.Keys
    requires forall u :: 0 <= u < |w.pcs| ==> Private(w'.pcs[u]) == Private(w.pcs[u])
    ensures PrivatesOk(w', ls)
  {
  }

  lemma KeepGoto(w: World, ls: Lists, t: Thread, pc: Pc)
    requires Inv(w, ls) && t < |w.pcs|
    requires PcOk(Goto(w, t, pc), ls, t)
    requires Private(pc) == Private(w.pcs[t])
    requires forall a :: Owed(pc, a) == Owed(w.pcs[t], a)
    ensures Inv(Goto(w, t, pc), ls)
  {
    hide Inv, Linked, DistinctOwners, SpaceOk, PcOk, PrivatesOk, Owed;
    InvThread(w, ls, t);
    forall a | a in w.arenas ensures a in ls && ListOk(w, ls[a], a) {
      InvArena(w, ls, a);
    }
    KeepMoved(w, Goto(w, t, pc), ls, t, pc);
  }

  lemma WalkFrame(mem: map<Addr, SerialArena>, mem': map<Addr, SerialArena>, l: seq<Addr>, cur: Option<Addr>, t: Thread)
    requires WalkOk(mem, l, cur, t)
    requires forall i :: 0 <= i < |l| ==> l[i] in mem' && l[i] in mem && mem'[l[i]].owner == mem[l[i]].owner
    ensures WalkOk(mem', l, cur, t)
  {
    var k :| 0 <= k <= |l| && cur == HeadOf(l[k..]) && NoneOwned(mem, l[..k], t);
    forall i | 0 <= i < |l[..k]| ensures l[..k][i] in mem' && mem'[l[..k][i]].owner != t {
      assert l[..k][i] == l[i];
    }
    assert NoneOwned(mem', l[..k], t);
  }

  /** Writing memory that is on no list and private to no other thread. */
  lemma PcFrame(w: World, w': World, ls: Lists, u: Thread, s: Addr)
    requires u < |w.pcs| && |w'.pcs| == |w.pcs| && w'.pcs[u] == w.pcs[u] && PcOk(w, ls, u)
    requires w'.arenas.Keys == w.arenas.Keys
    requires forall a :: a in ls ==> Within(w.mem, ls[a]) && s !in ls[a]
    requires Private(w.pcs[u]) != Some(s)
    requires forall p :: p in w.mem && p != s ==> p in w'.mem && w'.mem[p] == w.mem[p]
    ensures PcOk(w', ls, u)
  {
    var pc := w.pcs[u];
    if pc.Walk? {
      WalkFrame(w.mem, w'.mem, ls[pc.arena], pc.cur, u);
    }
  }

  lemma PrivateWriteList(w: World, ls: Lists, t: Thread, s: Addr, x: SerialArena, pc: Pc, a: ArenaId)
    requires Inv(w, ls) && t < |w.pcs| && a in ls
    requires Private(w.pcs[t]) == Some(s) || s !in w.mem
    requires forall b :: Owed(pc, b) == Owed(w.pcs[t], b)
    ensures
      var w' := Goto(w.(mem := w.mem[s := x]), t, pc);
      && s !in ls[a] && a in w'.arenas
      && Within(w'.mem, ls[a]) && ListOk(w', ls[a], a) && SpaceOk(w', ls[a], a)
  {
    hide Inv, Owed, SumOwed, ListBytes, Private;
    InvArena(w, ls, a);
    InvThread(w, ls, t);
    assert s !in ls[a];
    ListBytesFrame(w.mem, w.mem[s := x], ls[a]);
    SumOwedUpdate(w.pcs, t, pc, a);
  }

  lemma KeepPrivateWrite(w: World, ls: Lists, t: Thread, s: Addr, x: SerialArena, pc: Pc)
    requires Inv(w, ls) && t < |w.pcs|
    requires Private(w.pcs[t]) == Some(s) || (Private(w.pcs[t]) == None && s !in w.mem)
    requires Private(pc) == Some(s)
    requires PcOk(Goto(w.(mem := w.mem[s := x]), t, pc), ls, t)
    requires forall a :: Owed(pc, a) == Owed(w.pcs[t], a)
    ensures Inv(Goto(w.(mem := w.mem[s := x]), t, pc), ls)
  {
    hide Inv, ListOk, SpaceOk, PcOk, CacheOk, Owed, Apart, DistinctLifecycles, Private, PrivatesOk, Core;
    var w' := Goto(w.(mem := w.mem[s := x]), t, pc);
    InvCore(w, ls);
    forall a | a in ls
      ensures s !in ls[a] && Within(w.mem, ls[a])
      ensures Within(w'.mem, ls[a]) && ListOk(w', ls[a], a) && SpaceOk(w', ls[a], a)
    {
      InvArena(w, ls, a);
      PrivateWriteList(w, ls, t, s, x, pc, a);
    }
    CachesFrame(w, w', ls);
    SameLifecycles(w, w');
    forall u | 0 <= u < |w'.pcs| ensures PcOk(w', ls, u) && CacheOk(w', ls, u) {
      InvThread(w, ls, u);
      if u != t {
        PrivateOfOther(w, ls, t, s, u);
        PcFrame(w, w', ls, u, s);
      }
    }
    PrivatesMove(w, w', ls, t, s);
    MakeInv(w', ls);
  }

  lemma SameLifecycles(w: World, w': World)
    requires DistinctLifecycles(w) && w'.arenas == w.arenas
    ensures DistinctLifecycles(w')
  {
  }

  lemma PrivateOfOther(w: World, ls: Lists, t: Thread, s: Addr, u: Thread)
    requires PrivatesOk(w, ls) && t < |w.pcs| && u < |w.pcs| && u != t
    requires Private(w.pcs[t]) == Some(s) || s !in w.mem
    ensures Private(w.pcs[u]) != Some(s)
  {
    hide Private;
  }

  lemma PrivatesMove(w: World, w': World, ls: Lists, t: Thread, s: Addr)
    requires PrivatesOk(w, ls) && t < |w.pcs| && w'.mem.Keys == w.mem.Keys + {s}
    requires Private(w.pcs[t]) == Some(s) || s !in w.mem
    requires |w'.pcs| == |w.pcs| && Private(w'.pcs[t]) == Some(s)
    requires forall u :: 0 <= u < |w.pcs| && u != t ==> w'.pcs[u] == w.pcs[u]
    requires forall a :: a in ls ==> s !in ls[a]
    ensures PrivatesOk(w', ls)
  {
  }

  /** Caches stay right while the listed SerialArenas, their owners and the ids stay. */
  lemma CachesFrame(w: World, w': World, ls: Lists)
    requires Core(w, ls) && w'.caches == w.caches && w'.nextLifecycle == w.nextLifecycle
    requires w'.arenas.Keys == w.arenas.Keys
    requires forall a :: a in w.arenas ==> w'.arenas[a].lifecycle == w.arenas[a].lifecycle
    requires forall a, s :: a in ls && s in ls[a] && s in w.mem ==> s in w'.mem && w'.mem[s].owner == w.mem[s].owner
    ensures forall u :: 0 <= u < |w'.caches| ==> CacheOk(w', ls, u)
  {
    forall u | 0 <= u < |w'.caches| ensures CacheOk(w', ls, u) {
      assert CacheOk(w, ls, u);
    }
  }

  lemma KeepAddSpace(w: World, ls: Lists, t: Thread, bytes: nat, pc: Pc)
    requires Inv(w, ls) && t < |w.pcs| && !w.pcs[t].Idle? && !w.pcs[t].Crashed? && w.pcs[t].arena in w.arenas
    requires PcOk(Goto(AddSpace(w, w.pcs[t].arena, bytes), t, pc), ls, t)
    requires Private(pc) == Private(w.pcs[t])
    requires forall b :: Owed(pc, b) == Owed(w.pcs[t], b) + (if b == w.pcs[t].arena then bytes else 0)
    ensures Inv(Goto(AddSpace(w, w.pcs[t].arena, bytes), t, pc), ls)
  {
    hide Inv, Linked, DistinctOwners, SpaceOk, PcOk, PrivatesOk, Owed;
    var w' := Goto(AddSpace(w, w.pcs[t].arena, bytes), t, pc);
    InvThread(w, ls, t);
    forall a | a in w.arenas ensures a in ls && ListOk(w, ls[a], a) {
      InvArena(w, ls, a);
    }
    KeepMoved(w, w', ls, t, pc);
  }

  /** The new list after a successful compare-and-swap. */
  lemma PushList(w: World, l: seq<Addr>, s: Addr, t: Thread)
    requires s in w.mem && w.mem[s].owner == t && NoneOwned(w.mem, l, t)
    requires Linked(w.mem, w.mem[s].next, l) && DistinctOwners(w.mem, l)
    ensures Linked(w.mem, Some(s), [s] + l) && DistinctOwners(w.mem, [s] + l)
    ensures ListBytes(w.mem, [s] + l) == w.mem[s].bytes + ListBytes(w.mem, l)
  {
    var m := [s] + l;
    assert m[1..] == l;
    forall i | 0 <= i < |m| ensures m[i] in w.mem && w.mem[m[i]].next == HeadOf(m[i + 1..]) {
      if i > 0 {
        assert m[i] == l[i - 1] && m[i + 1..] == l[i..] && i - 1 + 1 == i;
      }
    }
  }

  lemma ConsSlices(l: seq<Addr>, s: Addr, k: nat)
    requires k <= |l|
    ensures ([s] + l)[k + 1..] == l[k..] && ([s] + l)[..k + 1] == [s] + l[..k]
  {
  }

  lemma PushPcs(w: World, w': World, ls: Lists, ls': Lists, a: ArenaId, s: Addr, t: Thread)
    requires a in ls && ls' == ls[a := [s] + ls[a]] && t < |w.pcs|
    requires w'.pcs == w.pcs[t := WriteCache(a, s)] && forall u :: 0 <= u < |w.pcs| ==> PcOk(w, ls, u)
    requires a in w.arenas && w'.arenas.Keys == w.arenas.Keys && w'.mem == w.mem
    requires s in w.mem && w.mem[s].owner == t
    ensures forall u :: 0 <= u < |w'.pcs| ==> PcOk(w', ls', u)
  {
    forall u | 0 <= u < |w'.pcs| ensures PcOk(w', ls', u) {
      var pc := w.pcs[u];
      assert PcOk(w, ls, u);
      if u != t && pc.Walk? && pc.arena == a {
        var l := ls[a];
        var k :| 0 <= k <= |l| && pc.cur == HeadOf(l[k..]) && NoneOwned(w.mem, l[..k], u);
        ConsSlices(l, s, k);
        assert NoneOwned(w.mem, ls'[a][..k + 1], u);
      }
    }
  }

  lemma KeepCas(w: World, ls: Lists, t: Thread, a: ArenaId, s: Addr, bytes: nat)
    requires Inv(w, ls) && t < |w.pcs| && a in w.arenas
    requires w.pcs[t] == Cas(a, s, bytes, w.arenas[a].threads)
    ensures Inv(Goto(w.(arenas := w.arenas[a := w.arenas[a].(threads := Some(s))]), t, WriteCache(a, s)),
                ls[a := [s] + ls[a]])
  {
    hide Inv, ListOk, SpaceOk, CacheOk, PrivatesOk, Core, Within, NoneOwned, WalkOk, Apart;
    InvCore(w, ls);
    InvThread(w, ls, t);
    var w' := Goto(w.(arenas := w.arenas[a := w.arenas[a].(threads := Some(s))]), t, WriteCache(a, s));
    var ls' := ls[a := [s] + ls[a]];
    CasLists(w, w', ls, ls', t, a, s, bytes);
    forall u | 0 <= u < |w.pcs| ensures PcOk(w, ls, u) {
      InvThread(w, ls, u);
    }
    PushPcs(w, w', ls, ls', a, s, t);
    PushCaches(w, w', ls, ls', a, s);
    PushPrivates(w, w', ls, a, s, t);
    MakeInv(w', ls');
  }

  lemma CasList(w: World, w': World, ls: Lists, t: Thread, a: ArenaId, s: Addr, bytes: nat, b: ArenaId)
    requires a in w.arenas && b in w.arenas && ls.Keys == w.arenas.Keys
    requires ListOk(w, ls[b], b) && SpaceOk(w, ls[b], b)
    requires t < |w.pcs| && w.pcs[t] == Cas(a, s, bytes, w.arenas[a].threads)
    requires s in w.mem && w.mem[s].owner == t && w.mem[s].bytes == bytes
    requires w.mem[s].next == w.arenas[a].threads && NoneOwned(w.mem, ls[a], t)
    requires w' == Goto(w.(arenas := w.arenas[a := w.arenas[a].(threads := Some(s))]), t, WriteCache(a, s))
    ensures
      var ls' := ls[a := [s] + ls[a]];
      Within(w'.mem, ls'[b]) && ListOk(w', ls'[b], b) && SpaceOk(w', ls'[b], b)
  {
    SumOwedUpdate(w.pcs, t, WriteCache(a, s), b);
    if b == a {
      PushList(w, ls[a], s, t);
    }
  }

  lemma CasLists(w: World, w': World, ls: Lists, ls': Lists, t: Thread, a: ArenaId, s: Addr, bytes: nat)
    requires Inv(w, ls) && t < |w.pcs| && a in w.arenas
    requires w.pcs[t] == Cas(a, s, bytes, w.arenas[a].threads)
    requires w' == Goto(w.(arenas := w.arenas[a := w.arenas[a].(threads := Some(s))]), t, WriteCache(a, s))
    requires ls' == ls[a := [s] + ls[a]]
    ensures forall b :: b in ls' ==>
      b in w'.arenas && Within(w'.mem, ls'[b]) && ListOk(w', ls'[b], b) && SpaceOk(w', ls'[b], b)
  {
    hide Inv, Linked, SpaceOk, CacheOk, PrivatesOk, NoneOwned, DistinctOwners;
    InvCore(w, ls);
    InvThread(w, ls, t);
    forall b | b in ls'
      ensures b in w'.arenas && Within(w'.mem, ls'[b]) && ListOk(w', ls'[b], b) && SpaceOk(w', ls'[b], b)
    {
      InvArena(w, ls, b);
      CasList(w, w', ls, t, a, s, bytes, b);
    }
  }

  lemma PushCaches(w: World, w': World, ls: Lists, ls': Lists, a: ArenaId, s: Addr)
    requires a in ls && ls' == ls[a := [s] + ls[a]]
    requires Core(w, ls) && w'.caches == w.caches && w'.nextLifecycle == w.nextLifecycle && w'.mem == w.mem
    requires w'.arenas.Keys == w.arenas.Keys
    requires forall b :: b in w.arenas ==> w'.arenas[b].lifecycle == w.arenas[b].lifecycle
    ensures forall u :: 0 <= u < |w'.caches| ==> CacheOk(w', ls', u)
  {
    forall u | 0 <= u < |w'.caches| ensures CacheOk(w', ls', u) {
      assert CacheOk(w, ls, u);
    }
  }

  lemma PushPrivates(w: World, w': World, ls: Lists, a: ArenaId, s: Addr, t: Thread)
    requires PrivatesOk(w, ls) && Apart(ls) && a in ls && t < |w.pcs| && Private(w.pcs[t]) == Some(s)
    requires w'.mem == w.mem && |w'.pcs| == |w.pcs| && Private(w'.pcs[t]) == None
    requires forall u :: 0 <= u < |w.pcs| && u != t ==> w'.pcs[u] == w.pcs[u]
    ensures PrivatesOk(w', ls[a := [s] + ls[a]]) && Apart(ls[a := [s] + ls[a]])
  {
  }

  lemma KeepLink(w: World, ls: Lists, t: Thread, a: ArenaId, s: Addr, bytes: nat)
    requires Inv(w, ls) && t < |w.pcs| && w.pcs[t] == LinkBlock(a, s, bytes) && s in w.mem
    ensures Inv(Goto(w.(mem := w.mem[s := w.mem[s].(bytes := w.mem[s].bytes + bytes)]), t, Ready(a, s)), ls)
  {
    hide Inv, ListOk, SpaceOk, CacheOk, Apart, DistinctLifecycles, PrivatesOk, Core, Within, NoneOwned, WalkOk, Owed;
    var w' := Goto(w.(mem := w.mem[s := w.mem[s].(bytes := w.mem[s].bytes + bytes)]), t, Ready(a, s));
    InvCore(w, ls);
    InvThread(w, ls, t);
    forall b | b in ls ensures Within(w'.mem, ls[b]) && ListOk(w', ls[b], b) && SpaceOk(w', ls[b], b) {
      InvArena(w, ls, b);
      LinkList(w, w', ls, t, a, s, bytes, b);
    }
    CachesFrame(w, w', ls);
    SameLifecycles(w, w');
    forall u | 0 <= u < |w'.pcs| ensures PcOk(w', ls, u) && CacheOk(w', ls, u) {
      LinkPcs(w, w', ls, a, s, t, u);
    }
    PrivatesSame(w, w', ls);
    MakeInv(w', ls);
  }

  lemma LinkList(w: World, w': World, ls: Lists, t: Thread, a: ArenaId, s: Addr, bytes: nat, b: ArenaId)
    requires a in w.arenas && b in w.arenas && ls.Keys == w.arenas.Keys && Apart(ls)
    requires ListOk(w, ls[b], b) && SpaceOk(w, ls[b], b)
    requires t < |w.pcs| && w.pcs[t] == LinkBlock(a, s, bytes) && s in w.mem && s in ls[a]
    requires w' == Goto(w.(mem := w.mem[s := w.mem[s].(bytes := w.mem[s].bytes + bytes)]), t, Ready(a, s))
    ensures Within(w'.mem, ls[b]) && ListOk(w', ls[b], b) && SpaceOk(w', ls[b], b)
  {
    hide Linked, ListBytes, SumOwed;
    SumOwedUpdate(w.pcs, t, Ready(a, s), b);
    SameLinks(w.mem, w'.mem, w.arenas[b].threads, ls[b]);
    if b == a {
      ListBytesGrow(w.mem, ls[a], s, bytes);
    } else {
      assert s !in ls[b];
      ListBytesFrame(w.mem, w'.mem, ls[b]);
    }
  }

  lemma SameLinks(mem: map<Addr, SerialArena>, mem': map<Addr, SerialArena>, p: Option<Addr>, l: seq<Addr>)
    requires Linked(mem, p, l) && mem'.Keys == mem.Keys
    requires forall s :: s in mem ==> mem'[s].next == mem[s].next && mem'[s].owner == mem[s].owner
    ensures Linked(mem', p, l) && Within(mem, l) && Within(mem', l)
    ensures DistinctOwners(mem, l) ==> DistinctOwners(mem', l)
  {
  }

  lemma LinkPcs(w: World, w': World, ls: Lists, a: ArenaId, s: Addr, t: Thread, u: Thread)
    requires Inv(w, ls) && t < |w.pcs| && w.pcs[t].LinkBlock? && a in ls && s in ls[a] && s in w.mem
    requires w'.mem.Keys == w.mem.Keys && w'.arenas == w.arenas && |w'.pcs| == |w.pcs| && u < |w.pcs|
    requires w'.mem[s].owner == w.mem[s].owner && forall p :: p in w.mem && p != s ==> w'.mem[p] == w.mem[p]
    requires w'.pcs[u] == if u == t then Ready(w.pcs[t].arena, w.pcs[t].s) else w.pcs[u]
    ensures PcOk(w', ls, u)
  {
    hide Inv, Linked, DistinctOwners, SpaceOk, CacheOk, Apart, WalkOk;
    InvThread(w, ls, u);
    InvThread(w, ls, t);
    if w.pcs[u].Walk? {
      InvArena(w, ls, w.pcs[u].arena);
      WalkFrame(w.mem, w'.mem, ls[w.pcs[u].arena], w.pcs[u].cur, u);
    }
  }

  lemma KeepWriteCache(w: World, ls: Lists, t: Thread)
    requires Inv(w, ls) && Enabled(w, Advance(t)) && w.pcs[t].WriteCache?
    ensures Inv(ApplyAdvance(w, t), ls)
  {
    hide Inv, Linked, DistinctOwners, SpaceOk, PrivatesOk, NoneOwned, WalkOk;
    var a, s := w.pcs[t].arena, w.pcs[t].s;
    var w' := ApplyAdvance(w, t);
    InvThread(w, ls, t);
    InvCore(w, ls);
    forall b | b in w.arenas ensures b in ls && ListOk(w, ls[b], b) {
      InvArena(w, ls, b);
    }
    KeepMoved(w, w', ls, t, WriteHint(a, s));
  }

  lemma KeepWriteHint(w: World, ls: Lists, t: Thread)
    requires Inv(w, ls) && Enabled(w, Advance(t)) && w.pcs[t].WriteHint?
    ensures Inv(ApplyAdvance(w, t), ls)
  {
    hide Inv, Linked, DistinctOwners, SpaceOk, PrivatesOk, NoneOwned, WalkOk;
    var a, s := w.pcs[t].arena, w.pcs[t].s;
    var w' := ApplyAdvance(w, t);
    InvThread(w, ls, t);
    forall b | b in w.arenas ensures b in ls && ListOk(w, ls[b], b) {
      InvArena(w, ls, b);
    }
    KeepMoved(w, w', ls, t, Ready(a, s));
  }

  /** One step of a walk over the list. */
  lemma WalkOn(w: World, l: seq<Addr>, cur: Option<Addr>, t: Thread, p: Option<Addr>)
    requires Linked(w.mem, p, l) && WalkOk(w.mem, l, cur, t)
    ensures cur == None ==> NoneOwned(w.mem, l, t)
    ensures cur.Some? ==> cur.value in l && cur.value in w.mem
    ensures cur.Some? && w.mem[cur.value].owner != t ==> WalkOk(w.mem, l, w.mem[cur.value].next, t)
  {
    var k :| 0 <= k <= |l| && cur == HeadOf(l[k..]) && NoneOwned(w.mem, l[..k], t);
    if k == |l| {
      assert l[..k] == l;
    } else {
      assert cur == Some(l[k]) && w.mem[l[k]].next == HeadOf(l[k + 1..]);
      if w.mem[l[k]].owner != t {
        assert l[..k + 1] == l[..k] + [l[k]];
        assert NoneOwned(w.mem, l[..k + 1], t);
      }
    }
  }

  lemma StartOk(w: World, l: seq<Addr>, p: Option<Addr>, t: Thread)
    requires Linked(w.mem, p, l)
    ensures WalkOk(w.mem, l, p, t)
  {
    assert l[0..] == l && NoneOwned(w.mem, l[..0], t);
  }

  predicate Reads(w: World, pc: Pc) {
    || pc.FastHint? || pc.FastOwner? || pc.StartWalk? || pc.Walk? || pc.LoadHead?
    || (pc.Cas? && pc.arena in w.arenas && w.arenas[pc.arena].threads != pc.head)
  }

  lemma ReadStep(w: World, ls: Lists, t: Thread)
    requires Enabled(w, Advance(t)) && Reads(w, w.pcs[t]) && PcOk(w, ls, t)
    requires w.pcs[t].arena in w.arenas && ListOk(w, ls[w.pcs[t].arena], w.pcs[t].arena)
    ensures
      var w' := ApplyAdvance(w, t);
      && t < |w'.pcs| && w' == Goto(w, t, w'.pcs[t]) && PcOk(w', ls, t)
      && Private(w'.pcs[t]) == Private(w.pcs[t]) && forall a :: Owed(w'.pcs[t], a) == Owed(w.pcs[t], a)
  {
    hide WalkOk, NoneOwned, DistinctOwners;
    var pc := w.pcs[t];
    var a := pc.arena;
    if pc.Walk? {
      WalkOn(w, ls[a], pc.cur, t, w.arenas[a].threads);
    } else if pc.StartWalk? {
      StartOk(w, ls[a], w.arenas[a].threads, t);
    }
  }

  /** The steps that only read shared memory. */
  lemma KeepRead(w: World, ls: Lists, t: Thread)
    requires Inv(w, ls) && Enabled(w, Advance(t)) && Reads(w, w.pcs[t])
    ensures Inv(ApplyAdvance(w, t), ls)
  {
    hide Inv, PcOk, CacheOk, PrivatesOk, ListOk, SpaceOk, ApplyAdvance, Owed, Private, Within;
    InvThread(w, ls, t);
    InvArena(w, ls, w.pcs[t].arena);
    ReadStep(w, ls, t);
    KeepGoto(w, ls, t, ApplyAdvance(w, t).pcs[t]);
  }

  /** The steps that write the thread's own, unpublished SerialArena. */
  lemma PrivateStep(w: World, ls: Lists, t: Thread)
    requires Enabled(w, Advance(t)) && PcOk(w, ls, t) && (w.pcs[t].NewSerial? || w.pcs[t].SetNext?)
    requires PrivatesOk(w, ls)
    ensures
      var w', s := ApplyAdvance(w, t), w.pcs[t].s;
      && t < |w'.pcs| && s in w'.mem && w' == Goto(w.(mem := w.mem[s := w'.mem[s]]), t, w'.pcs[t]) && PcOk(w', ls, t)
      && Private(w.pcs[t]) == Private(w'.pcs[t]) == Some(s) && forall a :: Owed(w'.pcs[t], a) == Owed(w.pcs[t], a)
  {
    hide WalkOk;
  }

  lemma KeepPrivate(w: World, ls: Lists, t: Thread)
    requires Inv(w, ls) && Enabled(w, Advance(t))
    requires w.pcs[t].NewSerial? || w.pcs[t].SetNext?
    ensures Inv(ApplyAdvance(w, t), ls)
  {
    hide Inv, PcOk, CacheOk, ApplyAdvance, Owed, Apart;
    InvThread(w, ls, t);
    PrivateStep(w, ls, t);
    var w' := ApplyAdvance(w, t);
    KeepPrivateWrite(w, ls, t, w.pcs[t].s, w'.mem[w.pcs[t].s], w'.pcs[t]);
  }

  /** The steps that write shared memory, other than the compare-and-swap. */
  lemma KeepCount(w: World, ls: Lists, t: Thread)
    requires Inv(w, ls) && Enabled(w, Advance(t)) && w.pcs[t].CountBlock?
    ensures Inv(ApplyAdvance(w, t), ls)
  {
    hide Inv, CacheOk, PrivatesOk, NoneOwned;
    var pc := w.pcs[t];
    InvThread(w, ls, t);
    KeepAddSpace(w, ls, t, pc.bytes, NewSerial(pc.arena, pc.s, pc.bytes));
  }

  lemma KeepGrown(w: World, ls: Lists, t: Thread)
    requires Inv(w, ls) && Enabled(w, Advance(t)) && w.pcs[t].LinkBlock?
    ensures Inv(ApplyAdvance(w, t), ls)
  {
    hide Inv, CacheOk, PrivatesOk;
    var pc := w.pcs[t];
    InvThread(w, ls, t);
    KeepLink(w, ls, t, pc.arena, pc.s, pc.bytes);
  }

  lemma KeepAdvance(w: World, ls: Lists, t: Thread)
    requires Inv(w, ls) && Enabled(w, Advance(t))
    ensures Inv(ApplyAdvance(w, t), NextLists(w, ls, Advance(t)))
  {
    var pc := w.pcs[t];
    if pc.Cas? && w.arenas[pc.arena].threads == pc.head {
      KeepCas(w, ls, t, pc.arena, pc.s, pc.bytes);
    } else if pc.NewSerial? || pc.SetNext? {
      KeepPrivate(w, ls, t);
    } else if pc.CountBlock? {
      KeepCount(w, ls, t);
    } else if pc.WriteCache? {
      KeepWriteCache(w, ls, t);
    } else if pc.WriteHint? {
      KeepWriteHint(w, ls, t);
    } else if pc.LinkBlock? {
      KeepGrown(w, ls, t);
    } else {
      KeepRead(w, ls, t);
    }
  }

  // ----- the end and the start of an arena's life

  lemma DestroyList(w: World, ls: Lists, a: ArenaId, freed: seq<Addr>, b: ArenaId)
    requires Inv(w, ls) && a in ls && freed == ls[a] && b in ls && b != a
    ensures
      var w' := Freed(w, a, freed);
      && b in w'.arenas && Within(w'.mem, ls[b]) && ListOk(w', ls[b], b) && SpaceOk(w', ls[b], b)
      && forall i :: 0 <= i < |ls[b]| ==> ls[b][i] in w.mem && w'.mem[ls[b][i]] == w.mem[ls[b][i]]
  {
    hide Inv, SumOwed, ListBytes, PrivatesOk, DistinctLifecycles;
    InvCore(w, ls);
    InvArena(w, ls, b);
    var w' := Freed(w, a, freed);
    forall i | 0 <= i < |ls[b]| ensures ls[b][i] in w'.mem && w'.mem[ls[b][i]] == w.mem[ls[b][i]] {
      assert ls[b][i] in ls[b];
    }
    ListBytesFrame(w.mem, w'.mem, ls[b]);
  }

  lemma DestroyPc(w: World, ls: Lists, a: ArenaId, freed: seq<Addr>, u: Thread)
    requires Inv(w, ls) && a in ls && freed == ls[a] && Quiet(w, a) && u < |w.pcs|
    ensures PcOk(Freed(w, a, freed), ls - {a}, u)
  {
    hide Inv, CacheOk, PrivatesOk, ListOk, SpaceOk, NoneOwned, WalkOk;
    InvThread(w, ls, u);
    var pc, w' := w.pcs[u], Freed(w, a, freed);
    if !pc.Idle? {
      assert InArena(pc, pc.arena);
      InvArena(w, ls, pc.arena);
      DestroyList(w, ls, a, freed, pc.arena);
      if pc.Walk? {
        WalkFrame(w.mem, w'.mem, ls[pc.arena], pc.cur, u);
      }
      NoneOwnedFrame(w.mem, w'.mem, ls[pc.arena], u);
      PrivateStays(w, ls, a, freed, u);
    }
  }

  lemma NoneOwnedFrame(mem: map<Addr, SerialArena>, mem': map<Addr, SerialArena>, l: seq<Addr>, t: Thread)
    requires forall i :: 0 <= i < |l| ==> l[i] in mem && l[i] in mem' && mem'[l[i]].owner == mem[l[i]].owner
    ensures NoneOwned(mem, l, t) ==> NoneOwned(mem', l, t)
  {
  }

  lemma PrivateStays(w: World, ls: Lists, a: ArenaId, freed: seq<Addr>, u: Thread)
    requires Inv(w, ls) && a in ls && freed == ls[a] && u < |w.pcs|
    ensures
      var p := Private(w.pcs[u]);
      p.Some? ==>
        && p.value in w.mem && p.value in Freed(w, a, freed).mem
        && Freed(w, a, freed).mem[p.value] == w.mem[p.value]
  {
    hide Inv, PcOk, CacheOk, Private;
    InvThread(w, ls, u);
  }

  lemma DestroyCache(w: World, ls: Lists, a: ArenaId, freed: seq<Addr>, u: Thread)
    requires Inv(w, ls) && a in ls && freed == ls[a] && u < |w.caches|
    ensures (ls - {a}).Keys == Freed(w, a, freed).arenas.Keys && CacheOk(Freed(w, a, freed), ls - {a}, u)
  {
    hide Inv, PcOk, PrivatesOk, ListOk, SpaceOk;
    InvThread(w, ls, u);
    var w', cache := Freed(w, a, freed), w.caches[u];
    forall b | b in w'.arenas && w'.arenas[b].lifecycle == cache.lastLifecycle
      ensures cache.lastSerial.Some? && Owns(w', ls[b], cache.lastSerial.value, u)
    {
      DestroyList(w, ls, a, freed, b);
    }
  }

  lemma KeepDestroy(w: World, ls: Lists, a: ArenaId, freed: seq<Addr>)
    requires Inv(w, ls) && Quiet(w, a) && Linked(w.mem, w.arenas[a].threads, freed)
    ensures a in ls && freed == ls[a]
    ensures Inv(Freed(w, a, freed), ls - {a})
  {
    hide Inv, PcOk, CacheOk, SpaceOk, Linked, DistinctOwners, NoneOwned, PrivatesOk;
    InvArena(w, ls, a);
    InvCore(w, ls);
    var w', ls' := Freed(w, a, freed), ls - {a};
    LinkedUnique(w.mem, w.arenas[a].threads, freed, ls[a]);
    forall b | b in ls'
      ensures b in w'.arenas && Within(w'.mem, ls'[b]) && ListOk(w', ls'[b], b) && SpaceOk(w', ls'[b], b) {
      DestroyList(w, ls, a, freed, b);
    }
    forall u | 0 <= u < |w'.pcs| ensures PcOk(w', ls', u) && CacheOk(w', ls', u) {
      DestroyPc(w, ls, a, freed, u);
      DestroyCache(w, ls, a, freed, u);
    }
    DestroyPrivates(w, ls, a, freed);
    MakeInv(w', ls');
  }

  lemma DestroyPrivates(w: World, ls: Lists, a: ArenaId, freed: seq<Addr>)
    requires PrivatesOk(w, ls) && a in ls && freed == ls[a]
    ensures PrivatesOk(Freed(w, a, freed), ls - {a})
  {
    hide Private;
  }

  function FirstList(initial: Option<InitialBlock>): seq<Addr> {
    if initial.None? then [] else [initial.value.addr]
  }

  lemma KeepInit(w: World, ls: Lists, t: Thread, a: ArenaId, initial: Option<InitialBlock>)
    requires Inv(w, ls) && t < |w.pcs| && a !in w.arenas
    requires initial.Some? ==> initial.value.addr !in w.mem
    ensures Inv(Init(w, t, a, initial), ls[a := FirstList(initial)])
  {
    hide Inv, ListOk, SpaceOk, PcOk, CacheOk, PrivatesOk, Core, Apart, DistinctLifecycles;
    InvCore(w, ls);
    var w', ls' := Init(w, t, a, initial), ls[a := FirstList(initial)];
    forall u | 0 <= u < |w.pcs| ensures PcOk(w, ls, u) {
      InvThread(w, ls, u);
    }
    InitPcs(w, w', ls, ls', a);
    InitLists(w, w', ls, ls', t, a, initial);
    InitCaches(w, w', ls, ls', t, a, initial);
    InitPrivates(w, w', ls, ls', a, initial);
    MakeInv(w', ls');
  }

  lemma InitList(w: World, t: Thread, a: ArenaId, initial: Option<InitialBlock>)
    requires t < |w.pcs| == |w.caches| && 0 <= w.nextLifecycle
    requires forall u :: 0 <= u < |w.pcs| ==> !InArena(w.pcs[u], a)
    ensures ListOk(Init(w, t, a, initial), FirstList(initial), a)
    ensures SpaceOk(Init(w, t, a, initial), FirstList(initial), a)
  {
    SumOwedQuiet(w.pcs, a);
    if initial.Some? {
      assert [initial.value.addr][1..] == [];
    }
  }

  lemma InitOther(w: World, ls: Lists, t: Thread, a: ArenaId, initial: Option<InitialBlock>, b: ArenaId)
    requires Inv(w, ls) && t < |w.pcs| && a !in w.arenas && b in ls
    requires initial.Some? ==> initial.value.addr !in w.mem
    ensures
      var w' := Init(w, t, a, initial);
      b in w'.arenas && Within(w'.mem, ls[b]) && ListOk(w', ls[b], b) && SpaceOk(w', ls[b], b)
  {
    hide Inv, SumOwed, ListBytes, PrivatesOk, PcOk, CacheOk;
    InvArena(w, ls, b);
    InvCore(w, ls);
    ListBytesFrame(w.mem, Init(w, t, a, initial).mem, ls[b]);
  }

  lemma InitLists(
    w: World, w': World, ls: Lists, ls': Lists, t: Thread, a: ArenaId, initial: Option<InitialBlock>)
    requires Inv(w, ls) && t < |w.pcs| && a !in w.arenas
    requires initial.Some? ==> initial.value.addr !in w.mem
    requires forall u :: 0 <= u < |w.pcs| ==> !InArena(w.pcs[u], a)
    requires w' == Init(w, t, a, initial) && ls' == ls[a := FirstList(initial)]
    ensures forall b :: b in ls' ==>
      b in w'.arenas && Within(w'.mem, ls'[b]) && ListOk(w', ls'[b], b) && SpaceOk(w', ls'[b], b)
  {
    hide Inv, SpaceOk, Linked, DistinctOwners, InArena;
    InvCore(w, ls);
    InitList(w, t, a, initial);
    forall b | b in ls
      ensures b in w'.arenas && Within(w'.mem, ls[b]) && ListOk(w', ls[b], b) && SpaceOk(w', ls[b], b) {
      InitOther(w, ls, t, a, initial, b);
    }
  }

  lemma InitPcs(w: World, w': World, ls: Lists, ls': Lists, a: ArenaId)
    requires Core(w, ls) && w'.pcs == w.pcs && forall u :: 0 <= u < |w.pcs| ==> PcOk(w, ls, u)
    requires a !in w.arenas && w'.arenas.Keys == w.arenas.Keys + {a} && ls'.Keys == w'.arenas.Keys
    requires forall p :: p in w.mem ==> p in w'.mem && w'.mem[p] == w.mem[p]
    requires forall b :: b in ls ==> ls'[b] == ls[b]
    ensures forall u :: 0 <= u < |w.pcs| ==> PcOk(w', ls', u) && !InArena(w.pcs[u], a)
  {
    forall u | 0 <= u < |w.pcs| ensures PcOk(w', ls', u) && !InArena(w.pcs[u], a) {
      assert PcOk(w, ls, u);
      if w.pcs[u].Walk? {
        assert ListOk(w, ls[w.pcs[u].arena], w.pcs[u].arena);
        WalkFrame(w.mem, w'.mem, ls[w.pcs[u].arena], w.pcs[u].cur, u);
      }
    }
  }

  lemma InitCaches(w: World, w': World, ls: Lists, ls': Lists, t: Thread, a: ArenaId, initial: Option<InitialBlock>)
    requires Core(w, ls) && t < |w.caches| && a !in w.arenas
    requires initial.Some? ==> initial.value.addr !in w.mem
    requires w' == Init(w, t, a, initial) && ls' == ls[a := FirstList(initial)]
    ensures DistinctLifecycles(w')
    ensures forall u :: 0 <= u < |w'.caches| ==> CacheOk(w', ls', u)
  {
    InitLifecycles(w, ls, t, a, initial);
    hide Core, Init, DistinctLifecycles;
    forall u | 0 <= u < |w'.caches| ensures CacheOk(w', ls', u) {
      InitCache(w, ls, t, a, initial, u);
    }
  }

  lemma InitLifecycles(w: World, ls: Lists, t: Thread, a: ArenaId, initial: Option<InitialBlock>)
    requires Core(w, ls) && t < |w.caches| && a !in w.arenas
    ensures DistinctLifecycles(Init(w, t, a, initial)) && |Init(w, t, a, initial).caches| == |w.caches|
    ensures Init(w, t, a, initial).arenas.Keys == ls[a := FirstList(initial)].Keys
  {
    hide Linked, DistinctOwners, Apart, CacheOk;
    assert forall b :: b in ls ==> ListOk(w, ls[b], b);
  }

  lemma InitCache(w: World, ls: Lists, t: Thread, a: ArenaId, initial: Option<InitialBlock>, u: Thread)
    requires Core(w, ls) && t < |w.caches| && a !in w.arenas && u < |w.caches|
    requires initial.Some? ==> initial.value.addr !in w.mem
    ensures
      var w', ls' := Init(w, t, a, initial), ls[a := FirstList(initial)];
      u < |w'.caches| && ls'.Keys == w'.arenas.Keys && CacheOk(w', ls', u)
  {
    hide Linked, DistinctOwners, Apart, DistinctLifecycles;
    assert CacheOk(w, ls, u);
    assert forall b :: b in ls ==> ListOk(w, ls[b], b);
  }

  lemma InitPrivates(w: World, w': World, ls: Lists, ls': Lists, a: ArenaId, initial: Option<InitialBlock>)
    requires PrivatesOk(w, ls) && Core(w, ls) && a !in ls && w'.pcs == w.pcs
    requires initial.Some? ==> initial.value.addr !in w.mem
    requires ls' == ls[a := FirstList(initial)] && forall p :: p in w.mem ==> p in w'.mem
    ensures PrivatesOk(w', ls') && Apart(ls')
  {
    forall b, s | b in ls && s in ls[b] ensures s in w.mem {
      assert ListOk(w, ls[b], b);
    }
  }

  function NextLists(w: World, ls: Lists, step: Step): Lists
    requires step.t < |w.pcs| && ls.Keys == w.arenas.Keys
    requires step.Advance? && w.pcs[step.t].Cas? ==> w.pcs[step.t].arena in w.arenas
  {
    var pc := w.pcs[step.t];
    match step
    case Advance(t) =>
      if pc.Cas? && w.arenas[pc.arena].threads == pc.head then ls[pc.arena := [pc.s] + ls[pc.arena]] else ls
    case Create(t, a, initial) => ls[a := FirstList(initial)]
    case Reset(t, a, freed) => if a in ls then (ls - {a})[a := FirstList(w.arenas[a].initial)] else ls
    case Destroy(t, a, freed) => ls - {a}
    case _ => ls
  }

  lemma KeepReset(w: World, ls: Lists, t: Thread, a: ArenaId, freed: seq<Addr>)
    requires Inv(w, ls) && Enabled(w, Reset(t, a, freed))
    ensures Inv(Init(Freed(w, a, freed), t, a, w.arenas[a].initial), (ls - {a})[a := FirstList(w.arenas[a].initial)])
  {
    hide Inv, Linked;
    InvArena(w, ls, a);
    InvCore(w, ls);
    KeepDestroy(w, ls, a, freed);
    KeepInit(Freed(w, a, freed), ls - {a}, t, a, w.arenas[a].initial);
  }

  lemma LocalStep(w: World, ls: Lists, step: Step)
    requires Enabled(w, step) && PcOk(w, ls, step.t) && ls.Keys == w.arenas.Keys && CacheOk(w, ls, step.t)
    requires step.Begin? || step.CasFail? || step.Finish?
    ensures
      var w' := Apply(w, step);
      && step.t < |w'.pcs| && w' == Goto(w, step.t, w'.pcs[step.t]) && PcOk(w', ls, step.t)
      && Private(w'.pcs[step.t]) == Private(w.pcs[step.t])
      && forall a :: Owed(w'.pcs[step.t], a) == Owed(w.pcs[step.t], a)
  {
    hide WalkOk;
  }

  lemma KeepLocal(w: World, ls: Lists, step: Step)
    requires Inv(w, ls) && Enabled(w, step)
    requires step.Begin? || step.CasFail? || step.Finish?
    ensures Inv(Apply(w, step), ls)
  {
    hide Inv, PcOk, CacheOk, PrivatesOk, Apply, Owed, Private;
    InvThread(w, ls, step.t);
    LocalStep(w, ls, step);
    KeepGoto(w, ls, step.t, Apply(w, step).pcs[step.t]);
  }

  lemma AllocStep(w: World, ls: Lists, step: Step)
    requires Inv(w, ls) && Enabled(w, step) && step.AllocBlock?
    ensures step.t < |w.pcs| && Private(w.pcs[step.t]) == None
    ensures
      var pc := CountBlock(w.pcs[step.t].arena, step.s, step.bytes);
      && Apply(w, step) == Goto(w.(mem := w.mem[step.s := step.junk]), step.t, pc)
      && PcOk(Apply(w, step), ls, step.t) && forall a :: Owed(pc, a) == Owed(w.pcs[step.t], a)
  {
    hide Inv, CacheOk, PrivatesOk, NoneOwned, ListOk, SpaceOk, WalkOk;
    var a := w.pcs[step.t].arena;
    InvThread(w, ls, step.t);
    InvArena(w, ls, a);
    NoneOwnedFrame(w.mem, w.mem[step.s := step.junk], ls[a], step.t);
  }

  lemma KeepNewBlock(w: World, ls: Lists, step: Step)
    requires Inv(w, ls) && Enabled(w, step)
    requires step.AllocBlock? || step.Grow?
    ensures Inv(Apply(w, step), ls)
  {
    var pc := w.pcs[step.t];
    if step.AllocBlock? {
      KeepAlloc(w, ls, step);
    } else {
      KeepGrow(w, ls, step);
    }
  }

  lemma KeepAlloc(w: World, ls: Lists, step: Step)
    requires Inv(w, ls) && Enabled(w, step) && step.AllocBlock?
    ensures Inv(Apply(w, step), ls)
  {
    hide Inv, PcOk, Owed, Apply;
    AllocStep(w, ls, step);
    KeepPrivateWrite(w, ls, step.t, step.s, step.junk, CountBlock(w.pcs[step.t].arena, step.s, step.bytes));
  }

  lemma KeepGrow(w: World, ls: Lists, step: Step)
    requires Inv(w, ls) && Enabled(w, step) && step.Grow?
    ensures Inv(Apply(w, step), ls)
  {
    hide Inv, CacheOk, PrivatesOk, NoneOwned, WalkOk;
    var pc := w.pcs[step.t];
    InvThread(w, ls, step.t);
    KeepAddSpace(w, ls, step.t, step.bytes, LinkBlock(pc.arena, pc.s, step.bytes));
  }

  /** Every step of every thread keeps the invariant. */
  lemma StepKeepsInv(w: World, ls: Lists, step: Step)
    requires Inv(w, ls) && Enabled(w, step)
    ensures Inv(Apply(w, step), NextLists(w, ls, step))
  {
    match step
    case Begin(_, _) => KeepLocal(w, ls, step);
    case CasFail(_) => KeepLocal(w, ls, step);
    case Finish(_) => KeepLocal(w, ls, step);
    case Advance(t) => KeepAdvance(w, ls, t);
    case AllocBlock(_, _, _, _) => KeepNewBlock(w, ls, step);
    case Grow(_, _) => KeepNewBlock(w, ls, step);
    case Create(t, a, initial) => KeepInit(w, ls, t, a, initial);
    case Reset(t, a, freed) => KeepReset(w, ls, t, a, freed);
    case Destroy(_, a, freed) => KeepDestroy(w, ls, a, freed);
  }
}
