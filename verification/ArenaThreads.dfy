/** The thread layer of ArenaImpl: the list of per-thread SerialArenas that
    threads push onto with a weak compare-and-swap, the thread cache keyed by
    lifecycle ids, the hint, and the counter of allocated space.

    Threads interleave step by step (sequential consistency).  One step is one
    access to shared memory of the source.  Memory that a reset or a
    destruction frees may be handed out again at the same address. */
module ArenaThreads {
  import opened Options

  type Thread = nat   // index of a thread; stands for &thread_cache()
  type ArenaId = nat  // address of an ArenaImpl
  type Addr = nat     // address of a SerialArena

  // `bytes` is the total size of the blocks that the arena's head_ reaches.
  datatype SerialArena = SerialArena(owner: nat, next: Option<Addr>, bytes: nat)
  datatype InitialBlock = InitialBlock(addr: Addr, size: nat)
  datatype ArenaImpl = ArenaImpl(
    lifecycle: int, threads: Option<Addr>, hint: Option<Addr>, space: nat, initial: Option<InitialBlock>)
  datatype ThreadCache = ThreadCache(lastLifecycle: int, lastSerial: Option<Addr>)

  // Where a thread stands inside GetSerialArena and, at Ready, with its result.
  datatype Pc =
    | Idle
    | FastHint(arena: ArenaId)
    | FastOwner(arena: ArenaId, hint: Addr)
    | StartWalk(arena: ArenaId)
    | Walk(arena: ArenaId, cur: Option<Addr>)
    | NeedBlock(arena: ArenaId)
    | CountBlock(arena: ArenaId, s: Addr, bytes: nat)
    | NewSerial(arena: ArenaId, s: Addr, bytes: nat)
    | LoadHead(arena: ArenaId, s: Addr, bytes: nat)
    | SetNext(arena: ArenaId, s: Addr, bytes: nat, head: Option<Addr>)
    | Cas(arena: ArenaId, s: Addr, bytes: nat, head: Option<Addr>)
    | WriteCache(arena: ArenaId, s: Addr)
    | WriteHint(arena: ArenaId, s: Addr)
    | Ready(arena: ArenaId, s: Addr)
    | LinkBlock(arena: ArenaId, s: Addr, bytes: nat)
    | Crashed  // followed a null pointer or a pointer to freed memory

  datatype World = World(
    nextLifecycle: int,
    mem: map<Addr, SerialArena>,
    arenas: map<ArenaId, ArenaImpl>,
    caches: seq<ThreadCache>,
    pcs: seq<Pc>)

  datatype Step =
    | Begin(t: Thread, a: ArenaId)
    | Advance(t: Thread)
    | AllocBlock(t: Thread, s: Addr, bytes: nat, junk: SerialArena)
    | CasFail(t: Thread)
    | Grow(t: Thread, bytes: nat)
    | Finish(t: Thread)
    | Create(t: Thread, a: ArenaId, initial: Option<InitialBlock>)
    | Reset(t: Thread, a: ArenaId, freed: seq<Addr>)
    | Destroy(t: Thread, a: ArenaId, freed: seq<Addr>)

  // ----- linked lists in memory

  function HeadOf(l: seq<Addr>): Option<Addr> {
    if l == [] then None else Some(l[0])
  }

  /** The next pointers lead from p exactly through l and then to null. */
  ghost predicate Linked(mem: map<Addr, SerialArena>, p: Option<Addr>, l: seq<Addr>) {
    && p == HeadOf(l)
    && forall i :: 0 <= i < |l| ==> l[i] in mem && mem[l[i]].next == HeadOf(l[i + 1..])
  }

  /** The list that a pointer leads through is unique, so it is finite and acyclic. */
  lemma {:induction false} LinkedUnique(mem: map<Addr, SerialArena>, p: Option<Addr>, l: seq<Addr>, m: seq<Addr>)
    requires Linked(mem, p, l) && Linked(mem, p, m)
    ensures l == m
    decreases |l|
  {
    if l != [] {
      assert l[0] == m[0] && mem[l[0]].next == HeadOf(l[1..]) == HeadOf(m[1..]);
      LinkedTail(mem, p, l);
      LinkedTail(mem, p, m);
      LinkedUnique(mem, HeadOf(l[1..]), l[1..], m[1..]);
      assert l == [l[0]] + l[1..] && m == [m[0]] + m[1..];
    }
  }

  lemma LinkedTail(mem: map<Addr, SerialArena>, p: Option<Addr>, l: seq<Addr>)
    requires Linked(mem, p, l) && l != []
    ensures Linked(mem, HeadOf(l[1..]), l[1..])
  {
    forall i | 0 <= i < |l[1..]|
      ensures l[1..][i] in mem && mem[l[1..][i]].next == HeadOf(l[1..][i + 1..])
    {
      assert l[1..][i] == l[i + 1] && l[1..][i + 1..] == l[i + 1 + 1..];
    }
  }

  function ListBytes(mem: map<Addr, SerialArena>, l: seq<Addr>): nat
    requires forall i :: 0 <= i < |l| ==> l[i] in mem
  {
    if l == [] then 0 else mem[l[0]].bytes + ListBytes(mem, l[1..])
  }

  /** What the loop over threads_ in GetSerialArenaFallback finds. */
  function Search(mem: map<Addr, SerialArena>, l: seq<Addr>, me: Thread): Option<Addr>
    requires forall i :: 0 <= i < |l| ==> l[i] in mem
  {
    if l == [] then None
    else if mem[l[0]].owner == me then Some(l[0])
    else Search(mem, l[1..], me)
  }

  // ----- steps

  predicate InArena(pc: Pc, a: ArenaId) {
    !pc.Idle? && !pc.Crashed? && pc.arena == a
  }

  ghost predicate Enabled(w: World, step: Step) {
    && step.t < |w.pcs| == |w.caches|
    && var pc := w.pcs[step.t];
      match step
      case Begin(t, a) => pc.Idle? && a in w.arenas
      case Advance(t) => !pc.Idle? && !pc.NeedBlock? && !pc.Ready? && !pc.Crashed? && pc.arena in w.arenas
      case AllocBlock(t, s, bytes, junk) => pc.NeedBlock? && s !in w.mem
      case CasFail(t) => pc.Cas? && pc.arena in w.arenas
      case Grow(t, bytes) => pc.Ready? && pc.arena in w.arenas
      case Finish(t) => pc.Ready?
      case Create(t, a, initial) =>
        pc.Idle? && a !in w.arenas && (initial.Some? ==> initial.value.addr !in w.mem)
      case Reset(t, a, freed) => Quiet(w, a) && Linked(w.mem, w.arenas[a].threads, freed)
      case Destroy(t, a, freed) => Quiet(w, a) && Linked(w.mem, w.arenas[a].threads, freed)
  }

  /** No thread is inside a call on arena a. */
  ghost predicate Quiet(w: World, a: ArenaId) {
    a in w.arenas && forall u :: 0 <= u < |w.pcs| ==> !InArena(w.pcs[u], a)
  }

  function Goto(w: World, t: Thread, pc: Pc): World
    requires t < |w.pcs|
  {
    w.(pcs := w.pcs[t := pc])
  }

  /** ArenaImpl::Init by thread t, with every earlier block of the arena gone. */
  function Init(w: World, t: Thread, a: ArenaId, initial: Option<InitialBlock>): World
    requires t < |w.caches|
  {
    var id := w.nextLifecycle;
    match initial
    case None =>
      w.(nextLifecycle := id + 1, arenas := w.arenas[a := ArenaImpl(id, None, None, 0, None)])
    case Some(b) =>
      w.(nextLifecycle := id + 1,
      mem := w.mem[b.addr := SerialArena(t, None, b.size)],
      arenas := w.arenas[a := ArenaImpl(id, Some(b.addr), Some(b.addr), b.size, initial)],
      caches := w.caches[t := ThreadCache(id, Some(b.addr))])
  }

  /** CleanupList and FreeBlocks: the SerialArenas of the list are gone, and so is their arena. */
  function Freed(w: World, a: ArenaId, freed: seq<Addr>): World {
    w.(mem := w.mem - (set s | s in freed), arenas := w.arenas - {a})
  }

  function Apply(w: World, step: Step): World
    requires Enabled(w, step)
  {
    var pc := w.pcs[step.t];
    match step
    case Begin(t, a) =>
      Goto(w, t, if w.caches[t].lastLifecycle != w.arenas[a].lifecycle then FastHint(a)
                 else if w.caches[t].lastSerial.None? then Crashed
                 else Ready(a, w.caches[t].lastSerial.value))
    case Advance(t) => ApplyAdvance(w, t)
    case AllocBlock(t, s, bytes, junk) =>
      Goto(w.(mem := w.mem[s := junk]), t, CountBlock(pc.arena, s, bytes))
    case CasFail(t) =>
      Goto(w, t, SetNext(pc.arena, pc.s, pc.bytes, w.arenas[pc.arena].threads))
    case Grow(t, bytes) =>
      Goto(AddSpace(w, pc.arena, bytes), t, LinkBlock(pc.arena, pc.s, bytes))
    case Finish(t) => Goto(w, t, Idle)
    case Create(t, a, initial) => Init(w, t, a, initial)
    case Reset(t, a, freed) => Init(Freed(w, a, freed), t, a, w.arenas[a].initial)
    case Destroy(t, a, freed) => Freed(w, a, freed)
  }

  /** space_allocated_.fetch_add in NewBlock. */
  function AddSpace(w: World, a: ArenaId, bytes: nat): World
    requires a in w.arenas
  {
    w.(arenas := w.arenas[a := w.arenas[a].(space := w.arenas[a].space + bytes)])
  }

  /** The steps that have only one outcome. */
  function ApplyAdvance(w: World, t: Thread): World
    requires Enabled(w, Advance(t))
  {
    var pc := w.pcs[t];
    var a := pc.arena;
    var arena := w.arenas[a];
    match pc
    case FastHint(_) =>
      Goto(w, t, if arena.hint.Some? then FastOwner(a, arena.hint.value) else StartWalk(a))
    case FastOwner(_, h) =>
      Goto(w, t, if h !in w.mem then Crashed else if w.mem[h].owner == t then Ready(a, h) else StartWalk(a))
    case StartWalk(_) => Goto(w, t, Walk(a, arena.threads))
    case Walk(_, cur) =>
      Goto(w, t, if cur.None? then NeedBlock(a)
                 else if cur.value !in w.mem then Crashed
                 else if w.mem[cur.value].owner == t then WriteCache(a, cur.value)
                 else Walk(a, w.mem[cur.value].next))
    case CountBlock(_, s, bytes) => Goto(AddSpace(w, a, bytes), t, NewSerial(a, s, bytes))
    case LoadHead(_, s, bytes) => Goto(w, t, SetNext(a, s, bytes, arena.threads))
    case Cas(_, s, bytes, head) =>
      if arena.threads == head then
        Goto(w.(arenas := w.arenas[a := arena.(threads := Some(s))]), t, WriteCache(a, s))
      else
        Goto(w, t, SetNext(a, s, bytes, arena.threads))
    case WriteCache(_, s) =>
      Goto(w.(caches := w.caches[t := ThreadCache(arena.lifecycle, Some(s))]), t, WriteHint(a, s))
    case WriteHint(_, s) =>
      Goto(w.(arenas := w.arenas[a := arena.(hint := Some(s))]), t, Ready(a, s))
    case NewSerial(_, s, bytes) =>
      if s !in w.mem then Goto(w, t, Crashed) else
      Goto(w.(mem := w.mem[s := w.mem[s].(owner := t, bytes := bytes)]), t, LoadHead(a, s, bytes))
    case SetNext(_, s, bytes, head) =>
      if s !in w.mem then Goto(w, t, Crashed) else
      Goto(w.(mem := w.mem[s := w.mem[s].(next := head)]), t, Cas(a, s, bytes, head))
    case LinkBlock(_, s, bytes) =>
      if s !in w.mem then Goto(w, t, Crashed) else
      Goto(w.(mem := w.mem[s := w.mem[s].(bytes := w.mem[s].bytes + bytes)]), t, Ready(a, s))
    case _ => w
  }
}
