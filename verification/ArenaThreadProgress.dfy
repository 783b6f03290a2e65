/** What a thread can rely on: a call ends when the others pause, and the next one is short. */
module ArenaThreadProgress {
  import opened Options
  import opened ArenaThreads
  import opened ArenaThreadSafety
  import opened ArenaThreadRuns

  // ----- a thread that runs alone gets its SerialArena

  /** How many SerialArenas of the list a walk that has reached `cur` has still before it. */
  function Rest(l: seq<Addr>, cur: Option<Addr>): (r: nat)
    ensures r <= |l|
  {
    if cur.None? || l == [] then 0 else if l[0] == cur.value then |l| else Rest(l[1..], cur)
  }

  /** At most how many steps of its own the thread has to make. */
  function Rank(pc: Pc, threads: Option<Addr>, l: seq<Addr>): nat {
    match pc
    case FastHint(_) => |l| + 15
    case FastOwner(_, _) => |l| + 14
    case StartWalk(_) => |l| + 13
    case Walk(_, cur) => Rest(l, cur) + 12
    case NeedBlock(_) => 11
    case CountBlock(_, _, _) => 10
    case NewSerial(_, _, _) => 9
    case LoadHead(_, _, _) => 8
    case SetNext(_, _, _, head) => if head == threads then 5 else 7
    case Cas(_, _, _, head) => if head == threads then 4 else 6
    case WriteCache(_, _) => 3
    case WriteHint(_, _) => 2
    case LinkBlock(_, _, _) => 1
    case _ => 0
  }

  lemma {:induction false} RestAt(mem: map<Addr, SerialArena>, l: seq<Addr>, k: nat)
    requires Within(mem, l) && DistinctOwners(mem, l) && k <= |l|
    ensures Rest(l, HeadOf(l[k..])) == |l| - k
  {
    if k < |l| && k > 0 {
      assert mem[l[0]].owner != mem[l[k]].owner;
      assert Within(mem, l[1..]) && DistinctOwners(mem, l[1..]);
      RestAt(mem, l[1..], k - 1);
      assert l[1..][k - 1..] == l[k..];
    }
  }

  lemma WalkShortens(w: World, l: seq<Addr>, cur: Option<Addr>, t: Thread, p: Option<Addr>)
    requires Linked(w.mem, p, l) && DistinctOwners(w.mem, l) && WalkOk(w.mem, l, cur, t) && cur.Some?
    ensures cur.value in w.mem && Rest(l, w.mem[cur.value].next) < Rest(l, cur)
  {
    var k :| 0 <= k <= |l| && cur == HeadOf(l[k..]) && NoneOwned(w.mem, l[..k], t);
    RestAt(w.mem, l, k);
    RestAt(w.mem, l, k + 1);
  }

  /** A thread inside a call on a live arena. */
  predicate Calling(pc: Pc) { !pc.Idle? && !pc.Crashed? && !pc.Ready? }

  /** The step that the thread makes when no compare-and-swap fails for no reason. */
  predicate Onward(pc: Pc, step: Step) { if pc.NeedBlock? then step.AllocBlock? else step.Advance? }

  /** The step is possible, and brings the thread nearer to its SerialArena. */
  ghost predicate Nearer(w: World, ls: Lists, step: Step)
    requires step.t < |w.pcs| && Calling(w.pcs[step.t]) && ls.Keys == w.arenas.Keys && w.pcs[step.t].arena in ls
  {
    && Enabled(w, step)
    && var a, w', ls' := w.pcs[step.t].arena, Apply(w, step), NextLists(w, ls, step);
      && step.t < |w'.pcs| && a in w'.arenas && a in ls' && !w'.pcs[step.t].Crashed?
      && (Calling(w'.pcs[step.t]) || w'.pcs[step.t].Ready?) && w'.pcs[step.t].arena == a
      && Rank(w'.pcs[step.t], w'.arenas[a].threads, ls'[a]) < Rank(w.pcs[step.t], w.arenas[a].threads, ls[a])
  }

  lemma SoloSearch(w: World, ls: Lists, t: Thread)
    requires Inv(w, ls) && t < |w.pcs| && ls.Keys == w.arenas.Keys
    requires w.pcs[t].FastHint? || w.pcs[t].FastOwner? || w.pcs[t].StartWalk? || w.pcs[t].Walk?
    requires w.pcs[t].arena in w.arenas && w.pcs[t].arena in ls
    ensures Nearer(w, ls, Advance(t))
  {
    hide Inv, CacheOk, PrivatesOk, NoneOwned, SpaceOk, WalkOk, Within, Linked, Rest, Owns, DistinctOwners;
    var pc := w.pcs[t];
    InvThread(w, ls, t);
    InvArena(w, ls, pc.arena);
    InvPrivate(w, ls, t);
    if pc.Walk? && pc.cur.Some? {
      WalkShortens(w, ls[pc.arena], pc.cur, t, w.arenas[pc.arena].threads);
    }
  }

  lemma SoloPublish(w: World, ls: Lists, t: Thread)
    requires Inv(w, ls) && t < |w.pcs| && ls.Keys == w.arenas.Keys
    requires Private(w.pcs[t]).Some? && w.pcs[t].arena in w.arenas && w.pcs[t].arena in ls
    ensures Nearer(w, ls, Advance(t))
  {
    hide Inv, ListOk, SpaceOk, Rest, PcOk, CacheOk, PrivatesOk;
    InvThread(w, ls, t);
    InvPrivate(w, ls, t);
  }

  lemma SoloRest(w: World, ls: Lists, step: Step)
    requires Inv(w, ls) && step.t < |w.pcs| && ls.Keys == w.arenas.Keys
    requires
      var pc := w.pcs[step.t];
      if pc.NeedBlock? then step.AllocBlock? && step.s !in w.mem
      else (pc.WriteCache? || pc.WriteHint? || pc.LinkBlock?) && step.Advance?
    requires w.pcs[step.t].arena in w.arenas && w.pcs[step.t].arena in ls
    ensures Nearer(w, ls, step)
  {
    hide Inv, ListOk, SpaceOk, Rest, PcOk, CacheOk, PrivatesOk;
    InvThread(w, ls, step.t);
    InvPrivate(w, ls, step.t);
  }

  /** Every such step is possible and brings the thread nearer to its SerialArena. */
  lemma SoloStep(w: World, ls: Lists, step: Step)
    requires Inv(w, ls) && step.t < |w.pcs| && Calling(w.pcs[step.t]) && Onward(w.pcs[step.t], step)
    requires step.AllocBlock? ==> step.s !in w.mem
    ensures ls.Keys == w.arenas.Keys && w.pcs[step.t].arena in w.arenas && w.pcs[step.t].arena in ls
    ensures Nearer(w, ls, step)
  {
    hide Inv, Nearer, CacheOk, PrivatesOk, NoneOwned, SpaceOk, WalkOk, Owns;
    InvThread(w, ls, step.t);
    var pc := w.pcs[step.t];
    if Private(pc).Some? {
      SoloPublish(w, ls, step.t);
    } else if pc.FastHint? || pc.FastOwner? || pc.StartWalk? || pc.Walk? {
      SoloSearch(w, ls, step.t);
    } else {
      SoloRest(w, ls, step);
    }
  }

  lemma InvPrivate(w: World, ls: Lists, t: Thread)
    requires Inv(w, ls) && t < |w.pcs|
    ensures Private(w.pcs[t]).Some? ==> Private(w.pcs[t]).value in w.mem
    ensures w.pcs[t].LinkBlock? ==> w.pcs[t].s in w.mem
    ensures w.pcs[t].FastOwner? ==> w.pcs[t].hint in w.mem
  {
    hide CacheOk, SpaceOk, WalkOk, NoneOwned;
    assert PcOk(w, ls, t);
    if w.pcs[t].FastOwner? {
      assert ListOk(w, ls[w.pcs[t].arena], w.pcs[t].arena);
    }
  }

  /** From i to j only thread t makes steps, and no compare-and-swap fails for no reason. */
  ghost predicate Alone(ws: seq<World>, steps: seq<Step>, i: nat, j: nat, t: Thread)
    requires IsRun(ws, steps) && i <= j < |ws|
  {
    forall k :: i <= k < j ==> steps[k].t == t && t < |ws[k].pcs| && Onward(ws[k].pcs[t], steps[k])
  }

  /** The others may pause anywhere, also in the middle of adding a SerialArena: a call that goes on alone has its
      result after at most 15 steps more than the arena has SerialArenas. */
  lemma {:induction false} CallEnds(ws: seq<World>, steps: seq<Step>, i: nat, j: nat, t: Thread, ls: Lists)
    returns (k: nat)
    requires IsRun(ws, steps) && i <= j < |ws| && Alone(ws, steps, i, j, t) && Inv(ws[i], ls)
    requires t < |ws[i].pcs| && (Calling(ws[i].pcs[t]) || ws[i].pcs[t].Ready?) && ws[i].pcs[t].arena in ls
    requires j - i >= |ls[ws[i].pcs[t].arena]| + 15
    ensures i <= k <= j && k - i <= |ls[ws[i].pcs[t].arena]| + 15
    ensures t < |ws[k].pcs| && ws[k].pcs[t].Ready? && ws[k].pcs[t].arena == ws[i].pcs[t].arena
  {
    hide Inv;
    InvThread(ws[i], ls, t);
    k := EndsWithin(ws, steps, i, j, t, ls);
  }

  lemma {:induction false} EndsWithin(ws: seq<World>, steps: seq<Step>, i: nat, j: nat, t: Thread, ls: Lists)
    returns (k: nat)
    requires IsRun(ws, steps) && i <= j < |ws| && Alone(ws, steps, i, j, t) && Inv(ws[i], ls)
    requires t < |ws[i].pcs| && (Calling(ws[i].pcs[t]) || ws[i].pcs[t].Ready?)
    requires ws[i].pcs[t].arena in ls && ws[i].pcs[t].arena in ws[i].arenas
    requires
      var a := ws[i].pcs[t].arena;
      j - i >= Rank(ws[i].pcs[t], ws[i].arenas[a].threads, ls[a])
    ensures
      var a := ws[i].pcs[t].arena;
      i <= k <= j && k - i <= Rank(ws[i].pcs[t], ws[i].arenas[a].threads, ls[a])
    ensures t < |ws[k].pcs| && ws[k].pcs[t].Ready? && ws[k].pcs[t].arena == ws[i].pcs[t].arena
    decreases j - i
  {
    hide Inv, Apply, Enabled, Rank, NextLists;
    if ws[i].pcs[t].Ready? {
      k := i;
    } else {
      RankPositive(ws[i].pcs[t], ws[i].arenas[ws[i].pcs[t].arena].threads, ls[ws[i].pcs[t].arena]);
      assert Enabled(ws[i], steps[i]) && ws[i + 1] == Apply(ws[i], steps[i]);
      AllocatesNew(ws[i], steps[i]);
      InvThread(ws[i], ls, t);
      SoloStep(ws[i], ls, steps[i]);
      StepKeepsInv(ws[i], ls, steps[i]);
      k := EndsWithin(ws, steps, i + 1, j, t, NextLists(ws[i], ls, steps[i]));
    }
  }

  lemma AllocatesNew(w: World, step: Step)
    requires Enabled(w, step)
    ensures step.AllocBlock? ==> step.s !in w.mem
  {
  }

  lemma RankPositive(pc: Pc, threads: Option<Addr>, l: seq<Addr>)
    requires Calling(pc)
    ensures Rank(pc, threads, l) > 0 && Rank(pc, threads, l) <= |l| + 15
  {
  }

  // ----- the next call of the thread is answered from its cache

  /** The thread has found its SerialArena in arena a, which has the id `id`, and has made no other call since. */
  ghost predicate Remembers(w: World, t: Thread, a: ArenaId, id: int, s: Addr) {
    && t < |w.pcs| == |w.caches| && w.caches[t] == ThreadCache(id, Some(s))
    && (w.pcs[t].Idle? || ((w.pcs[t].WriteHint? || w.pcs[t].Ready? || w.pcs[t].LinkBlock?)
                           && w.pcs[t].arena == a && w.pcs[t].s == s))
  }

  /** Thread t creates and resets no arena, and begins no call on another one than a. */
  predicate StaysWith(step: Step, t: Thread, a: ArenaId) {
    step.t == t ==> !step.Create? && !step.Reset? && (step.Begin? ==> step.a == a)
  }

  lemma RemembersOn(w: World, step: Step, t: Thread, a: ArenaId, id: int, s: Addr)
    requires Enabled(w, step) && Remembers(w, t, a, id, s) && StaysWith(step, t, a)
    requires a in w.arenas && w.arenas[a].lifecycle == id
    requires t < |Apply(w, step).pcs| && !Apply(w, step).pcs[t].Crashed?
    ensures Remembers(Apply(w, step), t, a, id, s)
    ensures step == Begin(t, a) ==> Apply(w, step).pcs[t] == Ready(a, s)
  {
    hide Apply, Enabled;
    if step.t == t {
      OwnStepRemembers(w, step, a, id, s);
    } else {
      LeftAlone(w, step, t);
    }
  }

  /** A step of another thread. */
  lemma LeftAlone(w: World, step: Step, t: Thread)
    requires Enabled(w, step) && step.t != t && t < |w.pcs|
    ensures
      var w' := Apply(w, step);
      |w'.pcs| == |w'.caches| == |w.pcs| && w'.pcs[t] == w.pcs[t] && w'.caches[t] == w.caches[t]
  {
    hide Linked, Quiet;
  }

  lemma OwnStepRemembers(w: World, step: Step, a: ArenaId, id: int, s: Addr)
    requires Enabled(w, step) && Remembers(w, step.t, a, id, s) && StaysWith(step, step.t, a)
    requires a in w.arenas && w.arenas[a].lifecycle == id
    requires step.t < |Apply(w, step).pcs| && !Apply(w, step).pcs[step.t].Crashed?
    ensures Remembers(Apply(w, step), step.t, a, id, s)
    ensures step.Begin? ==> Apply(w, step).pcs[step.t] == Ready(a, s)
  {
    hide Linked, Quiet;
  }

  /** The end of the slow way writes the thread cache and the hint. */
  lemma SlowWayRemembers(w: World, t: Thread)
    requires Enabled(w, Advance(t)) && w.pcs[t].WriteCache?
    ensures
      var a, s, w1 := w.pcs[t].arena, w.pcs[t].s, Apply(w, Advance(t));
      && Remembers(w1, t, a, w.arenas[a].lifecycle, s) && Enabled(w1, Advance(t))
      && a in Apply(w1, Advance(t)).arenas && Apply(w1, Advance(t)).arenas[a].hint == Some(s)
      && Apply(w1, Advance(t)).pcs[t] == Ready(a, s)
  {
  }

  /** The thread that creates or resets an arena with an initial block has its SerialArena there, in cache and hint. */
  lemma InitRemembers(w: World, step: Step)
    requires Enabled(w, step) && (step.Create? || step.Reset?)
    ensures
      var w' := Apply(w, step);
      && step.a in w'.arenas && w'.arenas[step.a].lifecycle == w.nextLifecycle == w'.nextLifecycle - 1
      && var arena := w'.arenas[step.a];
        if arena.initial.None? then arena.threads == None && arena.hint == None && w'.caches == w.caches
        else
          var s := arena.initial.value.addr;
          && arena.threads == arena.hint == Some(s) && s in w'.mem && w'.mem[s].owner == step.t
          && step.t < |w.caches| && w'.caches == w.caches[step.t := ThreadCache(arena.lifecycle, Some(s))]
  {
    hide Linked, Quiet;
  }

  /** Once a thread has found its SerialArena the slow way, its next call on that arena has it at once, whatever the
      other threads did in between, if the thread has used no other arena and the arena was not reset. */
  lemma {:induction false} NextCallIsFast(
    ws: seq<World>, steps: seq<Step>, i: nat, j: nat, t: Thread, a: ArenaId, s: Addr)
    requires IsRun(ws, steps) && i < j < |ws| && t < |ws[i].pcs|
    requires ws[i].pcs[t] == WriteCache(a, s) && steps[i] == Advance(t) && a in ws[i].arenas && a in ws[j].arenas
    requires ws[i].arenas[a].lifecycle == ws[j].arenas[a].lifecycle
    requires forall k :: i < k < j ==> StaysWith(steps[k], t, a)
    ensures Remembers(ws[j], t, a, ws[j].arenas[a].lifecycle, s)
    ensures j < |steps| && steps[j] == Begin(t, a) ==> t < |ws[j + 1].pcs| && ws[j + 1].pcs[t] == Ready(a, s)
    decreases j
  {
    hide Apply, Enabled, Remembers;
    assert Enabled(ws[j - 1], steps[j - 1]) && ws[j] == Apply(ws[j - 1], steps[j - 1]);
    if i == j - 1 {
      SlowWayRemembers(ws[i], t);
    } else {
      StillThere(ws, steps, i, j, a);
      NextCallIsFast(ws, steps, i, j - 1, t, a, s);
      NeverCrashes(ws, steps, j, t);
      ThreadsStay(ws[j - 1], steps[j - 1], t, a, ws[i].arenas[a].lifecycle, s);
      RemembersOn(ws[j - 1], steps[j - 1], t, a, ws[j].arenas[a].lifecycle, s);
    }
    if j < |steps| && steps[j] == Begin(t, a) {
      assert Enabled(ws[j], steps[j]) && ws[j + 1] == Apply(ws[j], steps[j]);
      NeverCrashes(ws, steps, j + 1, t);
      HasThread(ws[j], steps[j], t, a, s);
      RemembersOn(ws[j], steps[j], t, a, ws[j].arenas[a].lifecycle, s);
    }
  }

  lemma ThreadsStay(w: World, step: Step, t: Thread, a: ArenaId, id: int, s: Addr)
    requires Enabled(w, step) && Remembers(w, t, a, id, s)
    ensures t < |w.pcs| && t < |Apply(w, step).pcs|
  {
    hide Linked, Quiet;
  }

  lemma HasThread(w: World, step: Step, t: Thread, a: ArenaId, s: Addr)
    requires Enabled(w, step) && step == Begin(t, a)
    ensures t < |w.pcs| && t < |Apply(w, step).pcs|
  {
  }

  lemma NeverCrashes(ws: seq<World>, steps: seq<Step>, i: nat, t: Thread)
    requires IsRun(ws, steps) && i < |ws|
    ensures t < |ws[i].pcs| ==> !ws[i].pcs[t].Crashed?
  {
    hide Apply, Enabled;
    var ls := RunInv(ws, steps, i);
    if t < |ws[i].pcs| {
      assert PcOk(ws[i], ls, t);
    }
  }

  /** After calls on other arenas the hint still spares the thread the search, in three steps, if no other thread has
      used the arena in between. */
  lemma HintIsFast(w: World, t: Thread, a: ArenaId, s: Addr)
    requires Enabled(w, Begin(t, a)) && w.caches[t].lastLifecycle != w.arenas[a].lifecycle
    requires w.arenas[a].hint == Some(s) && s in w.mem && w.mem[s].owner == t
    ensures
      var w1 := Apply(w, Begin(t, a));
      && Enabled(w1, Advance(t)) && Enabled(Apply(w1, Advance(t)), Advance(t))
      && Apply(Apply(w1, Advance(t)), Advance(t)) == w.(pcs := w.pcs[t := Ready(a, s)])
  {
  }
}
