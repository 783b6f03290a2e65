/** The guarantees of the thread layer, stated over whole runs. */
module ArenaThreadRuns {
  import opened Options
  import opened ArenaThreads
  import opened ArenaThreadSafety

  /** No arena exists and no thread cache has ever been written. */
  ghost predicate Start(w: World) {
    && w.nextLifecycle == 0 && w.mem == map[] && w.arenas == map[] && |w.pcs| == |w.caches|
    && forall t :: 0 <= t < |w.pcs| ==> w.pcs[t] == Idle && w.caches[t] == ThreadCache(-1, None)
  }

  ghost predicate IsRun(ws: seq<World>, steps: seq<Step>) {
    && |ws| == |steps| + 1 && Start(ws[0])
    && forall i :: 0 <= i < |steps| ==> Enabled(ws[i], steps[i]) && ws[i + 1] == Apply(ws[i], steps[i])
  }

  lemma {:induction false} RunInv(ws: seq<World>, steps: seq<Step>, i: nat) returns (ls: Lists)
    requires IsRun(ws, steps) && i < |ws|
    ensures Inv(ws[i], ls)
  {
    if i == 0 {
      ls := map[];
    } else {
      var before := RunInv(ws, steps, i - 1);
      StepKeepsInv(ws[i - 1], before, steps[i - 1]);
      ls := NextLists(ws[i - 1], before, steps[i - 1]);
    }
  }

  /** At every point of every run the list of an arena is finite and acyclic,
      holds at most one SerialArena per thread, and is reached without ever
      following a null or dangling pointer. */
  lemma ListAlwaysSound(ws: seq<World>, steps: seq<Step>, i: nat, a: ArenaId) returns (l: seq<Addr>)
    requires IsRun(ws, steps) && i < |ws| && a in ws[i].arenas
    ensures Linked(ws[i].mem, ws[i].arenas[a].threads, l)
    ensures forall m :: Linked(ws[i].mem, ws[i].arenas[a].threads, m) ==> m == l
    ensures forall x, y :: 0 <= x < y < |l| ==>
        l[x] in ws[i].mem && l[y] in ws[i].mem && ws[i].mem[l[x]].owner != ws[i].mem[l[y]].owner
    ensures forall t :: 0 <= t < |ws[i].pcs| ==> !ws[i].pcs[t].Crashed?
  {
    var ls := RunInv(ws, steps, i);
    l := ls[a];
    assert ListOk(ws[i], l, a);
    forall t | 0 <= t < |ws[i].pcs| ensures !ws[i].pcs[t].Crashed? {
      assert PcOk(ws[i], ls, t);
    }
    forall m | Linked(ws[i].mem, ws[i].arenas[a].threads, m) ensures m == l {
      LinkedUnique(ws[i].mem, ws[i].arenas[a].threads, m, l);
    }
  }

  // ----- published SerialArenas are never lost

  lemma {:induction false} LifecyclesGrow(ws: seq<World>, steps: seq<Step>, i: nat, j: nat)
    requires IsRun(ws, steps) && i <= j < |ws|
    ensures ws[i].nextLifecycle <= ws[j].nextLifecycle
  {
    if i < j {
      LifecyclesGrow(ws, steps, i, j - 1);
      hide Apply, Enabled;
      assert ws[j] == Apply(ws[j - 1], steps[j - 1]);
      LifecycleStep(ws[j - 1], steps[j - 1]);
    }
  }

  lemma LifecycleStep(w: World, step: Step)
    requires Enabled(w, step)
    ensures w.nextLifecycle <= Apply(w, step).nextLifecycle
  {
    hide Linked, Quiet;
  }

  /** An arena that is new, or has been reset, has an id that no arena had before. */
  lemma NewLifecycle(w: World, step: Step, a: ArenaId)
    requires Enabled(w, step) && a in Apply(w, step).arenas
    ensures
      || (a in w.arenas && w.arenas[a].lifecycle == Apply(w, step).arenas[a].lifecycle)
      || Apply(w, step).arenas[a].lifecycle >= w.nextLifecycle
  {
    hide Linked, Quiet;
  }

  ghost predicate IsSuffix(l: seq<Addr>, m: seq<Addr>) {
    |l| <= |m| && m[|m| - |l|..] == l
  }

  lemma DestroyedListGiven(w: World, ls: Lists, step: Step, a: ArenaId)
    requires Inv(w, ls) && Enabled(w, step) && a in w.arenas && a in Apply(w, step).arenas
    requires Apply(w, step).arenas[a].lifecycle == w.arenas[a].lifecycle
    ensures step.Destroy? || step.Reset? ==> step.freed == ls[step.a] && a != step.a
  {
    assert ListOk(w, ls[a], a);
    if step.Destroy? || step.Reset? {
      KeepDestroy(w, ls, step.a, step.freed);
    }
  }

  lemma SuffixStep(w: World, ls: Lists, step: Step, a: ArenaId)
    requires Inv(w, ls) && Enabled(w, step) && a in w.arenas && a in Apply(w, step).arenas
    requires step.Destroy? || step.Reset? ==> a != step.a
    ensures a in NextLists(w, ls, step) && IsSuffix(ls[a], NextLists(w, ls, step)[a])
  {
    hide Inv, CacheOk, PrivatesOk, NoneOwned, WalkOk;
    InvCore(w, ls);
    InvThread(w, ls, step.t);
  }

  /** One step either keeps the list and its owners, or pushes in front of it. */
  lemma ListStep(w: World, ls: Lists, step: Step, a: ArenaId)
    requires Inv(w, ls) && Enabled(w, step)
    requires a in w.arenas && a in Apply(w, step).arenas
    requires Apply(w, step).arenas[a].lifecycle == w.arenas[a].lifecycle
    ensures a in NextLists(w, ls, step) && IsSuffix(ls[a], NextLists(w, ls, step)[a])
    ensures forall s :: s in ls[a] ==>
        s in w.mem && s in Apply(w, step).mem && Apply(w, step).mem[s].owner == w.mem[s].owner
  {
    hide Inv, Enabled, Apply, NextLists, IsSuffix;
    DestroyedListGiven(w, ls, step, a);
    SuffixStep(w, ls, step, a);
    InvLists(w, ls, a);
    forall s | s in ls[a]
      ensures s in w.mem && s in Apply(w, step).mem && Apply(w, step).mem[s].owner == w.mem[s].owner
    {
      OwnerStep(w, ls, step, a, s);
    }
  }

  lemma InvLists(w: World, ls: Lists, a: ArenaId)
    requires Inv(w, ls) && a in w.arenas
    ensures a in ls
  {
  }

  lemma OwnerStep(w: World, ls: Lists, step: Step, a: ArenaId, s: Addr)
    requires Inv(w, ls) && Enabled(w, step) && a in w.arenas && s in ls[a]
    requires step.Destroy? || step.Reset? ==> step.freed == ls[step.a] && a != step.a
    ensures s in w.mem && s in Apply(w, step).mem && Apply(w, step).mem[s].owner == w.mem[s].owner
  {
    hide Inv, PcOk, CacheOk, Linked, DistinctOwners, SpaceOk, Owns;
    InvArena(w, ls, a);
    InvThread(w, ls, step.t);
    InvCore(w, ls);
    if step.Destroy? || step.Reset? {
      FreedStays(w, ls, step, a, s);
    } else {
      WrittenOwner(w, ls, step, s);
    }
  }

  lemma FreedStays(w: World, ls: Lists, step: Step, a: ArenaId, s: Addr)
    requires Inv(w, ls) && Enabled(w, step) && a in w.arenas && a in ls && s in ls[a] && (step.Destroy? || step.Reset?)
    requires step.a in ls && step.freed == ls[step.a] && a != step.a && s in w.mem
    ensures s in Apply(w, step).mem && Apply(w, step).mem[s].owner == w.mem[s].owner
  {
    hide Inv, PcOk, CacheOk, Linked, DistinctOwners, SpaceOk, Quiet;
    InvCore(w, ls);
    if step.Reset? {
      InvArena(w, ls, step.a);
    }
  }

  lemma WrittenOwner(w: World, ls: Lists, step: Step, s: Addr)
    requires Enabled(w, step) && s in w.mem && Private(w.pcs[step.t]) != Some(s) && !step.Destroy? && !step.Reset?
    ensures s in Apply(w, step).mem && Apply(w, step).mem[s].owner == w.mem[s].owner
  {
  }

  lemma SuffixTrans(l: seq<Addr>, k: seq<Addr>, m: seq<Addr>)
    requires IsSuffix(l, k) && IsSuffix(k, m)
    ensures IsSuffix(l, m)
    ensures forall s :: s in l ==> s in k
  {
    forall s | s in l ensures s in k {
      var x :| 0 <= x < |l| && l[x] == s;
      assert k[|k| - |l| + x] == s;
    }
    assert m[|m| - |l|..] == m[|m| - |k|..][|k| - |l|..];
  }

  /** The lists just before and just after the step from j - 1 to j. */
  lemma LastStep(ws: seq<World>, steps: seq<Step>, j: nat, a: ArenaId, m: seq<Addr>) returns (k: seq<Addr>)
    requires IsRun(ws, steps) && 0 < j < |ws|
    requires a in ws[j - 1].arenas && a in ws[j].arenas
    requires ws[j - 1].arenas[a].lifecycle == ws[j].arenas[a].lifecycle
    requires Linked(ws[j].mem, ws[j].arenas[a].threads, m)
    ensures Linked(ws[j - 1].mem, ws[j - 1].arenas[a].threads, k) && IsSuffix(k, m)
    ensures forall s :: s in k ==>
        s in ws[j - 1].mem && s in ws[j].mem && ws[j].mem[s].owner == ws[j - 1].mem[s].owner
  {
    var w, step := ws[j - 1], steps[j - 1];
    assert ws[j] == Apply(w, step);
    var ls := RunInv(ws, steps, j - 1);
    var ls' := NextLists(w, ls, step);
    StepKeepsInv(w, ls, step);
    assert ListOk(w, ls[a], a) && ListOk(ws[j], ls'[a], a);
    hide Apply, NextLists;
    ListStep(w, ls, step, a);
    LinkedUnique(ws[j].mem, ws[j].arenas[a].threads, m, ls'[a]);
    k := ls[a];
  }

  lemma SuffixSame(l: seq<Addr>)
    ensures IsSuffix(l, l)
  {
  }

  lemma LinkedIn(mem: map<Addr, SerialArena>, p: Option<Addr>, l: seq<Addr>)
    requires Linked(mem, p, l)
    ensures forall s :: s in l ==> s in mem
  {
  }

  /** Until its arena is reset or destroyed, a published SerialArena stays on
      the list, behind the ones that were published later, with its owner. */
  lemma {:induction false} NeverLost(
    ws: seq<World>, steps: seq<Step>, i: nat, j: nat, a: ArenaId, l: seq<Addr>, m: seq<Addr>)
    requires IsRun(ws, steps) && i <= j < |ws|
    requires a in ws[i].arenas && a in ws[j].arenas
    requires ws[i].arenas[a].lifecycle == ws[j].arenas[a].lifecycle
    requires Linked(ws[i].mem, ws[i].arenas[a].threads, l)
    requires Linked(ws[j].mem, ws[j].arenas[a].threads, m)
    ensures IsSuffix(l, m)
    ensures forall s :: s in l ==> s in ws[i].mem && s in ws[j].mem && ws[j].mem[s].owner == ws[i].mem[s].owner
    decreases j
  {
    hide Linked, IsSuffix;
    if i == j {
      SuffixSame(l);
      LinkedIn(ws[i].mem, ws[i].arenas[a].threads, l);
      LinkedUnique(ws[i].mem, ws[i].arenas[a].threads, l, m);
    } else {
      StillThere(ws, steps, i, j, a);
      var k := LastStep(ws, steps, j, a, m);
      NeverLost(ws, steps, i, j - 1, a, l, k);
      SuffixTrans(l, k, m);
    }
  }

  /** An arena that has the same id at both ends was there just before the end. */
  lemma StillThere(ws: seq<World>, steps: seq<Step>, i: nat, j: nat, a: ArenaId)
    requires IsRun(ws, steps) && i < j < |ws| && a in ws[i].arenas && a in ws[j].arenas
    requires ws[i].arenas[a].lifecycle == ws[j].arenas[a].lifecycle
    ensures a in ws[j - 1].arenas && ws[j - 1].arenas[a].lifecycle == ws[j].arenas[a].lifecycle
  {
    hide Inv, Linked, DistinctOwners, SpaceOk, Apply, Enabled;
    var ls := RunInv(ws, steps, i);
    InvArena(ws[i], ls, a);
    LifecyclesGrow(ws, steps, i, j - 1);
    assert ws[j] == Apply(ws[j - 1], steps[j - 1]);
    NewLifecycle(ws[j - 1], steps[j - 1], a);
  }

  // ----- the fast paths

  lemma {:induction false} SearchFinds(mem: map<Addr, SerialArena>, l: seq<Addr>, s: Addr, t: Thread)
    requires Within(mem, l) && DistinctOwners(mem, l) && s in l && mem[s].owner == t
    ensures Search(mem, l, t) == Some(s)
  {
    if l[0] != s {
      assert s in l[1..];
      var k :| 0 <= k < |l[1..]| && l[1..][k] == s;
      assert mem[l[0]].owner != mem[l[k + 1]].owner;
      assert Within(mem, l[1..]) && DistinctOwners(mem, l[1..]);
      SearchFinds(mem, l[1..], s, t);
    }
  }

  /** Whatever way a thread got its SerialArena - thread cache, hint, search or
      creation - it is the one that the slow search of the list would find. */
  lemma ResultIsTheOneSearched(ws: seq<World>, steps: seq<Step>, i: nat, t: Thread) returns (l: seq<Addr>)
    requires IsRun(ws, steps) && i < |ws| && t < |ws[i].pcs| && ws[i].pcs[t].Ready?
    ensures ws[i].pcs[t].arena in ws[i].arenas
    ensures Linked(ws[i].mem, ws[i].arenas[ws[i].pcs[t].arena].threads, l)
    ensures Search(ws[i].mem, l, t) == Some(ws[i].pcs[t].s)
  {
    var ls := RunInv(ws, steps, i);
    assert PcOk(ws[i], ls, t);
    l := ls[ws[i].pcs[t].arena];
    assert ListOk(ws[i], l, ws[i].pcs[t].arena);
    SearchFinds(ws[i].mem, l, ws[i].pcs[t].s, t);
  }

  /** A thread cache that carries the id of a live arena is never stale: it
      holds the live SerialArena of this thread, whatever was reset, destroyed
      and allocated again at old addresses in between. */
  lemma CacheNeverStale(ws: seq<World>, steps: seq<Step>, i: nat, t: Thread, a: ArenaId) returns (l: seq<Addr>)
    requires IsRun(ws, steps) && i < |ws| && t < |ws[i].caches| && a in ws[i].arenas
    requires ws[i].caches[t].lastLifecycle == ws[i].arenas[a].lifecycle
    ensures Linked(ws[i].mem, ws[i].arenas[a].threads, l)
    ensures ws[i].caches[t].lastSerial.Some? && Search(ws[i].mem, l, t) == ws[i].caches[t].lastSerial
  {
    var ls := RunInv(ws, steps, i);
    assert CacheOk(ws[i], ls, t);
    l := ls[a];
    assert ListOk(ws[i], l, a);
    SearchFinds(ws[i].mem, l, ws[i].caches[t].lastSerial.value, t);
  }

  // ----- allocated space

  /** The thread has counted a block that no list reaches yet. */
  predicate MidAllocation(pc: Pc, a: ArenaId) {
    (pc.NewSerial? || pc.LoadHead? || pc.SetNext? || pc.Cas? || pc.LinkBlock?) && pc.arena == a
  }

  /** While no thread is in the middle of adding a block, space_allocated_ is
      exactly the size of the blocks that threads_ reaches. */
  lemma SpaceIsExact(ws: seq<World>, steps: seq<Step>, i: nat, a: ArenaId) returns (l: seq<Addr>)
    requires IsRun(ws, steps) && i < |ws| && a in ws[i].arenas
    requires forall t :: 0 <= t < |ws[i].pcs| ==> !MidAllocation(ws[i].pcs[t], a)
    ensures Linked(ws[i].mem, ws[i].arenas[a].threads, l)
    ensures Within(ws[i].mem, l) && ws[i].arenas[a].space == ListBytes(ws[i].mem, l)
  {
    var ls := RunInv(ws, steps, i);
    l := ls[a];
    assert ListOk(ws[i], l, a) && SpaceOk(ws[i], l, a);
    SumOwedQuiet(ws[i].pcs, a);
  }

  /** Reset frees exactly the counted space and leaves only the initial block. */
  lemma ResetReturnsSpace(ws: seq<World>, steps: seq<Step>, i: nat)
    requires IsRun(ws, steps) && i < |steps| && steps[i].Reset?
    ensures Within(ws[i].mem, steps[i].freed)
    ensures ListBytes(ws[i].mem, steps[i].freed) == ws[i].arenas[steps[i].a].space
    ensures ws[i + 1].arenas[steps[i].a].lifecycle > ws[i].arenas[steps[i].a].lifecycle
    ensures
      var initial := ws[i].arenas[steps[i].a].initial;
      && ws[i + 1].arenas[steps[i].a].space == (if initial.None? then 0 else initial.value.size)
      && forall s :: s in steps[i].freed && s in ws[i + 1].mem ==> initial.Some? && s == initial.value.addr
  {
    var a := steps[i].a;
    assert forall t :: 0 <= t < |ws[i].pcs| ==> !InArena(ws[i].pcs[t], a);
    var l := SpaceIsExact(ws, steps, i, a);
    LinkedUnique(ws[i].mem, ws[i].arenas[a].threads, l, steps[i].freed);
    var ls := RunInv(ws, steps, i);
    assert ListOk(ws[i], ls[a], a);
    assert ws[i + 1] == Apply(ws[i], steps[i]);
  }
}
