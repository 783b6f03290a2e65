/** The space counter of an arena against the sizes of the blocks that were asked for. */
module ArenaThreadSpace {
  import opened Options
  import opened ArenaThreads
  import opened ArenaThreadSafety
  import opened ArenaThreadRuns

  // ----- what the steps alone say

  /** The arena of the last call that thread t has begun. */
  function CalledOn(steps: seq<Step>, t: Thread): Option<ArenaId> {
    if steps == [] then None
    else
      match steps[|steps| - 1]
      case Begin(u, a) => if u == t then Some(a) else CalledOn(steps[..|steps| - 1], t)
      case _ => CalledOn(steps[..|steps| - 1], t)
  }

  function SizeOf(initial: Option<InitialBlock>): nat { if initial.Some? then initial.value.size else 0 }

  /** The size of the initial block that arena a was last created with. */
  function InitialSize(steps: seq<Step>, a: ArenaId): nat {
    if steps == [] then 0
    else
      match steps[|steps| - 1]
      case Create(t, b, initial) => if b == a then SizeOf(initial) else InitialSize(steps[..|steps| - 1], a)
      case _ => InitialSize(steps[..|steps| - 1], a)
  }

  /** The sizes of all blocks given to arena a since it was created or reset, that of its initial block included. */
  function Asked(steps: seq<Step>, a: ArenaId): nat {
    if steps == [] then 0
    else
      var front := steps[..|steps| - 1];
      match steps[|steps| - 1]
      case Create(t, b, initial) => if b == a then SizeOf(initial) else Asked(front, a)
      case Reset(t, b, freed) => if b == a then InitialSize(front, a) else Asked(front, a)
      case AllocBlock(t, s, bytes, junk) => Asked(front, a) + if CalledOn(front, t) == Some(a) then bytes else 0
      case Grow(t, bytes) => Asked(front, a) + if CalledOn(front, t) == Some(a) then bytes else 0
      case _ => Asked(front, a)
  }

  // ----- the counter follows

  /** The size of a block that the thread has got but not counted yet. */
  function Uncounted(pc: Pc, a: ArenaId): nat { if pc.CountBlock? && pc.arena == a then pc.bytes else 0 }

  function SumUncounted(pcs: seq<Pc>, a: ArenaId): nat {
    if pcs == [] then 0 else SumUncounted(pcs[..|pcs| - 1], a) + Uncounted(pcs[|pcs| - 1], a)
  }

  lemma {:induction false} UncountedUpdate(pcs: seq<Pc>, t: nat, pc: Pc, a: ArenaId)
    requires t < |pcs|
    ensures SumUncounted(pcs[t := pc], a) + Uncounted(pcs[t], a) == SumUncounted(pcs, a) + Uncounted(pc, a)
  {
    var k := |pcs| - 1;
    if t < k {
      assert pcs[t := pc][..k] == pcs[..k][t := pc];
      UncountedUpdate(pcs[..k], t, pc, a);
    } else {
      assert pcs[t := pc][..k] == pcs[..k];
    }
  }

  lemma {:induction false} NoneUncounted(pcs: seq<Pc>, a: ArenaId)
    requires forall t :: 0 <= t < |pcs| ==> Uncounted(pcs[t], a) == 0
    ensures SumUncounted(pcs, a) == 0
  {
    if pcs != [] {
      NoneUncounted(pcs[..|pcs| - 1], a);
    }
  }

  /** What a step does to the counter of arena a and to the threads that have not counted their block. */
  ghost predicate Counts(w: World, w': World, a: ArenaId, more: nat)
    requires a in w.arenas && a in w'.arenas
  {
    w'.arenas[a].space + SumUncounted(w'.pcs, a) == w.arenas[a].space + SumUncounted(w.pcs, a) + more
  }

  lemma AdvanceCounts(w: World, t: Thread, a: ArenaId)
    requires Enabled(w, Advance(t)) && a in w.arenas
    ensures a in Apply(w, Advance(t)).arenas && Counts(w, Apply(w, Advance(t)), a, 0)
    ensures Apply(w, Advance(t)).arenas[a].initial == w.arenas[a].initial
  {
    hide SumUncounted;
    UncountedUpdate(w.pcs, t, Apply(w, Advance(t)).pcs[t], a);
  }

  lemma OthersCount(w: World, step: Step, a: ArenaId)
    requires Enabled(w, step) && a in w.arenas && !step.Advance? && !step.Create? && !step.Reset? && !step.Destroy?
    ensures a in Apply(w, step).arenas
    ensures Apply(w, step).arenas[a].initial == w.arenas[a].initial
    ensures Counts(w, Apply(w, step), a,
                   if step.AllocBlock? || step.Grow? then (if w.pcs[step.t].arena == a then step.bytes else 0) else 0)
  {
    UncountedUpdate(w.pcs, step.t, Apply(w, step).pcs[step.t], a);
  }

  /** A thread that is inside a call is inside the last one it has begun. */
  lemma {:induction false} InsideLastCall(ws: seq<World>, steps: seq<Step>, i: nat, t: Thread)
    requires IsRun(ws, steps) && i < |ws| && t < |ws[i].pcs| && !ws[i].pcs[t].Idle? && !ws[i].pcs[t].Crashed?
    ensures CalledOn(steps[..i], t) == Some(ws[i].pcs[t].arena)
  {
    hide Start;
    StartIdle(ws, steps, i);
    if i > 0 {
      hide Enabled, Apply;
      var w, step := ws[i - 1], steps[i - 1];
      assert ws[i] == Apply(w, step) && Enabled(w, step);
      assert steps[..i][..i - 1] == steps[..i - 1] && steps[..i][i - 1] == step;
      PcArena(w, step, t);
      if !(step.Begin? && step.t == t) {
        InsideLastCall(ws, steps, i - 1, t);
      }
    }
  }

  lemma StartIdle(ws: seq<World>, steps: seq<Step>, i: nat)
    requires IsRun(ws, steps) && i < |ws|
    ensures i == 0 ==> forall t :: 0 <= t < |ws[0].pcs| ==> ws[0].pcs[t].Idle?
  {
  }

  lemma PcArena(w: World, step: Step, t: Thread)
    requires Enabled(w, step) && t < |Apply(w, step).pcs|
    ensures |Apply(w, step).pcs| == |w.pcs|
    ensures
      var pc := Apply(w, step).pcs[t];
      !pc.Idle? && !pc.Crashed? ==>
        if step.Begin? && step.t == t then pc.arena == step.a
        else !w.pcs[t].Idle? && !w.pcs[t].Crashed? && w.pcs[t].arena == pc.arena
  {
    hide Linked, Quiet;
  }

  /** In every run, and at every point of it, the counter of a live arena and the blocks that are not counted yet make
      up the initial block and all blocks that AllocBlock and Grow gave to the arena. */
  lemma {:induction false} SpaceIsAsked(ws: seq<World>, steps: seq<Step>, i: nat, a: ArenaId)
    requires IsRun(ws, steps) && i < |ws| && a in ws[i].arenas
    ensures ws[i].arenas[a].space + SumUncounted(ws[i].pcs, a) == Asked(steps[..i], a)
    ensures SizeOf(ws[i].arenas[a].initial) == InitialSize(steps[..i], a)
    decreases i
  {
    hide Enabled, Apply;
    var w, step := ws[i - 1], steps[i - 1];
    assert i > 0 ==> ws[i] == Apply(w, step) && Enabled(w, step);
    assert steps[..i][..i - 1] == steps[..i - 1] && steps[..i][i - 1] == step;
    if (step.Create? || step.Reset?) && step.a == a {
      StartsAnew(ws, steps, i - 1, a);
      if step.Reset? {
        SpaceIsAsked(ws, steps, i - 1, a);
      }
    } else {
      StaysLive(w, step, a);
      SpaceIsAsked(ws, steps, i - 1, a);
      if step.Advance? {
        AdvanceCounts(w, step.t, a);
      } else if step.Create? || step.Reset? || step.Destroy? {
        ElsewhereCounts(w, step, a);
      } else {
        OthersCount(w, step, a);
        if step.AllocBlock? || step.Grow? {
          AllocatesInside(w, step);
          InsideLastCall(ws, steps, i - 1, step.t);
        }
      }
    }
  }

  lemma AllocatesInside(w: World, step: Step)
    requires Enabled(w, step) && (step.AllocBlock? || step.Grow?)
    ensures step.t < |w.pcs| && !w.pcs[step.t].Idle? && !w.pcs[step.t].Crashed?
  {
  }

  lemma StaysLive(w: World, step: Step, a: ArenaId)
    requires Enabled(w, step) && a in Apply(w, step).arenas && !((step.Create? || step.Reset?) && step.a == a)
    ensures a in w.arenas && !(step.Destroy? && step.a == a)
  {
    hide Linked, Quiet;
  }

  lemma ElsewhereCounts(w: World, step: Step, a: ArenaId)
    requires Enabled(w, step) && a in w.arenas && (step.Create? || step.Reset? || step.Destroy?) && step.a != a
    ensures a in Apply(w, step).arenas && Apply(w, step).arenas[a].initial == w.arenas[a].initial
    ensures Counts(w, Apply(w, step), a, 0)
  {
    hide Linked, Quiet;
  }

  /** A new arena, or one that was reset, has counted its initial block, and no thread is inside it. */
  lemma StartsAnew(ws: seq<World>, steps: seq<Step>, i: nat, a: ArenaId)
    requires IsRun(ws, steps) && i < |steps| && (steps[i].Create? || steps[i].Reset?) && steps[i].a == a
    ensures a in ws[i + 1].arenas && SumUncounted(ws[i + 1].pcs, a) == 0
    ensures steps[i].Create? ==>
      && ws[i + 1].arenas[a].space == SizeOf(steps[i].initial) && ws[i + 1].arenas[a].initial == steps[i].initial
    ensures steps[i].Reset? ==>
      && a in ws[i].arenas && ws[i + 1].arenas[a].space == SizeOf(ws[i].arenas[a].initial)
      && ws[i + 1].arenas[a].initial == ws[i].arenas[a].initial
  {
    hide Apply, Enabled, Inv, Start;
    var ls := RunInv(ws, steps, i);
    assert ws[i + 1] == Apply(ws[i], steps[i]) && Enabled(ws[i], steps[i]);
    NewCounts(ws[i], steps[i]);
    NobodyInside(ws[i], ls, steps[i]);
  }

  lemma NewCounts(w: World, step: Step)
    requires Enabled(w, step) && (step.Create? || step.Reset?)
    ensures
      var w' := Apply(w, step);
      && step.a in w'.arenas && w'.pcs == w.pcs
      && (step.Create? ==>
        w'.arenas[step.a].space == SizeOf(step.initial) && w'.arenas[step.a].initial == step.initial)
      && (step.Reset? ==>
        && step.a in w.arenas && w'.arenas[step.a].space == SizeOf(w.arenas[step.a].initial)
        && w'.arenas[step.a].initial == w.arenas[step.a].initial)
  {
    hide Linked, Quiet;
    assert step.Reset? ==> Quiet(w, step.a);
    assert step.Reset? ==> step.a in w.arenas by {
      QuietLive(w, step.a);
    }
  }

  lemma QuietLive(w: World, a: ArenaId)
    ensures Quiet(w, a) ==> a in w.arenas && forall t :: 0 <= t < |w.pcs| ==> Uncounted(w.pcs[t], a) == 0
  {
  }

  lemma NobodyInside(w: World, ls: Lists, step: Step)
    requires Inv(w, ls) && Enabled(w, step) && (step.Create? || step.Reset?)
    ensures SumUncounted(w.pcs, step.a) == 0
  {
    hide Linked, Quiet, Inv;
    QuietLive(w, step.a);
    forall t | 0 <= t < |w.pcs| ensures Uncounted(w.pcs[t], step.a) == 0 {
      InvThread(w, ls, t);
    }
    NoneUncounted(w.pcs, step.a);
  }

  /** While no thread is in the middle of adding a block, the counter, the blocks that threads_ reaches, and the blocks
      that were given to the arena have the same size. */
  lemma SpaceIsAskedAndReached(ws: seq<World>, steps: seq<Step>, i: nat, a: ArenaId) returns (l: seq<Addr>)
    requires IsRun(ws, steps) && i < |ws| && a in ws[i].arenas
    requires forall t :: 0 <= t < |ws[i].pcs| ==>
      !MidAllocation(ws[i].pcs[t], a) && !(ws[i].pcs[t].CountBlock? && ws[i].pcs[t].arena == a)
    ensures Linked(ws[i].mem, ws[i].arenas[a].threads, l) && Within(ws[i].mem, l)
    ensures ws[i].arenas[a].space == ListBytes(ws[i].mem, l) == Asked(steps[..i], a)
  {
    l := SpaceIsExact(ws, steps, i, a);
    SpaceIsAsked(ws, steps, i, a);
    NoneUncounted(ws[i].pcs, a);
  }

  /** What Reset returns is all that was given to the arena since it was created or reset before. */
  lemma ResetReturnsAsked(ws: seq<World>, steps: seq<Step>, i: nat)
    requires IsRun(ws, steps) && i < |steps| && steps[i].Reset?
    ensures Within(ws[i].mem, steps[i].freed)
    ensures ListBytes(ws[i].mem, steps[i].freed) == Asked(steps[..i], steps[i].a)
    ensures Asked(steps[..i + 1], steps[i].a) == InitialSize(steps[..i], steps[i].a)
  {
    var a := steps[i].a;
    assert forall t :: 0 <= t < |ws[i].pcs| ==> !InArena(ws[i].pcs[t], a);
    var l := SpaceIsAskedAndReached(ws, steps, i, a);
    LinkedUnique(ws[i].mem, ws[i].arenas[a].threads, l, steps[i].freed);
    assert steps[..i + 1][..i] == steps[..i];
  }
}
