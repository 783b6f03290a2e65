/** The escape sequence parser: the machine that steps the table one code point
    at a time, and the parser that reads ahead in batches. */
module EscapeParsing {
  import opened EscapeTable

  // ----- parameters of a control sequence

  const MAX_PARAMS: nat := 32
  const MAX_VALUE: int := 0x7fff_ffff

  // subParams holds all sub-parameters; subIdx gives the range of each parameter.
  datatype Params = Params(
    params: seq<int>, subParams: seq<int>, subIdx: seq<(nat, nat)>,
    rejectDigits: bool, rejectSubDigits: bool, digitIsSub: bool)

  function Cap(v: int): int { if v > MAX_VALUE then MAX_VALUE else v }

  /** params.reset() and params.addParam(0). */
  const ZERO_PARAMS: Params := Params([0], [], [(0, 0)], false, false, false)

  function AddParam(p: Params, v: int): Params {
    if |p.params| >= MAX_PARAMS then p.(digitIsSub := false, rejectDigits := true)
    else p.(digitIsSub := false, params := p.params + [Cap(v)], subIdx := p.subIdx + [(|p.subParams|, |p.subParams|)])
  }

  function AddSubParam(p: Params, v: int): Params {
    if p.params == [] || p.subIdx == [] then p.(digitIsSub := true)
    else if p.rejectDigits || |p.subParams| >= MAX_PARAMS then p.(digitIsSub := true, rejectSubDigits := true)
    else
      var k := |p.subIdx| - 1;
      p.(digitIsSub := true, subParams := p.subParams + [Cap(v)],
         subIdx := p.subIdx[k := (p.subIdx[k].0, p.subIdx[k].1 + 1)])
  }

  /** The unset value -1 is replaced, any other value gets one more digit. */
  function PushDigit(s: seq<int>, d: int): seq<int>
    requires s != []
  {
    var k := |s| - 1;
    s[k := if s[k] == -1 then d else if 10 * s[k] + d < MAX_VALUE then 10 * s[k] + d else MAX_VALUE]
  }

  function AddDigit(p: Params, d: int): Params {
    if p.rejectDigits || (p.digitIsSub && p.rejectSubDigits) then p
    else if p.digitIsSub then (if p.subParams == [] then p else p.(subParams := PushDigit(p.subParams, d)))
    else if p.params == [] then p
    else p.(params := PushDigit(p.params, d))
  }

  function ParamStep(p: Params, c: nat): Params {
    if c == 59 then AddParam(p, 0)
    else if c == 58 then AddSubParam(p, -1)
    else AddDigit(p, c - 48)
  }

  // ----- collected bytes

  /** a << 8 | c on 32-bit signed integers. */
  function Shift8Or(a: int, c: nat): int {
    var w := a * 0x100 % 0x1_0000_0000;
    (if w >= 0x8000_0000 then w - 0x1_0000_0000 else w) + c
  }

  // ----- what the parser reports to its handlers

  datatype Event =
    | Print(codes: seq<nat>)
    | Execute(code: nat)
    | Error(code: nat, state: nat, collect: int, params: Params)
    | Csi(ident: int, params: Params)
    | Esc(ident: int)
    | Hook(ident: int, params: Params)
    | Put(codes: seq<nat>)
    | Unhook(success: bool)
    | OscStart
    | OscPut(codes: seq<nat>)
    | OscEnd(success: bool)

  // ----- one code point at a time

  datatype State = State(state: nat, collect: int, params: Params, precedingCodepoint: nat)

  function Lookup(tr: Table, s: nat, c: nat): Entry {
    tr(s, if c < NON_ASCII then c else NON_ASCII)
  }

  /** transition |= 1 on the next state. */
  function OrOne(n: nat): nat { if n % 2 == 0 then n + 1 else n }

  function EndOfString(s: State, next: nat, c: nat): State {
    State(if c == 27 then OrOne(next) else next, 0, ZERO_PARAMS, 0)
  }

  function StepState(tr: Table, s: State, c: nat): State {
    var t := Lookup(tr, s.state, c);
    match t.action
    case Execute => s.(state := t.next, precedingCodepoint := 0)
    case CsiDispatch => s.(state := t.next, precedingCodepoint := 0)
    case Param => s.(state := t.next, params := ParamStep(s.params, c))
    case Collect => s.(state := t.next, collect := Shift8Or(s.collect, c))
    case EscDispatch => s.(state := t.next, precedingCodepoint := 0)
    case Clear => s.(state := t.next, params := ZERO_PARAMS, collect := 0)
    case DcsUnhook => EndOfString(s, t.next, c)
    case OscEnd => EndOfString(s, t.next, c)
    case _ => s.(state := t.next)
  }

  function StepEvents(tr: Table, s: State, c: nat): seq<Event> {
    match Lookup(tr, s.state, c).action
    case Ignore => []
    case Error => [Event.Error(c, s.state, s.collect, s.params)]
    case Print => [Event.Print([c])]
    case Execute => [Event.Execute(c)]
    case OscStart => [Event.OscStart]
    case OscPut => [Event.OscPut([c])]
    case OscEnd => [Event.OscEnd(c != 24 && c != 26)]
    case CsiDispatch => [Csi(Shift8Or(s.collect, c), s.params)]
    case Param => []
    case Collect => []
    case EscDispatch => [Esc(Shift8Or(s.collect, c))]
    case Clear => []
    case DcsHook => [Hook(Shift8Or(s.collect, c), s.params)]
    case DcsPut => [Put([c])]
    case DcsUnhook => [Unhook(c != 24 && c != 26)]
  }

  datatype Run = Run(s: State, inPut: bool, events: seq<Event>)

  /** The table machine. */
  function TableRun(tr: Table, s: State, codes: seq<nat>): Run {
    if codes == [] then Run(s, false, []) else
    var k := |codes| - 1;
    var r := TableRun(tr, s, codes[..k]);
    Run(StepState(tr, r.s, codes[k]), false, r.events + StepEvents(tr, r.s, codes[k]))
  }

  /** One code point as the batching parser treats it: inside a batch of device
      control data it takes DEL for data, without asking the table. */
  function BatchStep(tr: Table, r: Run, c: nat): Run {
    if r.inPut && c == 127 then r.(events := r.events + [Put([c])])
    else Run(StepState(tr, r.s, c), Lookup(tr, r.s.state, c).action == DcsPut, r.events + StepEvents(tr, r.s, c))
  }

  function BatchRun(tr: Table, r: Run, codes: seq<nat>): Run {
    if codes == [] then r else BatchStep(tr, BatchRun(tr, r, codes[..|codes| - 1]), codes[|codes| - 1])
  }

  /** One call of parse, reported one code point at a time. */
  function ChunkRun(tr: Table, s: State, codes: seq<nat>): Run {
    BatchRun(tr, Run(s, false, []), codes)
  }

  // ----- ranges

  function Singles(e: Event): seq<Event> {
    match e
    case Print(codes) => seq(|codes|, i requires 0 <= i < |codes| => Event.Print([codes[i]]))
    case Put(codes) => seq(|codes|, i requires 0 <= i < |codes| => Event.Put([codes[i]]))
    case OscPut(codes) => seq(|codes|, i requires 0 <= i < |codes| => Event.OscPut([codes[i]]))
    case _ => [e]
  }

  /** Every range reported as single code points. */
  function Explode(es: seq<Event>): seq<Event> {
    if es == [] then [] else Explode(es[..|es| - 1]) + Singles(es[|es| - 1])
  }

  lemma ExplodeSnoc(es: seq<Event>, e: Event)
    ensures Explode(es + [e]) == Explode(es) + Singles(e)
  {
    assert (es + [e])[..|es|] == es;
  }

  // ----- when batching is safe

  /** The code points that a batch of this action goes on with. */
  predicate InBatch(a: Action, c: nat) {
    match a
    case Print => 32 <= c <= 126 || c >= NON_ASCII
    case Param => 48 <= c < 60
    case OscPut => !(c < 32 || 127 < c <= 159)
    case DcsPut => !(c == 24 || c == 26 || c == 27 || 127 < c < NON_ASCII)
    case _ => false
  }

  /** The table sends each of them, other than DEL in device control data, to
      the same action in the state that the action leads to. */
  ghost predicate ActionStays(tr: Table, t: Entry) {
    forall c: nat :: InBatch(t.action, c) && !(t.action == DcsPut && c == 127) ==> Lookup(tr, t.next, c) == t
  }

  ghost predicate BatchSafe(tr: Table) {
    forall s: nat, c: nat ::
      var t := Lookup(tr, s, c);
      ActionStays(tr, t) && (t.action == DcsPut ==> Lookup(tr, t.next, 127) == Entry(Ignore, t.next))
  }

  lemma BatchEntries(s: nat, c: nat)
    ensures
      var t := Lookup(Vt500, s, c);
      && (t.action == Action.Print ==> t.next == GROUND)
      && (t.action == Param ==> t.next == CSI_PARAM || t.next == DCS_PARAM)
      && (t.action == Action.OscPut ==> t.next == OSC_STRING)
      && (t.action == DcsPut ==> t.next == DCS_PASSTHROUGH)
  {
  }

  lemma BatchContinues(c: nat)
    ensures InBatch(Action.Print, c) ==> Lookup(Vt500, GROUND, c) == Entry(Action.Print, GROUND)
    ensures InBatch(Param, c) ==> Lookup(Vt500, CSI_PARAM, c) == Entry(Param, CSI_PARAM)
    ensures InBatch(Param, c) ==> Lookup(Vt500, DCS_PARAM, c) == Entry(Param, DCS_PARAM)
    ensures InBatch(Action.OscPut, c) ==> Lookup(Vt500, OSC_STRING, c) == Entry(Action.OscPut, OSC_STRING)
    ensures InBatch(DcsPut, c) && c != 127 ==> Lookup(Vt500, DCS_PASSTHROUGH, c) == Entry(DcsPut, DCS_PASSTHROUGH)
    ensures Lookup(Vt500, DCS_PASSTHROUGH, 127) == Entry(Ignore, DCS_PASSTHROUGH)
  {
  }

  /** No batch ends where the table would go on with it. */
  lemma BatchesMaximal(c: nat)
    ensures Lookup(Vt500, GROUND, c).action == Action.Print <==> InBatch(Action.Print, c)
    ensures Lookup(Vt500, OSC_STRING, c).action == Action.OscPut <==> InBatch(Action.OscPut, c)
    ensures Lookup(Vt500, DCS_PASSTHROUGH, c).action == DcsPut || c == 127 <==> InBatch(DcsPut, c)
  {
  }

  lemma ParamsMaximal(c: nat)
    ensures Lookup(Vt500, CSI_PARAM, c).action == Param <==> InBatch(Param, c)
    ensures Lookup(Vt500, DCS_PARAM, c).action == Param <==> InBatch(Param, c)
  {
  }

  /** The table of the terminal is safe. */
  lemma Vt500BatchSafe()
    ensures BatchSafe(Vt500)
  {
    hide Vt500, Lookup;
    forall s: nat, c: nat
      ensures
        var t := Lookup(Vt500, s, c);
        ActionStays(Vt500, t) && (t.action == DcsPut ==> Lookup(Vt500, t.next, 127) == Entry(Ignore, t.next))
    {
      BatchEntries(s, c);
      BatchContinues(127);
      var t := Lookup(Vt500, s, c);
      forall d: nat | InBatch(t.action, d) && !(t.action == DcsPut && d == 127)
        ensures Lookup(Vt500, t.next, d) == t
      {
        BatchContinues(d);
      }
    }
  }

  // ----- the parser

  /** One handler call for a range of code points. */
  function Range(a: Action, codes: seq<nat>): Event
    requires a == Action.Print || a == Action.OscPut || a == DcsPut
  {
    if a == Action.Print then Event.Print(codes) else if a == DcsPut then Event.Put(codes) else Event.OscPut(codes)
  }

  lemma ChunkSnoc(tr: Table, s: State, codes: seq<nat>, h: nat)
    requires h < |codes|
    ensures ChunkRun(tr, s, codes[..h + 1]) == BatchStep(tr, ChunkRun(tr, s, codes[..h]), codes[h])
  {
    assert codes[..h + 1][..h] == codes[..h];
  }

  /** The run after a batch that started from r with entry t and took the code points cs. */
  function AfterBatch(r: Run, t: Entry, cs: seq<nat>): Run
    requires t.action == Action.Print || t.action == Action.OscPut || t.action == DcsPut
  {
    Run(r.s.(state := t.next), t.action == DcsPut, r.events + Singles(Range(t.action, cs)))
  }

  lemma BatchStart(tr: Table, r: Run, c: nat)
    requires !(r.inPut && c == 127)
    requires
      var a := Lookup(tr, r.s.state, c).action;
      a == Action.Print || a == Action.OscPut || a == DcsPut
    ensures BatchStep(tr, r, c) == AfterBatch(r, Lookup(tr, r.s.state, c), [c])
  {
    var a := Lookup(tr, r.s.state, c).action;
    assert Singles(Range(a, [c])) == [Range(a, [c])];
  }

  lemma BatchGoesOn(tr: Table, r: Run, t: Entry, cs: seq<nat>, c: nat)
    requires t.action == Action.Print || t.action == Action.OscPut || t.action == DcsPut
    requires ActionStays(tr, t) && InBatch(t.action, c)
    ensures BatchStep(tr, AfterBatch(r, t, cs), c) == AfterBatch(r, t, cs + [c])
  {
    hide Lookup, InBatch;
    SinglesSnoc(t.action, cs, c);
    assert r.events + (Singles(Range(t.action, cs)) + [Range(t.action, [c])])
      == (r.events + Singles(Range(t.action, cs))) + [Range(t.action, [c])];
  }

  /** A batch from h to u does what its code points do one at a time. */
  lemma {:induction false} RangeRun(tr: Table, s: State, codes: seq<nat>, h: nat, u: nat)
    requires BatchSafe(tr) && h < u <= |codes|
    requires
      var r := ChunkRun(tr, s, codes[..h]);
      var a := Lookup(tr, r.s.state, codes[h]).action;
      && !(r.inPut && codes[h] == 127)
      && (a == Action.Print || a == Action.OscPut || a == DcsPut)
      && forall k :: h < k < u ==> InBatch(a, codes[k])
    ensures
      var r := ChunkRun(tr, s, codes[..h]);
      ChunkRun(tr, s, codes[..u]) == AfterBatch(r, Lookup(tr, r.s.state, codes[h]), codes[h..u])
    decreases u
  {
    hide Lookup, InBatch, ChunkRun, BatchStep, AfterBatch, ActionStays;
    var r := ChunkRun(tr, s, codes[..h]);
    var t := Lookup(tr, r.s.state, codes[h]);
    if u == h + 1 {
      ChunkSnoc(tr, s, codes, h);
      assert codes[h..u] == [codes[h]];
      BatchStart(tr, r, codes[h]);
    } else {
      RangeRun(tr, s, codes, h, u - 1);
      ChunkSnoc(tr, s, codes, u - 1);
      assert codes[h..u] == codes[h..u - 1] + [codes[u - 1]];
      assert ActionStays(tr, t);
      BatchGoesOn(tr, r, t, codes[h..u - 1], codes[u - 1]);
    }
  }

  lemma SinglesSnoc(a: Action, codes: seq<nat>, c: nat)
    requires a == Action.Print || a == Action.OscPut || a == DcsPut
    ensures Singles(Range(a, codes + [c])) == Singles(Range(a, codes)) + [Range(a, [c])]
  {
  }

  predicate IsEmptyRange(e: Event) {
    (e.Print? || e.Put? || e.OscPut?) && e.codes == []
  }

  // What reading behind the end of an array gives.  All comparisons with it fail, as with a code point above the rest.
  const UNDEFINED: nat := 0x11_0000

  /** The code points that a call of parse sees, whose length may go beyond the array. */
  function View(data: seq<nat>, length: nat): (r: seq<nat>)
    ensures |r| == length
    ensures forall h :: 0 <= h < length ==> r[h] == if h < |data| then data[h] else UNDEFINED
  {
    if length <= |data| then data[..length] else data + seq(length - |data|, i => UNDEFINED)
  }

  function CodeAt(data: array<nat>, h: nat): nat
    reads data
  {
    if h < data.Length then data[h] else UNDEFINED
  }

  lemma ViewAt(data: array<nat>, length: nat, h: nat)
    requires h < length
    ensures CodeAt(data, h) == View(data[..], length)[h]
  {
  }

  class EscapeSequenceParser {
    const transitions: Table
    const errorAborts: Event -> bool  // whether the error handler asks to stop
    var currentState: nat
    var collect: int
    var params: Params
    var precedingCodepoint: nat
    var events: seq<Event>            // the calls of the handlers so far

    constructor (transitions: Table, errorAborts: Event -> bool)
      ensures this.transitions == transitions && this.errorAborts == errorAborts
      ensures GetState() == State(GROUND, 0, ZERO_PARAMS, 0) && events == []
    {
      this.transitions, this.errorAborts := transitions, errorAborts;
      currentState, collect, params, precedingCodepoint, events := GROUND, 0, ZERO_PARAMS, 0, [];
    }

    function GetState(): State
      reads this
    {
      State(currentState, collect, params, precedingCodepoint)
    }

    /** Refines the machine that takes one code point at a time.  When the error
        handler asks to abort, what was reported so far stays, the parameters
        stay, and the state and the collected bytes are those from before the call. */
    method Parse(data: array<nat>, length: nat) returns (aborted: bool, consumed: nat)
      requires BatchSafe(transitions)
      modifies this
      ensures consumed <= length && (!aborted ==> consumed == length)
      ensures old(events) <= events
      ensures
        var r := ChunkRun(transitions, old(GetState()), View(data[..], length)[..consumed]);
        && Explode(events[|old(events)|..]) == r.events
        && params == r.s.params && precedingCodepoint == r.s.precedingCodepoint
        && (if aborted then currentState == old(currentState) && collect == old(collect)
            else currentState == r.s.state && collect == r.s.collect)
      ensures forall i :: |old(events)| <= i < |events| ==> !IsEmptyRange(events[i])
      ensures forall i :: |old(events)| <= i < |events| ==>
        (IsAbort(errorAborts, events[i]) <==> aborted && i == |events| - 1)
      ensures aborted ==> |old(events)| < |events|
    {
      hide ChunkRun, Lookup, InBatch, BatchSafe, StepState, StepEvents, Explode, ParamStep, IsEmptyRange, Progress,
        IsAbort, View, CodeAt;
      ghost var codes, s0 := View(data[..], length), GetState();
      ghost var out: seq<Event> := [];
      var state, a, h := currentState, collect, 0;
      ProgressStart(transitions, s0, codes, errorAborts);
      while h < length
        invariant 0 <= h <= length && events == old(events) + out
        invariant Progress(transitions, s0, codes, h, State(state, a, params, precedingCodepoint), out, errorAborts)
        invariant currentState == old(currentState) && collect == old(collect)
      {
        var stop;
        stop, h, state, a, out := ReadNext(data, length, h, state, a, s0, out);
        if stop {
          assert events[|old(events)|..] == out;
          return true, h;
        }
      }
      collect, currentState := a, state;
      assert codes[..length] == codes && events[|old(events)|..] == out;
      ProgressEnd(transitions, s0, codes, State(state, a, params, precedingCodepoint), out, errorAborts);
      return false, length;
    }

    /** The action on the code point at h, which ends the call when the error handler asks to. */
    method ActOn(t: Entry, c: nat, state: nat, a: int, ghost s0: State, ghost codes: seq<nat>, ghost h: nat,
                 ghost before: seq<Event>)
      returns (stop: bool, state': nat, a': int, ghost out: seq<Event>)
      requires h < |codes| && c == codes[h] && t == Lookup(transitions, state, c)
      requires t.action != Action.Print && t.action != DcsPut && t.action != Action.OscPut && t.action != Param
      requires Progress(
        transitions, s0, codes, h, State(state, a, params, precedingCodepoint), before, errorAborts)
      modifies this`events, this`params, this`precedingCodepoint
      ensures before <= out && events == old(events) + out[|before|..]
      ensures !stop ==> Progress(
        transitions, s0, codes, h + 1, State(state', a', params, precedingCodepoint), out, errorAborts)
      ensures stop ==>
        var r := ChunkRun(transitions, s0, codes[..h + 1]);
        && out != [] && Explode(out) == r.events && params == r.s.params && precedingCodepoint == r.s.precedingCodepoint
        && forall i :: 0 <= i < |out| ==>
          !IsEmptyRange(out[i]) && (IsAbort(errorAborts, out[i]) <==> i == |out| - 1)
    {
      hide ChunkRun, Lookup, StepState, StepEvents, Explode, IsEmptyRange, Progress, IsAbort;
      ghost var s := State(state, a, params, precedingCodepoint);
      out := before + StepEvents(transitions, s, c);
      stop, state', a' := Dispatch(t, c, state, a);
      if stop {
        ProgressAbort(transitions, s0, codes, h, s, before, errorAborts);
      } else {
        ProgressGoesOn(transitions, s0, codes, h, s, before, errorAborts);
      }
    }

    /** The batch that begins at h, or the single action there. */
    method ReadNext(data: array<nat>, length: nat, h: nat, state: nat, a: int, ghost s0: State,
                    ghost before: seq<Event>)
      returns (stop: bool, u: nat, state': nat, a': int, ghost out: seq<Event>)
      requires BatchSafe(transitions) && h < length
      requires Progress(
        transitions, s0, View(data[..], length), h, State(state, a, params, precedingCodepoint), before, errorAborts)
      modifies `events, `params, `precedingCodepoint
      ensures h < u <= length && before <= out && events == old(events) + out[|before|..]
      ensures !stop ==> Progress(
        transitions, s0, View(data[..], length), u, State(state', a', params, precedingCodepoint), out, errorAborts)
      ensures stop ==>
        var r := ChunkRun(transitions, s0, View(data[..], length)[..u]);
        && out != [] && Explode(out) == r.events && params == r.s.params && precedingCodepoint == r.s.precedingCodepoint
        && forall i :: 0 <= i < |out| ==>
          !IsEmptyRange(out[i]) && (IsAbort(errorAborts, out[i]) <==> i == |out| - 1)
    {
      hide ChunkRun, Lookup, InBatch, BatchSafe, StepState, StepEvents, Explode, ParamStep, IsEmptyRange, Progress,
        IsAbort, View, CodeAt;
      ghost var codes := View(data[..], length);
      ViewAt(data, length, h);
      var c := CodeAt(data, h);
      var t := Lookup(transitions, state, c);
      stop, state', a', out := false, t.next, a, before;
      if t.action == Action.Print || t.action == DcsPut || t.action == Action.OscPut {
        u, out := ReadRange(data, length, h, t, State(state, a, params, precedingCodepoint), s0, before);
      } else if t.action == Param {
        u := ReadParams(data, length, h, t.next, a, s0, before);
      } else {
        stop, state', a', out := ActOn(t, c, state, a, s0, codes, h, before);
        u := h + 1;
      }
    }

    /** Hands a batch to its handler, as one range. */
    method ReadRange(data: array<nat>, length: nat, h: nat, t: Entry, ghost s: State, ghost s0: State,
                     ghost before: seq<Event>)
      returns (u: nat, ghost out: seq<Event>)
      requires BatchSafe(transitions) && h < length && t == Lookup(transitions, s.state, View(data[..], length)[h])
      requires t.action == Action.Print || t.action == DcsPut || t.action == Action.OscPut
      requires Progress(transitions, s0, View(data[..], length), h, s, before, errorAborts)
      modifies `events
      ensures h < u <= length && |out| == |before| + 1 && before <= out
      ensures events == old(events) + [out[|before|]]
      ensures Progress(transitions, s0, View(data[..], length), u, s.(state := t.next), out, errorAborts)
    {
      hide Lookup, InBatch, BatchSafe, Progress, CodeAt, View;
      u := ReadBatch(data, length, h, t.action);
      ProgressRange(transitions, s0, View(data[..], length), h, u, s, before, errorAborts);
      var range := Range(t.action, View(data[..], length)[h..u]);
      events := events + [range];
      out := before + [range];
    }

    /** The end of the batch that begins at h. */
    method ReadBatch(data: array<nat>, length: nat, h: nat, action: Action) returns (u: nat)
      requires h < length
      ensures h < u <= length
      ensures forall k :: h < k < u ==> InBatch(action, View(data[..], length)[k])
      ensures u < length ==> !InBatch(action, View(data[..], length)[u])
    {
      u := h + 1;
      while u < length && InBatch(action, CodeAt(data, u))
        invariant h < u <= length
        invariant forall k :: h < k < u ==> InBatch(action, View(data[..], length)[k])
      {
        u := u + 1;
      }
    }

    /** Takes parameter bytes as long as they last. */
    method ReadParams(data: array<nat>, length: nat, h: nat, next: nat, a: int, ghost s0: State, ghost out: seq<Event>)
      returns (u: nat)
      requires BatchSafe(transitions) && h < length
      requires exists state ::
        && Progress(transitions, s0, View(data[..], length), h,
                    State(state, a, params, precedingCodepoint), out, errorAborts)
        && Lookup(transitions, state, CodeAt(data, h)) == Entry(Param, next)
      modifies this`params
      ensures h < u <= length
      ensures Progress(
        transitions, s0, View(data[..], length), u, State(next, a, params, precedingCodepoint), out, errorAborts)
    {
      hide ChunkRun, Lookup, BatchSafe, Explode, ParamStep, Progress;
      ghost var codes := View(data[..], length);
      ghost var state :|
        Progress(transitions, s0, codes, h, State(state, a, params, precedingCodepoint), out, errorAborts)
        && Lookup(transitions, state, codes[h]) == Entry(Param, next);
      ProgressParam(transitions, s0, codes, h, State(state, a, params, precedingCodepoint), out, errorAborts);
      params := ParamStep(params, CodeAt(data, h));
      u := h + 1;
      while u < length && 47 < CodeAt(data, u) < 60
        invariant h < u <= length
        invariant Progress(transitions, s0, codes, u, State(next, a, params, precedingCodepoint), out, errorAborts)
      {
        ParamStays(transitions, state, codes[h], codes[u]);
        ProgressParam(transitions, s0, codes, u, State(next, a, params, precedingCodepoint), out, errorAborts);
        params := ParamStep(params, CodeAt(data, u));
        u := u + 1;
      }
    }

    /** The actions on a single code point. */
    method Dispatch(t: Entry, c: nat, state: nat, a: int) returns (stop: bool, state': nat, a': int)
      requires t == Lookup(transitions, state, c)
      requires t.action != Action.Print && t.action != DcsPut && t.action != Action.OscPut && t.action != Param
      modifies this`events, this`params, this`precedingCodepoint
      ensures
        var s := State(state, a, old(params), old(precedingCodepoint));
        && events == old(events) + StepEvents(transitions, s, c)
        && State(state', a', params, precedingCodepoint) == StepState(transitions, s, c)
        && (stop <==> t.action == Action.Error && errorAborts(Event.Error(c, state, a, old(params))))
    {
      hide Lookup, Shift8Or;
      stop, state', a' := false, t.next, a;
      match t.action {
        case Error =>
          events := events + [Event.Error(c, state, a, params)];
          stop := errorAborts(Event.Error(c, state, a, params));
        case Execute =>
          events := events + [Event.Execute(c)];
          precedingCodepoint := 0;
        case CsiDispatch =>
          events := events + [Csi(Shift8Or(a, c), params)];
          precedingCodepoint := 0;
        case Collect => a' := Shift8Or(a, c);
        case EscDispatch =>
          events := events + [Esc(Shift8Or(a, c))];
          precedingCodepoint := 0;
        case Clear => params, a' := ZERO_PARAMS, 0;
        case DcsHook => events := events + [Hook(Shift8Or(a, c), params)];
        case OscStart => events := events + [Event.OscStart];
        case DcsUnhook =>
          events := events + [Unhook(c != 24 && c != 26)];
          state' := if c == 27 then OrOne(t.next) else t.next;
          params, a', precedingCodepoint := ZERO_PARAMS, 0, 0;
        case OscEnd =>
          events := events + [Event.OscEnd(c != 24 && c != 26)];
          state' := if c == 27 then OrOne(t.next) else t.next;
          params, a', precedingCodepoint := ZERO_PARAMS, 0, 0;
        case _ =>
      }
    }
  }

  predicate IsAbort(errorAborts: Event -> bool, e: Event) {
    e.Error? && errorAborts(e)
  }

  /** What Parse has established when it is about to read code point h. */
  ghost predicate Progress(
    tr: Table, s0: State, codes: seq<nat>, h: nat, s: State, out: seq<Event>, errorAborts: Event -> bool)
  {
    && h <= |codes|
    && Explode(out) == ChunkRun(tr, s0, codes[..h]).events
    && s == ChunkRun(tr, s0, codes[..h]).s
    && (ChunkRun(tr, s0, codes[..h]).inPut && h < |codes| ==> codes[h] != 127)
    && forall i :: 0 <= i < |out| ==> !IsEmptyRange(out[i]) && !IsAbort(errorAborts, out[i])
  }

  lemma ProgressStart(tr: Table, s0: State, codes: seq<nat>, errorAborts: Event -> bool)
    ensures Progress(tr, s0, codes, 0, s0, [], errorAborts)
  {
  }

  lemma ProgressRange(
    tr: Table, s0: State, codes: seq<nat>, h: nat, u: nat, s: State, out: seq<Event>, errorAborts: Event -> bool)
    requires Progress(tr, s0, codes, h, s, out, errorAborts) && BatchSafe(tr) && h < u <= |codes|
    requires
      var a := Lookup(tr, s.state, codes[h]).action;
      && (a == Action.Print || a == Action.OscPut || a == DcsPut)
      && (forall k :: h < k < u ==> InBatch(a, codes[k]))
      && (u < |codes| ==> !InBatch(a, codes[u]))
    ensures
      var t := Lookup(tr, s.state, codes[h]);
      Progress(tr, s0, codes, u, s.(state := t.next), out + [Range(t.action, codes[h..u])], errorAborts)
  {
    hide Lookup, ChunkRun, BatchSafe, Explode;
    RangeRun(tr, s0, codes, h, u);
    ExplodeSnoc(out, Range(Lookup(tr, s.state, codes[h]).action, codes[h..u]));
  }

  lemma ParamStays(tr: Table, state: nat, c: nat, d: nat)
    requires BatchSafe(tr) && Lookup(tr, state, c).action == Param && InBatch(Param, d)
    ensures Lookup(tr, Lookup(tr, state, c).next, d) == Lookup(tr, state, c)
  {
    assert ActionStays(tr, Lookup(tr, state, c));
  }

  lemma ProgressParam(
    tr: Table, s0: State, codes: seq<nat>, h: nat, s: State, out: seq<Event>, errorAborts: Event -> bool)
    requires Progress(tr, s0, codes, h, s, out, errorAborts) && h < |codes|
    requires Lookup(tr, s.state, codes[h]).action == Param
    ensures
      var t := Lookup(tr, s.state, codes[h]);
      Progress(tr, s0, codes, h + 1, s.(state := t.next, params := ParamStep(s.params, codes[h])), out, errorAborts)
  {
    hide Lookup, ChunkRun, Explode;
    ChunkSnoc(tr, s0, codes, h);
  }

  lemma SingleFacts(tr: Table, s: State, c: nat)
    requires
      var a := Lookup(tr, s.state, c).action;
      a != Action.Print && a != DcsPut && a != Action.OscPut && a != Param
    ensures
      var e := StepEvents(tr, s, c);
      && |e| <= 1 && Explode(e) == e
      && (e != [] ==> !IsEmptyRange(e[0]) && Singles(e[0]) == e)
      && (Lookup(tr, s.state, c).action == Action.Error ==> e == [Event.Error(c, s.state, s.collect, s.params)])
      && (Lookup(tr, s.state, c).action != Action.Error ==> e == [] || !e[0].Error?)
  {
    hide Lookup, Shift8Or, Explode;
    var e := StepEvents(tr, s, c);
    ExplodeNil();
    if e != [] {
      assert e == [] + [e[0]];
      ExplodeSnoc([], e[0]);
      assert [] + Singles(e[0]) == Singles(e[0]);
    }
  }

  lemma ExplodeNil()
    ensures Explode([]) == []
  {
  }

  lemma ProgressSingle(
    tr: Table, s0: State, codes: seq<nat>, h: nat, s: State, out: seq<Event>, errorAborts: Event -> bool)
    requires Progress(tr, s0, codes, h, s, out, errorAborts) && h < |codes|
    requires
      var a := Lookup(tr, s.state, codes[h]).action;
      a != Action.Print && a != DcsPut && a != Action.OscPut && a != Param
    ensures
      var out' := out + StepEvents(tr, s, codes[h]);
      var r := ChunkRun(tr, s0, codes[..h + 1]);
      && Explode(out') == r.events && r.s == StepState(tr, s, codes[h]) && !r.inPut
      && forall i :: 0 <= i < |out'| ==>
        !IsEmptyRange(out'[i]) && (i < |out| ==> !IsAbort(errorAborts, out'[i]))
  {
    hide Lookup, ChunkRun, Explode, StepEvents, StepState;
    var e := StepEvents(tr, s, codes[h]);
    ChunkSnoc(tr, s0, codes, h);
    SingleFacts(tr, s, codes[h]);
    if e == [] {
      assert out + e == out;
    } else {
      ExplodeSnoc(out, e[0]);
      assert e == [e[0]];
    }
  }

  lemma ProgressGoesOn(
    tr: Table, s0: State, codes: seq<nat>, h: nat, s: State, out: seq<Event>, errorAborts: Event -> bool)
    requires Progress(tr, s0, codes, h, s, out, errorAborts) && h < |codes|
    requires
      var a := Lookup(tr, s.state, codes[h]).action;
      && a != Action.Print && a != DcsPut && a != Action.OscPut && a != Param
      && !(a == Action.Error && errorAborts(Event.Error(codes[h], s.state, s.collect, s.params)))
    ensures Progress(
      tr, s0, codes, h + 1, StepState(tr, s, codes[h]), out + StepEvents(tr, s, codes[h]), errorAborts)
  {
    hide Lookup, ChunkRun, Explode, StepEvents, StepState, IsEmptyRange;
    ProgressSingle(tr, s0, codes, h, s, out, errorAborts);
    SingleFacts(tr, s, codes[h]);
  }

  lemma ProgressAbort(
    tr: Table, s0: State, codes: seq<nat>, h: nat, s: State, out: seq<Event>, errorAborts: Event -> bool)
    requires Progress(tr, s0, codes, h, s, out, errorAborts) && h < |codes|
    requires Lookup(tr, s.state, codes[h]).action == Action.Error
    requires errorAborts(Event.Error(codes[h], s.state, s.collect, s.params))
    ensures
      var out' := out + StepEvents(tr, s, codes[h]);
      var r := ChunkRun(tr, s0, codes[..h + 1]);
      && out' != [] && Explode(out') == r.events && r.s == StepState(tr, s, codes[h])
      && forall i :: 0 <= i < |out'| ==>
        !IsEmptyRange(out'[i]) && (IsAbort(errorAborts, out'[i]) <==> i == |out'| - 1)
  {
    hide Lookup, ChunkRun, Explode, StepEvents, StepState, IsEmptyRange;
    ProgressSingle(tr, s0, codes, h, s, out, errorAborts);
    SingleFacts(tr, s, codes[h]);
  }

  lemma ProgressEnd(
    tr: Table, s0: State, codes: seq<nat>, s: State, out: seq<Event>, errorAborts: Event -> bool)
    requires Progress(tr, s0, codes, |codes|, s, out, errorAborts)
    ensures
      var r := ChunkRun(tr, s0, codes[..|codes|]);
      Explode(out) == r.events && r.s == s
    ensures forall i :: 0 <= i < |out| ==> !IsEmptyRange(out[i]) && !IsAbort(errorAborts, out[i])
  {
  }
}
