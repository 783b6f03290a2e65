/** What the terminal's own transition table makes of escape sequences, control strings and text. */
module EscapeGrammar {
  import opened EscapeTable
  import opened EscapeParsing
  import opened EscapeChunks

  predicate Between(codes: seq<nat>, lo: nat, hi: nat) { forall i :: 0 <= i < |codes| ==> lo <= codes[i] < hi }

  /** The table takes s to t on these code points, and reports these events. */
  ghost predicate Takes(s: State, codes: seq<nat>, t: State, events: seq<Event>) {
    TableRun(Vt500, s, codes).s == t && TableRun(Vt500, s, codes).events == events
  }

  lemma TakesNothing(s: State)
    ensures Takes(s, [], s, [])
  {
  }

  lemma TakesOne(s: State, c: nat)
    ensures Takes(s, [c], StepState(Vt500, s, c), StepEvents(Vt500, s, c))
  {
    hide StepState, StepEvents;
    assert [c][..0] == [] && TableRun(Vt500, s, []).s == s;
  }

  lemma TakesThen(s: State, a: seq<nat>, t: State, e: seq<Event>, b: seq<nat>, u: State, f: seq<Event>)
    requires Takes(s, a, t, e) && Takes(t, b, u, f)
    ensures Takes(s, a + b, u, e + f)
  {
    TableRunConcat(Vt500, s, a, b);
  }

  /** One code point more, whose table entry is known. */
  lemma TakesMore(s: State, a: seq<nat>, t: State, e: seq<Event>, c: nat)
    requires Takes(s, a, t, e)
    ensures Takes(s, a + [c], StepState(Vt500, t, c), e + StepEvents(Vt500, t, c))
  {
    hide StepState, StepEvents;
    TakesOne(t, c);
    TakesThen(s, a, t, e, [c], StepState(Vt500, t, c), StepEvents(Vt500, t, c));
  }

  lemma TakesQuietly(s: State, a: seq<nat>, t: State, e: seq<Event>, c: nat)
    requires Takes(s, a, t, e) && StepEvents(Vt500, t, c) == []
    ensures Takes(s, a + [c], StepState(Vt500, t, c), e)
  {
    hide StepState, StepEvents;
    TakesMore(s, a, t, e, c);
    assert e + [] == e;
  }

  lemma TakesNoMore(s: State, a: seq<nat>, t: State, e: seq<Event>, b: seq<nat>, u: State)
    requires Takes(s, a, t, e) && Takes(t, b, u, [])
    ensures Takes(s, a + b, u, e)
  {
    TakesThen(s, a, t, e, b, u, []);
    assert e + [] == e;
  }

  // ----- introducers

  /** What an ESC reports that ends a string. */
  function Ended(s: State, success: bool): seq<Event> {
    if s.state == OSC_STRING then [Event.OscEnd(success)]
    else if s.state == DCS_PASSTHROUGH then [Unhook(success)]
    else []
  }

  /** ESC begins a new sequence in every state, and forgets parameters and collected bytes. */
  lemma Escaped(s: State)
    requires s.state <= DCS_PASSTHROUGH
    ensures
      var kept := if Ended(s, true) == [] then s.precedingCodepoint else 0;
      Takes(s, [27], State(ESCAPE, 0, ZERO_PARAMS, kept), Ended(s, true))
  {
    hide StepState, StepEvents, Takes;
    EscapeEntry(s);
    TakesOne(s, 27);
  }

  lemma EscapeEntry(s: State)
    requires s.state <= DCS_PASSTHROUGH
    ensures StepEvents(Vt500, s, 27) == Ended(s, true)
    ensures StepState(Vt500, s, 27) ==
      State(ESCAPE, 0, ZERO_PARAMS, if Ended(s, true) == [] then s.precedingCodepoint else 0)
  {
  }

  /** What the letters behind ESC introduce, and the code points above 127 that stand for both. */
  lemma Introducers(s: State)
    ensures s.state == ESCAPE ==>
      && StepState(Vt500, s, 91) == State(CSI_ENTRY, 0, ZERO_PARAMS, s.precedingCodepoint)
      && StepEvents(Vt500, s, 91) == []
      && StepState(Vt500, s, 80) == State(DCS_ENTRY, 0, ZERO_PARAMS, s.precedingCodepoint)
      && StepEvents(Vt500, s, 80) == []
    ensures s.state <= DCS_PASSTHROUGH ==>
      && StepState(Vt500, s, 155) == State(CSI_ENTRY, 0, ZERO_PARAMS, s.precedingCodepoint)
      && StepEvents(Vt500, s, 155) == []
      && StepState(Vt500, s, 144) == State(DCS_ENTRY, 0, ZERO_PARAMS, s.precedingCodepoint)
      && StepEvents(Vt500, s, 144) == []
  {
  }

  lemma Skippers(s: State)
    ensures forall c :: s.state == ESCAPE && (c == 88 || c == 94 || c == 95) ==>
      StepState(Vt500, s, c) == s.(state := SOS_PM_APC_STRING) && StepEvents(Vt500, s, c) == []
    ensures forall c :: s.state <= DCS_PASSTHROUGH && (c == 152 || c == 158 || c == 159) ==>
      StepState(Vt500, s, c) == s.(state := SOS_PM_APC_STRING) && StepEvents(Vt500, s, c) == []
  {
  }

  /** A sequence is introduced by ESC and a letter, or by one code point above 127. */
  lemma Introduced(s: State, letter: nat, c1: nat, next: nat) returns (p: nat, q: nat)
    requires s.state <= DCS_PASSTHROUGH && ((letter == 91 && c1 == 155 && next == CSI_ENTRY)
                                            || (letter == 80 && c1 == 144 && next == DCS_ENTRY))
    ensures Takes(s, [27, letter], State(next, 0, ZERO_PARAMS, p), Ended(s, true))
    ensures Takes(s, [c1], State(next, 0, ZERO_PARAMS, q), [])
  {
    hide Takes, StepState, StepEvents;
    Escaped(s);
    p, q := if Ended(s, true) == [] then s.precedingCodepoint else 0, s.precedingCodepoint;
    Introducers(State(ESCAPE, 0, ZERO_PARAMS, p));
    Introducers(s);
    TakesQuietly(s, [27], State(ESCAPE, 0, ZERO_PARAMS, p), Ended(s, true), letter);
    assert [27] + [letter] == [27, letter];
    TakesOne(s, c1);
  }

  // ----- parameters and collected bytes

  function CollectedFrom(a: int, bytes: seq<nat>): int {
    if bytes == [] then a else Shift8Or(CollectedFrom(a, bytes[..|bytes| - 1]), bytes[|bytes| - 1])
  }

  function ParamsFrom(p: Params, bytes: seq<nat>): Params {
    if bytes == [] then p else ParamStep(ParamsFrom(p, bytes[..|bytes| - 1]), bytes[|bytes| - 1])
  }

  lemma {:induction false} CollectedConcat(a: int, x: seq<nat>, y: seq<nat>)
    ensures CollectedFrom(a, x + y) == CollectedFrom(CollectedFrom(a, x), y)
  {
    if y == [] {
      assert x + y == x;
    } else {
      assert (x + y)[..|x + y| - 1] == x + y[..|y| - 1];
      CollectedConcat(a, x, y[..|y| - 1]);
    }
  }

  lemma {:induction false} ParamsConcat(p: Params, x: seq<nat>, y: seq<nat>)
    ensures ParamsFrom(p, x + y) == ParamsFrom(ParamsFrom(p, x), y)
  {
    if y == [] {
      assert x + y == x;
    } else {
      assert (x + y)[..|x + y| - 1] == x + y[..|y| - 1];
      ParamsConcat(p, x, y[..|y| - 1]);
    }
  }

  lemma {:induction false} ParamBytes(s: State, bytes: seq<nat>)
    requires (s.state == CSI_PARAM || s.state == DCS_PARAM) && Between(bytes, 48, 60)
    ensures Takes(s, bytes, s.(params := ParamsFrom(s.params, bytes)), [])
  {
    hide ParamStep, Takes;
    TakesNothing(s);
    if bytes != [] {
      var front, c := bytes[..|bytes| - 1], bytes[|bytes| - 1];
      ParamBytes(s, front);
      TakesQuietly(s, front, s.(params := ParamsFrom(s.params, front)), [], c);
      assert front + [c] == bytes;
    }
  }

  lemma {:induction false} CollectBytes(s: State, bytes: seq<nat>)
    requires s.state == CSI_INTERMEDIATE || s.state == DCS_INTERMEDIATE || s.state == ESCAPE_INTERMEDIATE
    requires Between(bytes, 32, 48)
    ensures Takes(s, bytes, s.(collect := CollectedFrom(s.collect, bytes)), [])
  {
    hide Shift8Or, Takes;
    TakesNothing(s);
    if bytes != [] {
      var front, c := bytes[..|bytes| - 1], bytes[|bytes| - 1];
      CollectBytes(s, front);
      TakesQuietly(s, front, s.(collect := CollectedFrom(s.collect, front)), [], c);
      assert front + [c] == bytes;
    }
  }

  /** The states before, within and behind the parameters of a control sequence or a device control string. */
  predicate InHeader(entry: nat, state: nat) {
    if entry == CSI_ENTRY then state == CSI_ENTRY || state == CSI_PARAM || state == CSI_INTERMEDIATE
    else entry == DCS_ENTRY && (state == DCS_ENTRY || state == DCS_PARAM || state == DCS_INTERMEDIATE)
  }

  lemma FirstParam(s: State, bytes: seq<nat>)
    requires (s.state == CSI_ENTRY || s.state == DCS_ENTRY) && bytes != [] && Between(bytes, 48, 60)
    ensures
      var next := if s.state == CSI_ENTRY then CSI_PARAM else DCS_PARAM;
      Takes(s, bytes, s.(state := next, params := ParamsFrom(s.params, bytes)), [])
  {
    hide ParamStep, Takes, ParamsFrom;
    var c, rest := bytes[0], bytes[1..];
    var next := if s.state == CSI_ENTRY then CSI_PARAM else DCS_PARAM;
    TakesOne(s, c);
    var t := s.(state := next, params := ParamStep(s.params, c));
    ParamBytes(t, rest);
    TakesNoMore(s, [c], t, [], rest, t.(params := ParamsFrom(t.params, rest)));
    OneParam(s.params, c);
    ParamsConcat(s.params, [c], rest);
    assert [c] + rest == bytes;
  }

  lemma OneParam(p: Params, c: nat)
    ensures ParamsFrom(p, [c]) == ParamStep(p, c) && CollectedFrom(0, [c]) == Shift8Or(0, c)
  {
    assert [c][..0] == [];
  }

  /** At most one private prefix byte and then parameters. */
  lemma PrefixAndParams(s: State, prefix: seq<nat>, params: seq<nat>) returns (state: nat)
    requires (s.state == CSI_ENTRY || s.state == DCS_ENTRY) && s.collect == 0
    requires |prefix| <= 1 && Between(prefix, 60, 64) && Between(params, 48, 60)
    ensures InHeader(s.state, state) && state != CSI_INTERMEDIATE && state != DCS_INTERMEDIATE
    ensures Takes(s, prefix + params,
                  State(state, CollectedFrom(0, prefix), ParamsFrom(s.params, params), s.precedingCodepoint), [])
  {
    hide ParamStep, Takes, ParamsFrom, Shift8Or;
    if prefix == [] {
      assert prefix + params == params;
      if params == [] {
        TakesNothing(s);
        NoParams(s.params);
        state := s.state;
      } else {
        FirstParam(s, params);
        state := if s.state == CSI_ENTRY then CSI_PARAM else DCS_PARAM;
      }
    } else {
      state := if s.state == CSI_ENTRY then CSI_PARAM else DCS_PARAM;
      assert prefix == [prefix[0]] && prefix[0] in prefix;
      TakesOne(s, prefix[0]);
      OneParam(s.params, prefix[0]);
      var t := s.(state := state, collect := CollectedFrom(0, prefix));
      ParamBytes(t, params);
      TakesNoMore(s, prefix, t, [], params, t.(params := ParamsFrom(t.params, params)));
    }
  }

  lemma NoParams(p: Params)
    ensures ParamsFrom(p, []) == p
  {
  }

  /** Intermediate bytes behind the parameters. */
  lemma Intermediates(s: State, entry: nat, bytes: seq<nat>) returns (state: nat)
    requires (entry == CSI_ENTRY || entry == DCS_ENTRY) && InHeader(entry, s.state)
    requires Between(bytes, 32, 48)
    ensures InHeader(entry, state)
    ensures if bytes == [] then state == s.state
            else state == if entry == CSI_ENTRY then CSI_INTERMEDIATE else DCS_INTERMEDIATE
    ensures Takes(s, bytes, State(state, CollectedFrom(s.collect, bytes), s.params, s.precedingCodepoint), [])
  {
    hide Takes, Shift8Or, CollectedFrom;
    if bytes == [] {
      TakesNothing(s);
      NoneCollected(s.collect);
      state := s.state;
    } else {
      state := if entry == CSI_ENTRY then CSI_INTERMEDIATE else DCS_INTERMEDIATE;
      var c, rest := bytes[0], bytes[1..];
      TakesOne(s, c);
      var t := s.(state := state, collect := Shift8Or(s.collect, c));
      CollectBytes(t, rest);
      TakesNoMore(s, [c], t, [], rest, t.(collect := CollectedFrom(t.collect, rest)));
      OneCollected(s.collect, c);
      CollectedConcat(s.collect, [c], rest);
      assert [c] + rest == bytes;
    }
  }

  lemma NoneCollected(a: int)
    ensures CollectedFrom(a, []) == a
  {
  }

  lemma OneCollected(a: int, c: nat)
    ensures CollectedFrom(a, [c]) == Shift8Or(a, c)
  {
    assert [c][..0] == [];
  }

  /** Everything between introducer and final byte: nothing is reported, the bytes are remembered. */
  lemma Header(s: State, prefix: seq<nat>, params: seq<nat>, inter: seq<nat>) returns (state: nat)
    requires (s.state == CSI_ENTRY || s.state == DCS_ENTRY) && s.collect == 0 && s.params == ZERO_PARAMS
    requires |prefix| <= 1 && Between(prefix, 60, 64) && Between(params, 48, 60) && Between(inter, 32, 48)
    ensures InHeader(s.state, state)
    ensures
      var t := State(state, CollectedFrom(0, prefix + inter), ParamsFrom(ZERO_PARAMS, params), s.precedingCodepoint);
      Takes(s, prefix + params + inter, t, [])
  {
    hide Takes, CollectedFrom, ParamsFrom;
    var mid := PrefixAndParams(s, prefix, params);
    var t := State(mid, CollectedFrom(0, prefix), ParamsFrom(ZERO_PARAMS, params), s.precedingCodepoint);
    state := Intermediates(t, s.state, inter);
    CollectedConcat(0, prefix, inter);
    TakesNoMore(s, prefix + params, t, [], inter,
                State(state, CollectedFrom(0, prefix + inter), ParamsFrom(ZERO_PARAMS, params), s.precedingCodepoint));
  }

  // ----- control sequences

  predicate WellFormed(prefix: seq<nat>, params: seq<nat>, inter: seq<nat>, final: nat) {
    && |prefix| <= 1 && Between(prefix, 60, 64) && Between(params, 48, 60) && Between(inter, 32, 48)
    && 64 <= final < 127
  }

  /** A control sequence, introduced by ESC [ or by 155, in whatever state the parser is: exactly one report, with the
      collected bytes and the parameters of this sequence only; a string that it interrupts with its ESC ends. */
  lemma ControlSequence(s: State, prefix: seq<nat>, params: seq<nat>, inter: seq<nat>, final: nat)
    requires s.state <= DCS_PASSTHROUGH && WellFormed(prefix, params, inter, final)
    ensures
      var body := prefix + params + inter + [final];
      var t := State(GROUND, CollectedFrom(0, prefix + inter), ParamsFrom(ZERO_PARAMS, params), 0);
      var report := [Csi(CollectedFrom(0, prefix + inter + [final]), ParamsFrom(ZERO_PARAMS, params))];
      && Takes(s, [27, 91] + body, t, Ended(s, true) + report)
      && Takes(s, [155] + body, t, report)
  {
    hide Takes, ParamsFrom, CollectedFrom;
    var p, q := Introduced(s, 91, 155, CSI_ENTRY);
    CsiBody(State(CSI_ENTRY, 0, ZERO_PARAMS, p), prefix, params, inter, final);
    CsiBody(State(CSI_ENTRY, 0, ZERO_PARAMS, q), prefix, params, inter, final);
    var body := prefix + params + inter + [final];
    var t := State(GROUND, CollectedFrom(0, prefix + inter), ParamsFrom(ZERO_PARAMS, params), 0);
    var report := [Csi(CollectedFrom(0, prefix + inter + [final]), ParamsFrom(ZERO_PARAMS, params))];
    TakesThen(s, [27, 91], State(CSI_ENTRY, 0, ZERO_PARAMS, p), Ended(s, true), body, t, report);
    TakesThen(s, [155], State(CSI_ENTRY, 0, ZERO_PARAMS, q), [], body, t, report);
    assert [] + report == report;
  }

  lemma CsiBody(s: State, prefix: seq<nat>, params: seq<nat>, inter: seq<nat>, final: nat)
    requires s.state == CSI_ENTRY && s.collect == 0 && s.params == ZERO_PARAMS
    requires WellFormed(prefix, params, inter, final)
    ensures Takes(s, prefix + params + inter + [final],
                  State(GROUND, CollectedFrom(0, prefix + inter), ParamsFrom(ZERO_PARAMS, params), 0),
                  [Csi(CollectedFrom(0, prefix + inter + [final]), ParamsFrom(ZERO_PARAMS, params))])
  {
    hide Takes, ParamsFrom, CollectedFrom, Shift8Or;
    var state := Header(s, prefix, params, inter);
    var a, ps := CollectedFrom(0, prefix + inter), ParamsFrom(ZERO_PARAMS, params);
    TakesMore(s, prefix + params + inter, State(state, a, ps, s.precedingCodepoint), [], final);
    OneCollected(a, final);
    CollectedConcat(0, prefix + inter, [final]);
    assert [] + [Csi(Shift8Or(a, final), ps)] == [Csi(Shift8Or(a, final), ps)];
  }

  /** A parameter byte behind an intermediate one, or a prefix byte behind a parameter: the sequence is skipped up to
      its final byte and nothing is reported. */
  lemma Malformed(s: State, inter: seq<nat>, wrong: nat, rest: seq<nat>, final: nat)
    requires s.state == CSI_ENTRY || s.state == CSI_PARAM
    requires Between(inter, 32, 48) && 48 <= wrong < 64 && Between(rest, 32, 64) && 64 <= final < 127
    requires inter != [] || (s.state == CSI_PARAM && 60 <= wrong)
    ensures TableRun(Vt500, s, inter + [wrong] + rest + [final]).s.state == GROUND
    ensures TableRun(Vt500, s, inter + [wrong] + rest + [final]).events == []
  {
    hide CollectedFrom, Shift8Or, StepState, StepEvents, TableRun;
    var state := Intermediates(s, CSI_ENTRY, inter);
    NoneCollected(s.collect);
    var t := State(state, CollectedFrom(s.collect, inter), s.params, s.precedingCodepoint);
    WrongByte(t, wrong);
    TakesQuietly(s, inter, t, [], wrong);
    var u := t.(state := CSI_IGNORE);
    Skipped(u, rest);
    LastSkipped(u, final);
    TakesNoMore(s, inter + [wrong], u, [], rest, u);
    TakesQuietly(s, inter + [wrong] + rest, u, [], final);
  }

  lemma WrongByte(s: State, c: nat)
    requires (s.state == CSI_INTERMEDIATE && 48 <= c < 64) || (s.state == CSI_PARAM && 60 <= c < 64)
    ensures StepState(Vt500, s, c) == s.(state := CSI_IGNORE) && StepEvents(Vt500, s, c) == []
  {
  }

  lemma LastSkipped(s: State, c: nat)
    requires s.state == CSI_IGNORE && 64 <= c < 127
    ensures StepState(Vt500, s, c) == s.(state := GROUND) && StepEvents(Vt500, s, c) == []
  {
  }

  lemma {:induction false} Skipped(s: State, bytes: seq<nat>)
    requires s.state == CSI_IGNORE && Between(bytes, 32, 64)
    ensures Takes(s, bytes, s, [])
  {
    hide Takes;
    TakesNothing(s);
    if bytes != [] {
      var front, c := bytes[..|bytes| - 1], bytes[|bytes| - 1];
      Skipped(s, front);
      TakesQuietly(s, front, s, [], c);
      assert front + [c] == bytes;
    }
  }

  // ----- escape sequences

  /** Letters behind ESC that introduce something longer. */
  predicate Introducer(c: nat) { c == 80 || c == 88 || c == 91 || 93 <= c <= 95 }

  /** An escape sequence, in whatever state the parser is: one report. */
  lemma EscapeSequence(s: State, inter: seq<nat>, final: nat)
    requires s.state <= DCS_PASSTHROUGH && Between(inter, 32, 48) && 48 <= final < 127
    requires inter == [] ==> !Introducer(final)
    ensures Takes(s, [27] + inter + [final], State(GROUND, CollectedFrom(0, inter), ZERO_PARAMS, 0),
                  Ended(s, true) + [Esc(CollectedFrom(0, inter + [final]))])
  {
    hide Takes, CollectedFrom, Shift8Or;
    Escaped(s);
    var p := if Ended(s, true) == [] then s.precedingCodepoint else 0;
    var t := State(ESCAPE, 0, ZERO_PARAMS, p);
    var u := t;
    if inter == [] {
      NoneCollected(0);
      TakesNothing(t);
    } else {
      u := State(ESCAPE_INTERMEDIATE, CollectedFrom(0, inter), ZERO_PARAMS, p);
      var c, rest := inter[0], inter[1..];
      TakesOne(t, c);
      var v := t.(state := ESCAPE_INTERMEDIATE, collect := Shift8Or(0, c));
      CollectBytes(v, rest);
      OneCollected(0, c);
      CollectedConcat(0, [c], rest);
      TakesNoMore(t, [c], v, [], rest, v.(collect := CollectedFrom(v.collect, rest)));
      assert [c] + rest == inter;
    }
    TakesNoMore(s, [27], t, Ended(s, true), inter, u);
    TakesMore(s, [27] + inter, u, Ended(s, true), final);
    OneCollected(CollectedFrom(0, inter), final);
    CollectedConcat(0, inter, [final]);
  }

  // ----- operating system commands

  /** A code point that an operating system command may hold: data, or a control character that is dropped. */
  predicate OscPart(c: nat) { OscByte(c) || (c < 24 && c != 7) || c == 25 || 28 <= c < 32 }

  predicate OscByte(c: nat) { 32 <= c <= 127 || c >= NON_ASCII }

  function OscPuts(codes: seq<nat>): seq<Event> {
    if codes == [] then []
    else
      OscPuts(codes[..|codes| - 1])
      + if OscByte(codes[|codes| - 1]) then [Event.OscPut([codes[|codes| - 1]])] else []
  }

  lemma {:induction false} OscBytes(s: State, codes: seq<nat>)
    requires s.state == OSC_STRING && forall c :: c in codes ==> OscPart(c)
    ensures Takes(s, codes, s, OscPuts(codes))
  {
    hide Takes;
    TakesNothing(s);
    if codes != [] {
      var front, c := codes[..|codes| - 1], codes[|codes| - 1];
      OscBytes(s, front);
      TakesMore(s, front, s, OscPuts(front), c);
      assert front + [c] == codes;
      OscOne(s, c);
    }
  }

  lemma OscOne(s: State, c: nat)
    requires s.state == OSC_STRING && OscPart(c)
    ensures StepState(Vt500, s, c) == s
    ensures StepEvents(Vt500, s, c) == if OscByte(c) then [Event.OscPut([c])] else []
  {
  }

  predicate OscTerminator(c: nat) { c == 7 || c == 24 || c == 26 || c == 27 || c == 156 }

  /** An operating system command, introduced by ESC ] or by 157: start, data and end are reported, the end as a failure
      if the terminator is CAN or SUB. Behind an ESC the parser goes on with an escape sequence. */
  lemma OscString(s: State, codes: seq<nat>, end: nat)
    requires s.state <= DCS_PASSTHROUGH && (forall c :: c in codes ==> OscPart(c)) && OscTerminator(end)
    ensures
      var t := State(if end == 27 then ESCAPE else GROUND, 0, ZERO_PARAMS, 0);
      var reports := [Event.OscStart] + OscPuts(codes) + [Event.OscEnd(end != 24 && end != 26)];
      && Takes(s, [27, 93] + codes + [end], t, Ended(s, true) + reports)
      && Takes(s, [157] + codes + [end], t, reports)
  {
    hide Takes, OscPuts, OscTerminator;
    Escaped(s);
    var p := if Ended(s, true) == [] then s.precedingCodepoint else 0;
    var t := State(ESCAPE, 0, ZERO_PARAMS, p);
    TakesMore(s, [27], t, Ended(s, true), 93);
    assert [27] + [93] == [27, 93];
    OscRest(s, [27, 93], t.(state := OSC_STRING), Ended(s, true) + [Event.OscStart], codes, end);
    TakesOne(s, 157);
    OscRest(s, [157], s.(state := OSC_STRING), [Event.OscStart], codes, end);
    var reports := [Event.OscStart] + OscPuts(codes) + [Event.OscEnd(end != 24 && end != 26)];
    assert Ended(s, true) + [Event.OscStart] + OscPuts(codes) + [Event.OscEnd(end != 24 && end != 26)]
        == Ended(s, true) + reports;
  }

  lemma OscRest(s: State, intro: seq<nat>, t: State, e: seq<Event>, codes: seq<nat>, end: nat)
    requires Takes(s, intro, t, e) && t.state == OSC_STRING
    requires (forall c :: c in codes ==> OscPart(c)) && OscTerminator(end)
    ensures Takes(s, intro + codes + [end], State(if end == 27 then ESCAPE else GROUND, 0, ZERO_PARAMS, 0),
                  e + OscPuts(codes) + [Event.OscEnd(end != 24 && end != 26)])
  {
    hide Takes, OscPuts;
    OscBytes(t, codes);
    TakesThen(s, intro, t, e, codes, t, OscPuts(codes));
    TakesMore(s, intro + codes, t, e + OscPuts(codes), end);
  }

  // ----- device control strings

  predicate DcsPart(c: nat) { DcsByte(c) || c == 127 }

  predicate DcsByte(c: nat) { Printable(c) || Executable(c) || c >= NON_ASCII }

  function Puts(codes: seq<nat>): seq<Event> {
    if codes == [] then []
    else Puts(codes[..|codes| - 1]) + if DcsByte(codes[|codes| - 1]) then [Put([codes[|codes| - 1]])] else []
  }

  lemma {:induction false} DcsBytes(s: State, codes: seq<nat>)
    requires s.state == DCS_PASSTHROUGH && forall c :: c in codes ==> DcsPart(c)
    ensures Takes(s, codes, s, Puts(codes))
  {
    hide Takes;
    TakesNothing(s);
    if codes != [] {
      var front, c := codes[..|codes| - 1], codes[|codes| - 1];
      DcsBytes(s, front);
      TakesMore(s, front, s, Puts(front), c);
      assert front + [c] == codes;
      DcsOne(s, c);
    }
  }

  lemma DcsOne(s: State, c: nat)
    requires s.state == DCS_PASSTHROUGH && DcsPart(c)
    ensures StepState(Vt500, s, c) == s
    ensures StepEvents(Vt500, s, c) == if DcsByte(c) then [Put([c])] else []
  {
  }

  predicate DcsTerminator(c: nat) { c == 24 || c == 26 || c == 27 || c == 156 }

  /** A device control string, introduced by ESC P or by 144: the hook with the collected bytes and parameters, the
      data, and the end are reported. */
  lemma DeviceControlString(
    s: State, prefix: seq<nat>, params: seq<nat>, inter: seq<nat>, final: nat, codes: seq<nat>, end: nat)
    requires s.state <= DCS_PASSTHROUGH && WellFormed(prefix, params, inter, final)
    requires (forall c :: c in codes ==> DcsPart(c)) && DcsTerminator(end)
    ensures
      var body := prefix + params + inter + [final] + codes + [end];
      var t := State(if end == 27 then ESCAPE else GROUND, 0, ZERO_PARAMS, 0);
      var reports := [Hook(CollectedFrom(0, prefix + inter + [final]), ParamsFrom(ZERO_PARAMS, params))]
                     + Puts(codes) + [Unhook(end != 24 && end != 26)];
      && Takes(s, [27, 80] + body, t, Ended(s, true) + reports)
      && Takes(s, [144] + body, t, reports)
  {
    hide Takes, ParamsFrom, CollectedFrom, Puts, DcsTerminator;
    var p, q := Introduced(s, 80, 144, DCS_ENTRY);
    DcsBody(State(DCS_ENTRY, 0, ZERO_PARAMS, p), prefix, params, inter, final, codes, end);
    DcsBody(State(DCS_ENTRY, 0, ZERO_PARAMS, q), prefix, params, inter, final, codes, end);
    var body := prefix + params + inter + [final] + codes + [end];
    var t := State(if end == 27 then ESCAPE else GROUND, 0, ZERO_PARAMS, 0);
    var reports := [Hook(CollectedFrom(0, prefix + inter + [final]), ParamsFrom(ZERO_PARAMS, params))]
                   + Puts(codes) + [Unhook(end != 24 && end != 26)];
    TakesThen(s, [27, 80], State(DCS_ENTRY, 0, ZERO_PARAMS, p), Ended(s, true), body, t, reports);
    TakesThen(s, [144], State(DCS_ENTRY, 0, ZERO_PARAMS, q), [], body, t, reports);
    assert [] + reports == reports;
  }

  lemma DcsBody(s: State, prefix: seq<nat>, params: seq<nat>, inter: seq<nat>, final: nat, codes: seq<nat>, end: nat)
    requires s.state == DCS_ENTRY && s.collect == 0 && s.params == ZERO_PARAMS
    requires WellFormed(prefix, params, inter, final)
    requires (forall c :: c in codes ==> DcsPart(c)) && DcsTerminator(end)
    ensures Takes(s, prefix + params + inter + [final] + codes + [end],
                  State(if end == 27 then ESCAPE else GROUND, 0, ZERO_PARAMS, 0),
                  [Hook(CollectedFrom(0, prefix + inter + [final]), ParamsFrom(ZERO_PARAMS, params))]
                  + Puts(codes) + [Unhook(end != 24 && end != 26)])
  {
    hide Takes, ParamsFrom, CollectedFrom, Shift8Or, Puts;
    var state := Header(s, prefix, params, inter);
    var a, ps := CollectedFrom(0, prefix + inter), ParamsFrom(ZERO_PARAMS, params);
    var head := prefix + params + inter;
    TakesMore(s, head, State(state, a, ps, s.precedingCodepoint), [], final);
    OneCollected(a, final);
    CollectedConcat(0, prefix + inter, [final]);
    var hook := [Hook(Shift8Or(a, final), ps)];
    assert [] + hook == hook;
    var t := State(DCS_PASSTHROUGH, a, ps, s.precedingCodepoint);
    DcsBytes(t, codes);
    TakesThen(s, head + [final], t, hook, codes, t, Puts(codes));
    TakesMore(s, head + [final] + codes, t, hook + Puts(codes), end);
  }

  /** The same errors in the header of a device control string: it is skipped without a report, up to 156. */
  lemma MalformedString(s: State, inter: seq<nat>, wrong: nat, rest: seq<nat>)
    requires s.state == DCS_ENTRY || s.state == DCS_PARAM
    requires Between(inter, 32, 48) && 48 <= wrong < 64
    requires forall c :: c in rest ==> DcsPart(c)
    requires inter != [] || (s.state == DCS_PARAM && 60 <= wrong)
    ensures TableRun(Vt500, s, inter + [wrong] + rest + [156]).s.state == GROUND
    ensures TableRun(Vt500, s, inter + [wrong] + rest + [156]).events == []
  {
    hide CollectedFrom, Shift8Or, StepState, StepEvents, TableRun;
    var state := Intermediates(s, DCS_ENTRY, inter);
    NoneCollected(s.collect);
    var t := State(state, CollectedFrom(s.collect, inter), s.params, s.precedingCodepoint);
    var u := t.(state := DCS_IGNORE);
    IgnoredBytes(t, wrong);
    TakesQuietly(s, inter, t, [], wrong);
    IgnoredAll(u, rest);
    TakesNoMore(s, inter + [wrong], u, [], rest, u);
    IgnoredBytes(u, 156);
    TakesQuietly(s, inter + [wrong] + rest, u, [], 156);
  }

  lemma IgnoredBytes(s: State, c: nat)
    ensures (s.state == DCS_INTERMEDIATE && 48 <= c < 64) || (s.state == DCS_PARAM && 60 <= c < 64) ==>
      StepState(Vt500, s, c) == s.(state := DCS_IGNORE) && StepEvents(Vt500, s, c) == []
    ensures s.state == DCS_IGNORE && DcsPart(c) ==> StepState(Vt500, s, c) == s && StepEvents(Vt500, s, c) == []
    ensures s.state == DCS_IGNORE && c == 156 ==>
      StepState(Vt500, s, c) == s.(state := GROUND) && StepEvents(Vt500, s, c) == []
  {
  }

  lemma {:induction false} IgnoredAll(s: State, codes: seq<nat>)
    requires s.state == DCS_IGNORE && forall c :: c in codes ==> DcsPart(c)
    ensures Takes(s, codes, s, [])
  {
    hide Takes, StepState, StepEvents;
    TakesNothing(s);
    if codes != [] {
      var front, c := codes[..|codes| - 1], codes[|codes| - 1];
      IgnoredAll(s, front);
      assert c in codes;
      IgnoredBytes(s, c);
      TakesQuietly(s, front, s, [], c);
      assert front + [c] == codes;
    }
  }

  // ----- strings that are skipped

  /** ESC X, ESC ^, ESC _ and 152, 158, 159 introduce strings that are skipped without any report, up to 156. */
  lemma SkippedString(s: State, intro: nat, c1: nat, codes: seq<nat>)
    requires s.state <= DCS_PASSTHROUGH && (forall c :: c in codes ==> Printable(c) || Executable(c) || c == 127)
    requires (intro == 88 && c1 == 152) || (intro == 94 && c1 == 158) || (intro == 95 && c1 == 159)
    ensures TableRun(Vt500, s, [27, intro] + codes + [156]).s.state == GROUND
    ensures TableRun(Vt500, s, [27, intro] + codes + [156]).events == Ended(s, true)
    ensures TableRun(Vt500, s, [c1] + codes + [156]).s.state == GROUND
    ensures TableRun(Vt500, s, [c1] + codes + [156]).events == []
  {
    hide StepState, StepEvents, TableRun;
    Escaped(s);
    var p := if Ended(s, true) == [] then s.precedingCodepoint else 0;
    var t := State(ESCAPE, 0, ZERO_PARAMS, p);
    Skippers(t);
    Skippers(s);
    TakesQuietly(s, [27], t, Ended(s, true), intro);
    assert [27] + [intro] == [27, intro];
    SkipRest(s, [27, intro], t.(state := SOS_PM_APC_STRING), Ended(s, true), codes);
    TakesOne(s, c1);
    SkipRest(s, [c1], s.(state := SOS_PM_APC_STRING), [], codes);
  }

  lemma SkipRest(s: State, intro: seq<nat>, t: State, e: seq<Event>, codes: seq<nat>)
    requires Takes(s, intro, t, e) && t.state == SOS_PM_APC_STRING
    requires forall c :: c in codes ==> Printable(c) || Executable(c) || c == 127
    ensures Takes(s, intro + codes + [156], t.(state := GROUND), e)
  {
    hide Takes;
    SkipAll(t, codes);
    TakesNoMore(s, intro, t, e, codes, t);
    TakesMore(s, intro + codes, t, e, 156);
    assert e + [] == e;
  }

  lemma {:induction false} SkipAll(s: State, codes: seq<nat>)
    requires s.state == SOS_PM_APC_STRING && forall c :: c in codes ==> Printable(c) || Executable(c) || c == 127
    ensures Takes(s, codes, s, [])
  {
    hide Takes;
    TakesNothing(s);
    if codes != [] {
      var front, c := codes[..|codes| - 1], codes[|codes| - 1];
      SkipAll(s, front);
      assert c in codes;
      TakesQuietly(s, front, s, [], c);
      assert front + [c] == codes;
    }
  }

  // ----- text and single controls

  function Printed(codes: seq<nat>): seq<Event> { seq(|codes|, i requires 0 <= i < |codes| => Event.Print([codes[i]])) }

  /** Text is printed, and leaves the parser as it is. */
  lemma {:induction false} Text(s: State, codes: seq<nat>)
    requires s.state == GROUND && forall c :: c in codes ==> Printable(c) || c >= NON_ASCII
    ensures Takes(s, codes, s, Printed(codes))
  {
    hide Takes;
    if codes == [] {
      TakesNothing(s);
      assert Printed(codes) == [];
    } else {
      var front, c := codes[..|codes| - 1], codes[|codes| - 1];
      Text(s, front);
      TextOne(s, c);
      TakesMore(s, front, s, Printed(front), c);
      assert front + [c] == codes && Printed(codes) == Printed(front) + [Event.Print([c])];
    }
  }

  lemma TextOne(s: State, c: nat)
    requires s.state == GROUND && (Printable(c) || c >= NON_ASCII)
    ensures StepState(Vt500, s, c) == s && StepEvents(Vt500, s, c) == [Event.Print([c])]
  {
  }

  /** Control characters inside an escape or control sequence are executed at once, DEL is dropped, and both leave the
      sequence as it is; in the header of a device control string they are dropped. */
  lemma ControlsWithin(s: State, c: nat)
    requires Executable(c) || c == 127
    ensures GROUND <= s.state <= CSI_IGNORE && Executable(c) ==>
      StepEvents(Vt500, s, c) == [Event.Execute(c)] && StepState(Vt500, s, c) == s.(precedingCodepoint := 0)
    ensures (ESCAPE <= s.state <= CSI_IGNORE && c == 127) || DCS_ENTRY <= s.state <= DCS_INTERMEDIATE ==>
      StepEvents(Vt500, s, c) == [] && StepState(Vt500, s, c) == s
    ensures s.state == GROUND && c == 127 ==>
      StepEvents(Vt500, s, c) == [Event.Error(c, GROUND, s.collect, s.params)] && StepState(Vt500, s, c) == s
  {
  }

  /** CAN and SUB end whatever there is: a string fails, anything else is cut off and the control is executed. */
  lemma Cancelled(s: State, c: nat)
    requires s.state <= DCS_PASSTHROUGH && (c == 24 || c == 26)
    ensures StepState(Vt500, s, c).state == GROUND && StepState(Vt500, s, c).precedingCodepoint == 0
    ensures StepEvents(Vt500, s, c) == if Ended(s, false) == [] then [Event.Execute(c)] else Ended(s, false)
  {
  }

  /** The other controls above 127 are executed in every state; 156 ends what it ends and is dropped otherwise. */
  lemma HighControls(s: State, c: nat)
    requires s.state <= DCS_PASSTHROUGH
    requires 128 <= c < 152 || c == 153 || c == 154 || c == 156
    ensures c != 144 ==> StepState(Vt500, s, c).state == GROUND
    ensures c != 144 && c != 156 ==>
      StepEvents(Vt500, s, c) == [Event.Execute(c)] && StepState(Vt500, s, c).precedingCodepoint == 0
    ensures c == 156 ==> StepEvents(Vt500, s, c) == Ended(s, true)
  {
  }

  /** Code points from 160 on are text or data; a sequence that is skipped drops them, any other reports an error. */
  lemma HighCodes(s: State, c: nat)
    requires s.state <= DCS_PASSTHROUGH && c >= NON_ASCII
    ensures
      var dropped := s.state == CSI_IGNORE || s.state == DCS_IGNORE;
      var kept := s.state == GROUND || s.state == OSC_STRING || s.state == DCS_PASSTHROUGH;
      && StepState(Vt500, s, c) == (if kept || dropped then s else s.(state := GROUND))
      && StepEvents(Vt500, s, c) ==
        if s.state == GROUND then [Event.Print([c])]
        else if s.state == OSC_STRING then [Event.OscPut([c])]
        else if s.state == DCS_PASSTHROUGH then [Put([c])]
        else if dropped then []
        else [Event.Error(c, s.state, s.collect, s.params)]
  {
  }

  // ----- the parser

  /** On code points without DEL, one call of the parser reports what the table does, so all of the above holds of
      it. */
  lemma ParserTakes(s: State, codes: seq<nat>, t: State, events: seq<Event>)
    requires Takes(s, codes, t, events) && 127 !in codes
    ensures ChunkRun(Vt500, s, codes).s == t && ChunkRun(Vt500, s, codes).events == events
  {
    hide Vt500, TableRun, ChunkRun;
    Vt500BatchSafe();
    BatchedIffNoDelInBatch(Vt500, s, codes);
    NoDelAtAll(s, codes);
  }

  lemma NoDelAtAll(s: State, codes: seq<nat>)
    requires 127 !in codes
    ensures !PutsDel(Vt500, s, codes)
  {
    hide DataAt;
  }
}
