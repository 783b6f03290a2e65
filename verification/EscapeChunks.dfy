/** What the batches of the parser and the cutting of its input into chunks can
    and cannot change. */
module EscapeChunks {
  import opened EscapeTable
  import opened EscapeParsing

  // ----- batches against the table

  /** The table takes the code point at i for device control data. */
  predicate DataAt(tr: Table, s: State, codes: seq<nat>, i: nat)
    requires i < |codes|
  {
    Lookup(tr, TableRun(tr, s, codes[..i]).s.state, codes[i]).action == DcsPut
  }

  /** Some DEL directly follows device control data, by the table. */
  ghost predicate PutsDel(tr: Table, s: State, codes: seq<nat>) {
    exists i :: 0 <= i < |codes| - 1 && DataAt(tr, s, codes, i) && codes[i + 1] == 127
  }

  // The parser reads a DEL at i inside a batch of device control data.
  predicate DelTaken(tr: Table, s: State, codes: seq<nat>, i: nat)
    requires i < |codes|
  {
    codes[i] == 127 && ChunkRun(tr, s, codes[..i]).inPut
  }

  // How often it does.
  function PutDels(tr: Table, s: State, codes: seq<nat>): nat {
    if codes == [] then 0 else
    PutDels(tr, s, codes[..|codes| - 1]) + if DelTaken(tr, s, codes, |codes| - 1) then 1 else 0
  }

  /** Both machines pass through the same states, the batches only add puts. */
  lemma {:induction false} BatchesAgainstTable(tr: Table, s: State, codes: seq<nat>)
    requires BatchSafe(tr)
    ensures
      var b, t := ChunkRun(tr, s, codes), TableRun(tr, s, codes);
      && b.s == t.s
      && (b.inPut ==> Lookup(tr, b.s.state, 127) == Entry(Ignore, b.s.state))
      && |b.events| == |t.events| + PutDels(tr, s, codes)
      && (PutDels(tr, s, codes) == 0 ==> b.events == t.events)
  {
    hide Lookup;
    if codes != [] {
      var k := |codes| - 1;
      BatchesAgainstTable(tr, s, codes[..k]);
      var r := ChunkRun(tr, s, codes[..k]);
      assert codes == codes[..k + 1];
      ChunkSnoc(tr, s, codes, k);
      if r.inPut && codes[k] == 127 {
        assert StepState(tr, r.s, 127) == r.s && StepEvents(tr, r.s, 127) == [];
      }
    }
  }

  /** The parser is inside a batch exactly when the code point before is data, or a DEL taken for data. */
  lemma InPutIff(tr: Table, s: State, codes: seq<nat>, i: nat)
    requires BatchSafe(tr) && i < |codes|
    ensures ChunkRun(tr, s, codes[..i + 1]).inPut <==> DataAt(tr, s, codes, i) || DelTaken(tr, s, codes, i)
  {
    hide Lookup, BatchSafe, StepState, StepEvents;
    ChunkSnoc(tr, s, codes, i);
    BatchesAgainstTable(tr, s, codes[..i]);
  }

  /** A DEL that is taken for data has one in front of it that directly follows data, or does so itself. */
  lemma {:induction false} TakenPuts(tr: Table, s: State, codes: seq<nat>, i: nat)
    requires BatchSafe(tr) && i < |codes| && DelTaken(tr, s, codes, i)
    ensures PutsDel(tr, s, codes)
    decreases i
  {
    hide ChunkRun, BatchSafe, DataAt;
    NotInPutAtFirst(tr, s, codes);
    InPutIff(tr, s, codes, i - 1);
    if !DataAt(tr, s, codes, i - 1) {
      TakenPuts(tr, s, codes, i - 1);
    }
  }

  lemma NotInPutAtFirst(tr: Table, s: State, codes: seq<nat>)
    ensures !ChunkRun(tr, s, codes[..0]).inPut
  {
  }

  lemma {:induction false} NoneTaken(tr: Table, s: State, codes: seq<nat>, k: nat)
    requires k <= |codes|
    ensures PutDels(tr, s, codes[..k]) == 0 <==> forall i :: 0 <= i < k ==> !DelTaken(tr, s, codes, i)
  {
    hide ChunkRun;
    if k > 0 {
      NoneTaken(tr, s, codes, k - 1);
      assert codes[..k][..k - 1] == codes[..k - 1];
      assert DelTaken(tr, s, codes[..k], k - 1) == DelTaken(tr, s, codes, k - 1);
    }
  }

  lemma PutDelsCounts(tr: Table, s: State, codes: seq<nat>)
    requires BatchSafe(tr)
    ensures PutDels(tr, s, codes) == 0 <==> !PutsDel(tr, s, codes)
  {
    hide ChunkRun, BatchSafe, DataAt, PutDels;
    assert codes[..|codes|] == codes;
    NoneTaken(tr, s, codes, |codes|);
    forall i | 0 <= i < |codes| && DelTaken(tr, s, codes, i) ensures PutsDel(tr, s, codes) {
      TakenPuts(tr, s, codes, i);
    }
    if PutsDel(tr, s, codes) {
      var i :| 0 <= i < |codes| - 1 && DataAt(tr, s, codes, i) && codes[i + 1] == 127;
      InPutIff(tr, s, codes, i);
      assert DelTaken(tr, s, codes, i + 1);
    }
  }

  /** One call of the parser reports exactly what the table reports, one code
      point at a time, if and only if no DEL directly follows device control data. */
  lemma BatchedIffNoDelInBatch(tr: Table, s: State, codes: seq<nat>)
    requires BatchSafe(tr)
    ensures ChunkRun(tr, s, codes).s == TableRun(tr, s, codes).s
    ensures |ChunkRun(tr, s, codes).events| >= |TableRun(tr, s, codes).events|
    ensures ChunkRun(tr, s, codes).events == TableRun(tr, s, codes).events <==> !PutsDel(tr, s, codes)
    ensures |ChunkRun(tr, s, codes).events| == |TableRun(tr, s, codes).events| <==> !PutsDel(tr, s, codes)
  {
    BatchesAgainstTable(tr, s, codes);
    PutDelsCounts(tr, s, codes);
  }

  const AT_GROUND: State := State(GROUND, 0, ZERO_PARAMS, 0)
  const AT_ESCAPE: State := State(ESCAPE, 0, ZERO_PARAMS, 0)
  const AT_ENTRY: State := State(DCS_ENTRY, 0, ZERO_PARAMS, 0)
  const AT_DATA: State := State(DCS_PASSTHROUGH, 0, ZERO_PARAMS, 0)

  /** ESC P q A DEL, an input on which they differ: a DEL after one byte of control data. */
  lemma DelInBatchDiffers()
    ensures
      var s, codes := AT_GROUND, [27, 80, 113, 65, 127];
      && ChunkRun(Vt500, s, codes).events == [Hook(113, ZERO_PARAMS), Put([65]), Put([127])]
      && TableRun(Vt500, s, codes).events == [Hook(113, ZERO_PARAMS), Put([65])]
  {
    var codes := [27, 80, 113, 65, 127];
    HookAndData();
    assert codes[..4] == [27, 80, 113, 65];
    assert StepEvents(Vt500, AT_DATA, 127) == [];
  }

  /** One code point outside a batch, by table and by parser. */
  lemma BothStep(codes: seq<nat>, c: nat, s: State, r: State, e: seq<Event>)
    requires TableRun(Vt500, s, codes) == Run(r, false, e) && ChunkRun(Vt500, s, codes) == Run(r, false, e)
    ensures
      var r', e' := StepState(Vt500, r, c), e + StepEvents(Vt500, r, c);
      && TableRun(Vt500, s, codes + [c]) == Run(r', false, e')
      && ChunkRun(Vt500, s, codes + [c]) == Run(r', Lookup(Vt500, r.state, c).action == DcsPut, e')
  {
    hide Vt500, Lookup, StepState, StepEvents;
    assert (codes + [c])[..|codes|] == codes;
  }

  lemma HookSteps()
    ensures StepState(Vt500, AT_GROUND, 27) == AT_ESCAPE && StepEvents(Vt500, AT_GROUND, 27) == []
    ensures StepState(Vt500, AT_ESCAPE, 80) == AT_ENTRY && StepEvents(Vt500, AT_ESCAPE, 80) == []
    ensures StepState(Vt500, AT_ENTRY, 113) == AT_DATA
    ensures StepEvents(Vt500, AT_ENTRY, 113) == [Hook(113, ZERO_PARAMS)]
    ensures StepState(Vt500, AT_DATA, 65) == AT_DATA && StepEvents(Vt500, AT_DATA, 65) == [Put([65])]
    ensures Lookup(Vt500, GROUND, 27).action != DcsPut && Lookup(Vt500, ESCAPE, 80).action != DcsPut
    ensures Lookup(Vt500, DCS_ENTRY, 113).action != DcsPut && Lookup(Vt500, DCS_PASSTHROUGH, 65).action == DcsPut
  {
    assert Shift8Or(0, 113) == 113;
  }

  lemma HookAndData()
    ensures
      var codes, out := [27, 80, 113, 65], [Hook(113, ZERO_PARAMS), Put([65])];
      && ChunkRun(Vt500, AT_GROUND, codes) == Run(AT_DATA, true, out)
      && TableRun(Vt500, AT_GROUND, codes) == Run(AT_DATA, false, out)
  {
    hide TableRun, BatchRun, ChunkRun, StepState, StepEvents, Lookup, Vt500;
    HookSteps();
    NothingRun(AT_GROUND);
    assert [] + [27] == [27] && [27] + [80] == [27, 80] && [27, 80] + [113] == [27, 80, 113];
    assert [27, 80, 113] + [65] == [27, 80, 113, 65];
    BothStep([], 27, AT_GROUND, AT_GROUND, []);
    BothStep([27], 80, AT_GROUND, AT_ESCAPE, []);
    BothStep([27, 80], 113, AT_GROUND, AT_ENTRY, []);
    BothStep([27, 80, 113], 65, AT_GROUND, AT_DATA, [Hook(113, ZERO_PARAMS)]);
  }

  lemma NothingRun(s: State)
    ensures TableRun(Vt500, s, []) == Run(s, false, []) && ChunkRun(Vt500, s, []) == Run(s, false, [])
  {
  }

  // ----- cutting the input in two

  lemma {:induction false} BatchRunConcat(tr: Table, r: Run, a: seq<nat>, b: seq<nat>)
    ensures BatchRun(tr, r, a + b) == BatchRun(tr, BatchRun(tr, r, a), b)
  {
    if b == [] {
      assert a + b == a;
    } else {
      var k := |b| - 1;
      BatchRunConcat(tr, r, a, b[..k]);
      assert (a + b)[..|a| + k] == a + b[..k];
    }
  }

  /** The runs over the same code points that start inside and outside a batch. */
  ghost predicate InsideAgainstOutside(s: State, e: seq<Event>, i: Run, o: Run, codes: seq<nat>) {
    && i.s == o.s && (o.inPut ==> i.inPut)
    && (i.inPut && !o.inPut ==> o.s == s && forall k :: 0 <= k < |codes| ==> codes[k] == 127)
    && |i.events| >= |e| + |o.events|
    && ((codes != [] ==> codes[0] != 127) ==> i.events == e + o.events && (codes != [] ==> i.inPut == o.inPut))
    && (codes != [] && codes[0] == 127 ==> |i.events| > |e| + |o.events|)
  }

  lemma InsideStep(tr: Table, s: State, e: seq<Event>, i: Run, o: Run, front: seq<nat>, c: nat)
    requires Lookup(tr, s.state, 127) == Entry(Ignore, s.state) && InsideAgainstOutside(s, e, i, o, front)
    requires front == [] ==> i == Run(s, true, e) && o == Run(s, false, [])
    ensures InsideAgainstOutside(s, e, BatchStep(tr, i, c), BatchStep(tr, o, c), front + [c])
  {
    hide Lookup;
    if i.inPut && !o.inPut && c == 127 {
      assert StepState(tr, s, 127) == s && StepEvents(tr, s, 127) == [];
    }
  }

  /** Starting inside a batch instead of outside reports at least as much. */
  lemma {:induction false} InsideReportsMore(tr: Table, s: State, e: seq<Event>, codes: seq<nat>)
    requires Lookup(tr, s.state, 127) == Entry(Ignore, s.state)
    ensures InsideAgainstOutside(s, e, BatchRun(tr, Run(s, true, e), codes), ChunkRun(tr, s, codes), codes)
  {
    hide Lookup, InsideAgainstOutside, BatchStep;
    if codes == [] {
      InsideAtFirst(s, e);
    } else {
      var k := |codes| - 1;
      InsideReportsMore(tr, s, e, codes[..k]);
      assert codes == codes[..k] + [codes[k]];
      InsideStep(
        tr, s, e, BatchRun(tr, Run(s, true, e), codes[..k]), ChunkRun(tr, s, codes[..k]), codes[..k], codes[k]);
    }
  }

  lemma InsideAtFirst(s: State, e: seq<Event>)
    ensures InsideAgainstOutside(s, e, Run(s, true, e), Run(s, false, []), [])
  {
    assert e + [] == e;
  }

  /** Cutting the input between a and b changes nothing if and only if the cut
      does not separate a DEL from the batch of control data that it follows. */
  lemma CutIffNoDelAtCut(tr: Table, s: State, a: seq<nat>, b: seq<nat>)
    requires BatchSafe(tr)
    ensures
      var whole, first := ChunkRun(tr, s, a + b), ChunkRun(tr, s, a);
      var second := ChunkRun(tr, first.s, b);
      && whole.s == second.s
      && |whole.events| >= |first.events| + |second.events|
      && (whole.events == first.events + second.events <==> !(first.inPut && b != [] && b[0] == 127))
      && (|whole.events| == |first.events| + |second.events| <==> !(first.inPut && b != [] && b[0] == 127))
  {
    hide Lookup, BatchStep;
    var first := ChunkRun(tr, s, a);
    BatchRunConcat(tr, Run(s, false, []), a, b);
    if first.inPut {
      BatchesAgainstTable(tr, s, a);
      InsideReportsMore(tr, first.s, first.events, b);
    } else {
      EventsAppend(tr, first.s, first.events, b);
    }
  }

  lemma {:induction false} EventsAppend(tr: Table, s: State, e: seq<Event>, codes: seq<nat>)
    ensures
      var x, y := BatchRun(tr, Run(s, false, e), codes), ChunkRun(tr, s, codes);
      x.s == y.s && x.inPut == y.inPut && x.events == e + y.events
  {
    if codes != [] {
      EventsAppend(tr, s, e, codes[..|codes| - 1]);
    }
  }

  // ----- cutting the input anyhow

  function Flatten(chunks: seq<seq<nat>>): seq<nat> {
    if chunks == [] then [] else Flatten(chunks[..|chunks| - 1]) + chunks[|chunks| - 1]
  }

  /** One call of parse for each chunk. */
  function ChunksRun(tr: Table, s: State, chunks: seq<seq<nat>>): Run {
    if chunks == [] then Run(s, false, []) else
    var r := ChunksRun(tr, s, chunks[..|chunks| - 1]);
    var x := ChunkRun(tr, r.s, chunks[|chunks| - 1]);
    Run(x.s, false, r.events + x.events)
  }

  /** No DEL inside a device control string. */
  ghost predicate NoDelInString(s: State, codes: seq<nat>) {
    forall i :: 0 <= i < |codes| && codes[i] == 127 ==> TableRun(Vt500, s, codes[..i]).s.state != DCS_PASSTHROUGH
  }

  lemma {:induction false} TableRunConcat(tr: Table, s: State, a: seq<nat>, b: seq<nat>)
    ensures TableRun(tr, s, a + b).s == TableRun(tr, TableRun(tr, s, a).s, b).s
    ensures TableRun(tr, s, a + b).events == TableRun(tr, s, a).events + TableRun(tr, TableRun(tr, s, a).s, b).events
  {
    hide StepState, StepEvents;
    if b == [] {
      assert a + b == a;
      assert TableRun(tr, s, a).events + [] == TableRun(tr, s, a).events;
    } else {
      var k := |b| - 1;
      TableRunConcat(tr, s, a, b[..k]);
      assert (a + b)[..|a| + k] == a + b[..k];
      var first, second := TableRun(tr, s, a), TableRun(tr, TableRun(tr, s, a).s, b[..k]);
      var e := StepEvents(tr, second.s, b[k]);
      assert (first.events + second.events) + e == first.events + (second.events + e);
    }
  }

  lemma NoDelNoPut(s: State, codes: seq<nat>)
    requires NoDelInString(s, codes)
    ensures !PutsDel(Vt500, s, codes)
  {
    hide Vt500, Lookup;
    forall i | 0 <= i < |codes| - 1 && DataAt(Vt500, s, codes, i) ensures codes[i + 1] != 127 {
      BatchEntries(TableRun(Vt500, s, codes[..i]).s.state, codes[i]);
      assert codes[..i + 1][..i] == codes[..i];
    }
  }

  // ----- exactly when chunks show

  /** The state of the table machine before chunk k. */
  function Before(tr: Table, s: State, chunks: seq<seq<nat>>, k: nat): State
    requires k <= |chunks|
  {
    TableRun(tr, s, Flatten(chunks[..k])).s
  }

  /** In no chunk does a DEL directly follow device control data. */
  ghost predicate NoChunkPutsDel(tr: Table, s: State, chunks: seq<seq<nat>>) {
    forall k :: 0 <= k < |chunks| ==> !PutsDel(tr, Before(tr, s, chunks, k), chunks[k])
  }

  lemma FrontChunks(tr: Table, s: State, chunks: seq<seq<nat>>)
    requires chunks != []
    ensures
      var n := |chunks| - 1;
      NoChunkPutsDel(tr, s, chunks) <==>
      NoChunkPutsDel(tr, s, chunks[..n]) && !PutsDel(tr, Before(tr, s, chunks, n), chunks[n])
  {
    hide PutsDel, TableRun;
    var n := |chunks| - 1;
    forall k | 0 <= k < n
      ensures chunks[..n][k] == chunks[k] && Before(tr, s, chunks[..n], k) == Before(tr, s, chunks, k) {
      assert chunks[..n][..k] == chunks[..k];
    }
  }

  lemma SumsEqual(a: seq<Event>, b: seq<Event>, c: seq<Event>, d: seq<Event>)
    requires |a| >= |c| && |b| >= |d|
    ensures a + b == c + d <==> a == c && b == d
  {
    if a + b == c + d {
      assert |a| == |c|;
      assert (a + b)[..|a|] == a && (a + b)[|a|..] == b;
      assert (c + d)[..|a|] == c && (c + d)[|a|..] == d;
    }
  }

  /** However the input is cut, the calls report what the table reports on the whole, code point by code point, if and
      only if in no chunk a DEL directly follows device control data. */
  lemma {:induction false} ChunksExact(tr: Table, s: State, chunks: seq<seq<nat>>)
    requires BatchSafe(tr)
    ensures ChunksRun(tr, s, chunks).s == TableRun(tr, s, Flatten(chunks)).s
    ensures |ChunksRun(tr, s, chunks).events| >= |TableRun(tr, s, Flatten(chunks)).events|
    ensures
      ChunksRun(tr, s, chunks).events == TableRun(tr, s, Flatten(chunks)).events <==> NoChunkPutsDel(tr, s, chunks)
  {
    hide TableRun, ChunkRun, PutsDel, BatchSafe, NoChunkPutsDel;
    if chunks == [] {
      NoChunks(tr, s);
    } else {
      var n := |chunks| - 1;
      var a, b := Flatten(chunks[..n]), chunks[n];
      ChunksExact(tr, s, chunks[..n]);
      TableRunConcat(tr, s, a, b);
      BatchedIffNoDelInBatch(tr, TableRun(tr, s, a).s, b);
      FrontChunks(tr, s, chunks);
      SumsEqual(ChunksRun(tr, s, chunks[..n]).events, ChunkRun(tr, TableRun(tr, s, a).s, b).events,
                TableRun(tr, s, a).events, TableRun(tr, TableRun(tr, s, a).s, b).events);
    }
  }

  lemma NoChunks(tr: Table, s: State)
    ensures NoChunkPutsDel(tr, s, []) && TableRun(tr, s, []) == Run(s, false, [])
  {
  }

  /** Some chunk begins with a DEL, and the chunks before end inside a batch of device control data. */
  ghost predicate CutsDel(tr: Table, s: State, chunks: seq<seq<nat>>, k: nat)
    requires k < |chunks|
  {
    ChunkRun(tr, s, Flatten(chunks[..k])).inPut && chunks[k] != [] && chunks[k][0] == 127
  }

  ghost predicate NoCutDel(tr: Table, s: State, chunks: seq<seq<nat>>) {
    forall k :: 0 <= k < |chunks| ==> !CutsDel(tr, s, chunks, k)
  }

  lemma FrontCuts(tr: Table, s: State, chunks: seq<seq<nat>>)
    requires chunks != []
    ensures
      var n := |chunks| - 1;
      NoCutDel(tr, s, chunks) <==> NoCutDel(tr, s, chunks[..n]) && !CutsDel(tr, s, chunks, n)
  {
    hide ChunkRun;
    var n := |chunks| - 1;
    forall k | 0 <= k < n
      ensures chunks[..n][k] == chunks[k] && CutsDel(tr, s, chunks[..n], k) == CutsDel(tr, s, chunks, k) {
      assert chunks[..n][..k] == chunks[..k];
    }
  }

  /** The calls for the chunks report what a single call reports if and only if no cut separates a DEL from the batch of
      control data that it follows. */
  lemma {:induction false} ChunksLikeOneCall(tr: Table, s: State, chunks: seq<seq<nat>>)
    requires BatchSafe(tr)
    ensures ChunksRun(tr, s, chunks).s == ChunkRun(tr, s, Flatten(chunks)).s
    ensures |ChunkRun(tr, s, Flatten(chunks)).events| >= |ChunksRun(tr, s, chunks).events|
    ensures ChunkRun(tr, s, Flatten(chunks)).events == ChunksRun(tr, s, chunks).events <==> NoCutDel(tr, s, chunks)
  {
    hide ChunkRun, BatchSafe, NoCutDel;
    if chunks == [] {
      NothingCut(tr, s);
    } else {
      var n := |chunks| - 1;
      var a, b := Flatten(chunks[..n]), chunks[n];
      ChunksLikeOneCall(tr, s, chunks[..n]);
      CutIffNoDelAtCut(tr, s, a, b);
      FrontCuts(tr, s, chunks);
      SumsEqual(ChunkRun(tr, s, a).events, ChunkRun(tr, ChunkRun(tr, s, a).s, b).events,
                ChunksRun(tr, s, chunks[..n]).events, ChunkRun(tr, ChunkRun(tr, s, a).s, b).events);
    }
  }

  lemma NothingCut(tr: Table, s: State)
    ensures NoCutDel(tr, s, []) && ChunkRun(tr, s, []) == Run(s, false, [])
  {
  }

  /** However the input is cut, the parser reports what the table machine
      reports on the whole, provided no DEL lies inside a control string. */
  lemma ChunksFollowTable(s: State, chunks: seq<seq<nat>>)
    requires NoDelInString(s, Flatten(chunks))
    ensures ChunksRun(Vt500, s, chunks).s == TableRun(Vt500, s, Flatten(chunks)).s
    ensures ChunksRun(Vt500, s, chunks).events == TableRun(Vt500, s, Flatten(chunks)).events
  {
    hide Vt500, Lookup, TableRun, BatchSafe;
    Vt500BatchSafe();
    ChunksExact(Vt500, s, chunks);
    forall k | 0 <= k < |chunks| ensures !PutsDel(Vt500, Before(Vt500, s, chunks, k), chunks[k]) {
      NoDelInChunk(s, chunks, k);
      NoDelNoPut(Before(Vt500, s, chunks, k), chunks[k]);
    }
  }

  lemma NoDelInChunk(s: State, chunks: seq<seq<nat>>, k: nat)
    requires NoDelInString(s, Flatten(chunks)) && k < |chunks|
    ensures NoDelInString(Before(Vt500, s, chunks, k), chunks[k])
  {
    hide Vt500, TableRun, NoDelInString;
    FlattenPrefix(chunks, k + 1);
    assert chunks[..k + 1][..k] == chunks[..k];
    NoDelInPart(s, Flatten(chunks[..k]), chunks[k], Flatten(chunks));
  }

  lemma NoDelInPart(s: State, a: seq<nat>, b: seq<nat>, all: seq<nat>)
    requires NoDelInString(s, all) && a + b <= all
    ensures NoDelInString(TableRun(Vt500, s, a).s, b)
  {
    hide Vt500, TableRun;
    forall i | 0 <= i < |b| && b[i] == 127
      ensures TableRun(Vt500, TableRun(Vt500, s, a).s, b[..i]).s.state != DCS_PASSTHROUGH
    {
      assert all[|a| + i] == (a + b)[|a| + i] && all[..|a| + i] == (a + b)[..|a| + i] == a + b[..i];
      TableRunConcat(Vt500, s, a, b[..i]);
    }
  }

  lemma {:induction false} FlattenPrefix(chunks: seq<seq<nat>>, k: nat)
    requires k <= |chunks|
    ensures Flatten(chunks[..k]) <= Flatten(chunks)
    decreases |chunks|
  {
    if k < |chunks| {
      FlattenPrefix(chunks[..|chunks| - 1], k);
      assert chunks[..|chunks| - 1][..k] == chunks[..k];
    } else {
      assert chunks[..k] == chunks;
    }
  }

  // ----- merging adjacent ranges

  predicate SameRange(e: Event, f: Event) {
    (e.Print? && f.Print?) || (e.Put? && f.Put?) || (e.OscPut? && f.OscPut?)
  }

  predicate IsRange(e: Event) { e.Print? || e.Put? || e.OscPut? }

  /** The same handler call with other code points. */
  function Recode(e: Event, codes: seq<nat>): Event
    requires IsRange(e)
  {
    match e
    case Print(_) => Event.Print(codes)
    case Put(_) => Put(codes)
    case _ => Event.OscPut(codes)
  }

  function Join(m: seq<Event>, e: Event): seq<Event> {
    if m != [] && SameRange(m[|m| - 1], e) then m[..|m| - 1] + [Recode(e, m[|m| - 1].codes + e.codes)] else m + [e]
  }

  /** Adjacent ranges for the same handler become one. */
  function Merge(es: seq<Event>): seq<Event> {
    if es == [] then [] else Join(Merge(es[..|es| - 1]), es[|es| - 1])
  }

  lemma SinglesConcat(e: Event, a: seq<nat>, b: seq<nat>)
    requires IsRange(e)
    ensures Singles(Recode(e, a + b)) == Singles(Recode(e, a)) + Singles(Recode(e, b))
  {
  }

  lemma JoinExplodes(m: seq<Event>, e: Event)
    ensures Explode(Join(m, e)) == Explode(m) + Singles(e)
  {
    hide Singles;
    if m != [] && SameRange(m[|m| - 1], e) {
      var l := m[|m| - 1];
      var whole := Recode(e, l.codes + e.codes);
      SinglesConcat(e, l.codes, e.codes);
      assert Recode(e, l.codes) == l && Recode(e, e.codes) == e;
      ExplodeSnoc(m[..|m| - 1], whole);
      assert Explode(m[..|m| - 1]) + (Singles(l) + Singles(e)) == (Explode(m[..|m| - 1]) + Singles(l)) + Singles(e);
    } else {
      ExplodeSnoc(m, e);
    }
  }

  lemma {:induction false} ExplodeMerge(es: seq<Event>)
    ensures Explode(Merge(es)) == Explode(es)
  {
    if es != [] {
      ExplodeMerge(es[..|es| - 1]);
      JoinExplodes(Merge(es[..|es| - 1]), es[|es| - 1]);
    }
  }

  lemma JoinTwice(m: seq<Event>, e: Event, a: seq<nat>, b: seq<nat>)
    requires IsRange(e)
    ensures Join(Join(m, Recode(e, a)), Recode(e, b)) == Join(m, Recode(e, a + b))
  {
    if m != [] && SameRange(m[|m| - 1], e) {
      var l := m[|m| - 1];
      assert l.codes + (a + b) == (l.codes + a) + b;
    }
  }

  lemma MergeSnoc(es: seq<Event>, e: Event)
    ensures Merge(es + [e]) == Join(Merge(es), e)
  {
    assert (es + [e])[..|es|] == es;
  }

  lemma {:induction false} MergeSingles(es: seq<Event>, e: Event)
    requires !IsEmptyRange(e)
    ensures Merge(es + Singles(e)) == Join(Merge(es), e)
    decreases if IsRange(e) then |e.codes| else 0
  {
    hide Merge, Join;
    if IsRange(e) && |e.codes| > 1 {
      var k := |e.codes| - 1;
      var a, b := e.codes[..k], [e.codes[k]];
      SinglesConcat(e, a, b);
      assert e.codes == a + b && Recode(e, e.codes) == e;
      assert Singles(Recode(e, b)) == [Recode(e, b)];
      assert es + (Singles(Recode(e, a)) + [Recode(e, b)]) == (es + Singles(Recode(e, a))) + [Recode(e, b)];
      MergeSnoc(es + Singles(Recode(e, a)), Recode(e, b));
      MergeSingles(es, Recode(e, a));
      JoinTwice(Merge(es), e, a, b);
    } else {
      if IsRange(e) {
        assert e.codes == [e.codes[0]] && e == Recode(e, [e.codes[0]]);
      }
      assert Singles(e) == [e];
      MergeSnoc(es, e);
    }
  }

  lemma {:induction false} MergeExplode(es: seq<Event>)
    requires forall i :: 0 <= i < |es| ==> !IsEmptyRange(es[i])
    ensures Merge(Explode(es)) == Merge(es)
  {
    if es != [] {
      MergeExplode(es[..|es| - 1]);
      MergeSingles(Explode(es[..|es| - 1]), es[|es| - 1]);
    }
  }

  /** Two reports agree once adjacent ranges are merged exactly when they agree
      code point by code point. */
  lemma MergedIffSame(xs: seq<Event>, ys: seq<Event>)
    requires forall i :: 0 <= i < |xs| ==> !IsEmptyRange(xs[i])
    requires forall i :: 0 <= i < |ys| ==> !IsEmptyRange(ys[i])
    ensures Merge(xs) == Merge(ys) <==> Explode(xs) == Explode(ys)
  {
    ExplodeMerge(xs);
    ExplodeMerge(ys);
    MergeExplode(xs);
    MergeExplode(ys);
  }

  // ----- the parser over several calls

  lemma {:induction false} ExplodeConcat(a: seq<Event>, b: seq<Event>)
    ensures Explode(a + b) == Explode(a) + Explode(b)
    decreases |b|
  {
    hide Singles;
    if b == [] {
      assert a + b == a;
    } else {
      var k := |b| - 1;
      ExplodeConcat(a, b[..k]);
      assert (a + b)[..|a| + k] == a + b[..k];
    }
  }

  /** What handlers have got for some chunks, and the state of the parser behind them. */
  ghost predicate Reported(tr: Table, s0: State, chunks: seq<seq<nat>>, es: seq<Event>, s: State) {
    var r := ChunksRun(tr, s0, chunks);
    Explode(es) == r.events && s == r.s && forall i :: 0 <= i < |es| ==> !IsEmptyRange(es[i])
  }

  lemma NothingReported(tr: Table, s0: State)
    ensures Reported(tr, s0, [], [], s0)
  {
  }

  lemma ReportedMore(tr: Table, s0: State, chunks: seq<seq<nat>>, es: seq<Event>, s: State,
                     chunk: seq<nat>, more: seq<Event>)
    requires Reported(tr, s0, chunks, es, s)
    requires Explode(more) == ChunkRun(tr, s, chunk).events && forall i :: 0 <= i < |more| ==> !IsEmptyRange(more[i])
    ensures Reported(tr, s0, chunks + [chunk], es + more, ChunkRun(tr, s, chunk).s)
  {
    hide Explode, ChunkRun, IsEmptyRange;
    ExplodeConcat(es, more);
    assert (chunks + [chunk])[..|chunks|] == chunks;
  }

  /** Merged, the ranges depend on the whole input only. */
  lemma MergedByTable(s0: State, chunks: seq<seq<nat>>, es: seq<Event>, s: State)
    requires Reported(Vt500, s0, chunks, es, s) && NoDelInString(s0, Flatten(chunks))
    ensures Merge(es) == Merge(TableRun(Vt500, s0, Flatten(chunks)).events)
    ensures s == TableRun(Vt500, s0, Flatten(chunks)).s
  {
    hide Vt500, TableRun, Merge, Explode, NoDelInString;
    ChunksFollowTable(s0, chunks);
    MergeExplode(es);
  }

  /** Two ways to cut the same input: what the handlers get agrees once adjacent ranges are merged, and the parser ends
      in the same state. */
  lemma ChunkingIsInvisible(s0: State, xs: seq<seq<nat>>, ys: seq<seq<nat>>,
                            ex: seq<Event>, ey: seq<Event>, sx: State, sy: State)
    requires Flatten(xs) == Flatten(ys) && NoDelInString(s0, Flatten(xs))
    requires Reported(Vt500, s0, xs, ex, sx) && Reported(Vt500, s0, ys, ey, sy)
    ensures Merge(ex) == Merge(ey) && sx == sy
  {
    hide Vt500, TableRun, Merge, Reported, NoDelInString, Flatten;
    MergedByTable(s0, xs, ex, sx);
    MergedByTable(s0, ys, ey, sy);
  }

  method ParseChunk(p: EscapeSequenceParser, chunk: seq<nat>) returns (aborted: bool)
    requires BatchSafe(p.transitions)
    modifies p
    ensures old(p.events) <= p.events
    ensures aborted ==> exists e :: e in p.events[|old(p.events)|..] && IsAbort(p.errorAborts, e)
    ensures !aborted ==>
      var r := ChunkRun(p.transitions, old(p.GetState()), chunk);
      && Explode(p.events[|old(p.events)|..]) == r.events && p.GetState() == r.s
      && forall i :: |old(p.events)| <= i < |p.events| ==> !IsEmptyRange(p.events[i])
  {
    hide ChunkRun, Explode, IsEmptyRange, BatchSafe, IsAbort;
    var data := new nat[|chunk|](i requires 0 <= i < |chunk| => chunk[i]);
    assert data[..] == chunk;
    var consumed;
    aborted, consumed := p.Parse(data, |chunk|);
    if aborted {
      assert p.events[|p.events| - 1] in p.events[|old(p.events)|..];
    } else {
      assert View(chunk, |chunk|)[..|chunk|] == chunk;
    }
  }

  /** One call of parse for each chunk. Unless the error handler asked to abort one, the handlers got what the chunks
      give, in ranges that are not empty. Merged, the ranges depend on the whole input only: however it is cut, they are
      those of the table, unless a DEL lies inside a control string. */
  method ParseAll(p: EscapeSequenceParser, chunks: seq<seq<nat>>) returns (aborted: bool)
    requires BatchSafe(p.transitions)
    modifies p
    ensures old(p.events) <= p.events
    ensures aborted ==> exists e :: e in p.events[|old(p.events)|..] && IsAbort(p.errorAborts, e)
    ensures !aborted ==>
      Reported(p.transitions, old(p.GetState()), chunks, p.events[|old(p.events)|..], p.GetState())
    ensures !aborted && p.transitions == Vt500 && NoDelInString(old(p.GetState()), Flatten(chunks)) ==>
      var r := TableRun(Vt500, old(p.GetState()), Flatten(chunks));
      && Merge(p.events[|old(p.events)|..]) == Merge(r.events) && p.GetState() == r.s
  {
    hide ChunkRun, ChunksRun, Explode, IsEmptyRange, BatchSafe, Merge, TableRun,
      NoDelInString, Vt500, IsAbort, Reported;
    ghost var s0, n := p.GetState(), |p.events|;
    aborted := false;
    NothingReported(p.transitions, s0);
    assert p.events[n..] == [];
    var k := 0;
    while k < |chunks|
      invariant 0 <= k <= |chunks| && old(p.events) <= p.events
      invariant aborted ==> exists e :: e in p.events[n..] && IsAbort(p.errorAborts, e)
      invariant !aborted ==> Reported(p.transitions, s0, chunks[..k], p.events[n..], p.GetState())
    {
      ghost var before, s := p.events, p.GetState();
      var stop := ParseChunk(p, chunks[k]);
      assert p.events[n..] == before[n..] + p.events[|before|..];
      assert chunks[..k + 1] == chunks[..k] + [chunks[k]];
      if !aborted && !stop {
        ReportedMore(p.transitions, s0, chunks[..k], before[n..], s, chunks[k], p.events[|before|..]);
      }
      aborted := aborted || stop;
      k := k + 1;
    }
    assert chunks[..k] == chunks;
    if !aborted && p.transitions == Vt500 && NoDelInString(s0, Flatten(chunks)) {
      MergedByTable(s0, chunks, p.events[n..], p.GetState());
    }
  }
}
