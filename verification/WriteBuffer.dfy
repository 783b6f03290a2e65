/** The write buffer of the terminal: chunks wait for a timer tick, which may stop early. */
module WriteBuffers {
  import opened Options

  datatype Item = Item(data: string, callback: Option<int>)
  datatype Event = Action(data: string) | Callback(id: int)

  const DISCARD_WATERMARK := 50_000_000
  const WRITE_BUFFER_LENGTH_THRESHOLD := 50
  const FLUSHED_OFFSET := 0x7FFF_FFFF

  function Handled(item: Item): seq<Event> {
    [Action(item.data)] + if item.callback.Some? then [Callback(item.callback.value)] else []
  }

  /** The chunks in order, each with its callback right behind it. */
  function AllHandled(items: seq<Item>): seq<Event> {
    if items == [] then [] else AllHandled(items[..|items| - 1]) + Handled(items[|items| - 1])
  }

  function Size(items: seq<Item>): nat {
    if items == [] then 0 else Size(items[..|items| - 1]) + |items[|items| - 1].data|
  }

  lemma {:induction false} HandledConcat(a: seq<Item>, b: seq<Item>)
    ensures AllHandled(a + b) == AllHandled(a) + AllHandled(b)
    ensures Size(a + b) == Size(a) + Size(b)
    decreases |b|
  {
    if b == [] {
      assert a + b == a;
    } else {
      assert (a + b)[..|a + b| - 1] == a + b[..|b| - 1];
      HandledConcat(a, b[..|b| - 1]);
    }
  }

  /** Sizes count the units of the data. */
  lemma SizeOfOne(item: Item)
    ensures Size([]) == 0 && Size([item]) == |item.data|
  {
    assert [item][..0] == [];
  }

  // ----- what a run may do

  datatype State = State(queue: seq<Item>, log: seq<Event>, ticks: nat)

  datatype Op = Write(item: Item) | WriteSync(data: string) | Tick(handled: nat)

  /** A tick handles at least one chunk, if there is one, and then as many more as time allows. */
  predicate Enabled(s: State, op: Op) {
    op.Tick? ==> s.ticks > 0 && op.handled <= |s.queue| && (s.queue != [] ==> op.handled > 0)
  }

  predicate Accepted(s: State, op: Op) {
    op.Write? ==> Size(s.queue) <= DISCARD_WATERMARK
  }

  function Step(s: State, op: Op): State
    requires Enabled(s, op)
  {
    match op
    case Write(item) =>
      if Size(s.queue) > DISCARD_WATERMARK then s
      else State(s.queue + [item], s.log, if s.queue == [] then s.ticks + 1 else s.ticks)
    case WriteSync(data) => State([], s.log + AllHandled(s.queue) + [Action(data)], s.ticks)
    case Tick(n) =>
      State(s.queue[n..], s.log + AllHandled(s.queue[..n]), if n < |s.queue| then s.ticks else s.ticks - 1)
  }

  ghost predicate Possible(s: State, ops: seq<Op>)
    decreases |ops|
  {
    ops == [] || (Enabled(s, ops[0]) && Possible(Step(s, ops[0]), ops[1..]))
  }

  ghost function Run(s: State, ops: seq<Op>): State
    requires Possible(s, ops)
    decreases |ops|
  {
    if ops == [] then s else Run(Step(s, ops[0]), ops[1..])
  }

  /** The data that a call gives to the buffer. */
  function GivenBy(s: State, op: Op): seq<Item> {
    match op
    case Write(item) => if Accepted(s, op) then [item] else []
    case WriteSync(data) => [Item(data, None)]
    case Tick(n) => []
  }

  /** The data given in a run, in the order of the calls. */
  ghost function Given(s: State, ops: seq<Op>): seq<Item>
    requires Possible(s, ops)
    decreases |ops|
  {
    if ops == [] then [] else GivenBy(s, ops[0]) + Given(Step(s, ops[0]), ops[1..])
  }

  lemma StepInOrder(s: State, op: Op)
    requires Enabled(s, op)
    ensures
      var t := Step(s, op);
      t.log + AllHandled(t.queue) == s.log + AllHandled(s.queue) + AllHandled(GivenBy(s, op))
  {
    hide AllHandled, Size;
    NothingHandled([]);
    match op
    case Write(item) => HandledConcat(s.queue, GivenBy(s, op));
    case WriteSync(data) => SyncHandled(data);
    case Tick(n) =>
      assert s.queue == s.queue[..n] + s.queue[n..];
      HandledConcat(s.queue[..n], s.queue[n..]);
  }

  lemma SyncHandled(data: string)
    ensures AllHandled([Item(data, None)]) == [Action(data)]
  {
    assert [Item(data, None)][..0] == [];
  }

  /** Everything given is handled once and in order, or still waits in order behind what was handled. */
  lemma {:induction false} InOrderOnce(s: State, ops: seq<Op>)
    requires Possible(s, ops)
    ensures
      var r := Run(s, ops);
      r.log + AllHandled(r.queue) == s.log + AllHandled(s.queue) + AllHandled(Given(s, ops))
    decreases |ops|
  {
    if ops != [] {
      hide Step, Enabled, GivenBy, Handled;
      StepInOrder(s, ops[0]);
      InOrderOnce(Step(s, ops[0]), ops[1..]);
      HandledConcat(GivenBy(s, ops[0]), Given(Step(s, ops[0]), ops[1..]));
    }
  }

  /** Whatever waits has a tick coming. */
  lemma {:induction false} TickScheduled(s: State, ops: seq<Op>)
    requires Possible(s, ops) && (s.queue != [] ==> s.ticks > 0)
    ensures Run(s, ops).queue != [] ==> Run(s, ops).ticks > 0
    decreases |ops|
  {
    if ops != [] {
      TickScheduled(Step(s, ops[0]), ops[1..]);
    }
  }

  lemma TickShortens(s: State, op: Op)
    requires op.Tick? && Enabled(s, op)
    ensures
      var t := Step(s, op);
      && t.log + AllHandled(t.queue) == s.log + AllHandled(s.queue)
      && (if s.queue == [] then t.queue == [] else |t.queue| < |s.queue|)
  {
    StepInOrder(s, op);
  }

  /** Ticks alone empty the queue, in no more ticks than it has chunks. */
  lemma {:induction false} TicksDrain(s: State, ops: seq<Op>)
    requires Possible(s, ops) && forall op :: op in ops ==> op.Tick?
    ensures |ops| >= |s.queue| ==> Run(s, ops).queue == [] && Run(s, ops).log == s.log + AllHandled(s.queue)
    decreases |ops|
  {
    if ops != [] {
      hide AllHandled, Handled, Step;
      assert ops[0] in ops;
      TickShortens(s, ops[0]);
      TicksDrain(Step(s, ops[0]), ops[1..]);
    }
  }

  /** The data that the actions in a log were given. */
  function DataOf(log: seq<Event>): seq<string> {
    if log == [] then []
    else
      DataOf(log[..|log| - 1])
      + match log[|log| - 1] case Action(data) => [data] case Callback(id) => []
  }

  function Datas(items: seq<Item>): seq<string> { seq(|items|, i requires 0 <= i < |items| => items[i].data) }

  lemma {:induction false} DataConcat(a: seq<Event>, b: seq<Event>)
    ensures DataOf(a + b) == DataOf(a) + DataOf(b)
    decreases |b|
  {
    if b == [] {
      assert a + b == a;
    } else {
      assert (a + b)[..|a + b| - 1] == a + b[..|b| - 1];
      DataConcat(a, b[..|b| - 1]);
    }
  }

  lemma OneHandledData(item: Item)
    ensures DataOf(Handled(item)) == [item.data]
  {
    var action := [Action(item.data)];
    assert action[..0] == [] && DataOf(action) == [item.data];
    if item.callback.Some? {
      assert Handled(item)[..1] == action;
    } else {
      assert Handled(item) == action;
    }
  }

  /** The actions get the data of the items in order. */
  lemma {:induction false} HandledData(items: seq<Item>)
    ensures DataOf(AllHandled(items)) == Datas(items)
  {
    hide Handled, DataOf;
    if items == [] {
      NoData();
    } else {
      var front, last := items[..|items| - 1], items[|items| - 1];
      HandledData(front);
      OneHandledData(last);
      DataConcat(AllHandled(front), Handled(last));
      assert Datas(items) == Datas(front) + [last.data];
    }
  }

  lemma NoData()
    ensures DataOf([]) == []
  {
  }

  /** The action of the item that the callback at position p belongs to is at the position before. */
  ghost predicate BehindItsAction(items: seq<Item>, log: seq<Event>, p: nat)
    requires p < |log| && log[p].Callback?
  {
    p > 0 && exists i :: 0 <= i < |items| && items[i].callback == Some(log[p].id) && log[p - 1] == Action(items[i].data)
  }

  /** Each callback comes right behind the action of its own item. */
  lemma {:induction false} CallbacksBehind(items: seq<Item>, p: nat)
    requires p < |AllHandled(items)| && AllHandled(items)[p].Callback?
    ensures BehindItsAction(items, AllHandled(items), p)
    decreases |items|
  {
    var front, last := items[..|items| - 1], items[|items| - 1];
    var log, before := AllHandled(items), AllHandled(front);
    if p < |before| {
      assert log[p] == before[p] && (p > 0 ==> log[p - 1] == before[p - 1]);
      CallbacksBehind(front, p);
      var i :| 0 <= i < |front| && front[i].callback == Some(before[p].id) && before[p - 1] == Action(front[i].data);
      assert items[i] == front[i];
    } else {
      assert p == |before| + 1 && log[p - 1] == Action(last.data);
      assert items[|items| - 1].callback == Some(log[p].id);
    }
  }

  /** No callback is left out. */
  lemma {:induction false} CallbacksCalled(items: seq<Item>, i: nat)
    requires i < |items| && items[i].callback.Some?
    ensures Callback(items[i].callback.value) in AllHandled(items)
    decreases |items|
  {
    var front := items[..|items| - 1];
    if i < |front| {
      CallbacksCalled(front, i);
      assert front[i] == items[i];
    } else {
      assert Callback(items[i].callback.value) in Handled(items[i]);
    }
  }

  /** As long as nothing is written synchronously, exactly one tick is scheduled while something waits,
      and none else. */
  lemma {:induction false} OneTick(s: State, ops: seq<Op>)
    requires Possible(s, ops) && s.ticks == (if s.queue == [] then 0 else 1)
    requires forall op :: op in ops ==> !op.WriteSync?
    ensures Run(s, ops).ticks == if Run(s, ops).queue == [] then 0 else 1
    decreases |ops|
  {
    if ops != [] {
      assert ops[0] in ops;
      OneTick(Step(s, ops[0]), ops[1..]);
    }
  }

  // ----- the buffer

  /** The chunks from the offset on, with their callbacks. */
  function Waiting(chunks: seq<string>, callbacks: seq<Option<int>>, offset: nat): (r: seq<Item>)
    requires |chunks| == |callbacks|
    ensures |r| == if offset <= |chunks| then |chunks| - offset else 0
    ensures forall i :: 0 <= i < |r| ==> r[i] == Item(chunks[offset + i], callbacks[offset + i])
    decreases |chunks| - offset
  {
    if offset >= |chunks| then []
    else [Item(chunks[offset], callbacks[offset])] + Waiting(chunks, callbacks, offset + 1)
  }

  lemma WaitingMore(chunks: seq<string>, callbacks: seq<Option<int>>, offset: nat, item: Item)
    requires |chunks| == |callbacks| && offset <= |chunks|
    ensures
      var q := Waiting(chunks, callbacks, offset);
      var more := Waiting(chunks + [item.data], callbacks + [item.callback], offset);
      more == q + [item] && Size(more) == Size(q) + |item.data|
  {
    var q := Waiting(chunks, callbacks, offset);
    assert (q + [item])[..|q|] == q;
  }

  lemma WaitingSliced(chunks: seq<string>, callbacks: seq<Option<int>>, offset: nat)
    requires |chunks| == |callbacks| && offset <= |chunks|
    ensures Waiting(chunks[offset..], callbacks[offset..], 0) == Waiting(chunks, callbacks, offset)
  {
  }

  lemma WaitingNext(chunks: seq<string>, callbacks: seq<Option<int>>, offset: nat)
    requires |chunks| == |callbacks| && offset < |chunks|
    ensures
      var q := Waiting(chunks, callbacks, offset);
      && q[0] == Item(chunks[offset], callbacks[offset]) && q[1..] == Waiting(chunks, callbacks, offset + 1)
      && Size(q) == |q[0].data| + Size(q[1..])
  {
    OneHandled(Waiting(chunks, callbacks, offset), 0);
  }

  lemma NothingHandled(q: seq<Item>)
    ensures q[0..] == q && AllHandled(q[..0]) == [] && Size([]) == 0
  {
  }

  /** Handling the chunk at index n of a queue. */
  lemma OneHandled(q: seq<Item>, n: nat)
    requires n < |q|
    ensures AllHandled(q[..n + 1]) == AllHandled(q[..n]) + Handled(q[n])
    ensures Size(q[n..]) == |q[n].data| + Size(q[n + 1..])
    ensures q[n..][1..] == q[n + 1..] && q[n..][0] == q[n]
  {
    assert q[..n + 1][..n] == q[..n];
    assert q[n..] == [q[n]] + q[n + 1..];
    HandledConcat([q[n]], q[n + 1..]);
    assert Size([q[n]]) == Size([]) + |q[n].data|;
  }

  class WriteBuffer {
    var writeBuffer: seq<string>
    var callbacks: seq<Option<int>>
    var pendingData: int
    var bufferOffset: nat
    var ticks: nat          // timer ticks that are scheduled
    var log: seq<Event>     // what the action and the callbacks were called with

    ghost predicate Valid()
      reads this
    {
      && |writeBuffer| == |callbacks|
      && (writeBuffer != [] ==> bufferOffset < |writeBuffer| && ticks > 0)
      && pendingData == Size(Waiting(writeBuffer, callbacks, bufferOffset))
    }

    ghost function Current(): State
      requires |writeBuffer| == |callbacks|
      reads this
    {
      State(Waiting(writeBuffer, callbacks, bufferOffset), log, ticks)
    }

    constructor ()
      ensures Valid() && Current() == State([], [], 0)
    {
      writeBuffer, callbacks, pendingData, bufferOffset := [], [], 0, 0;
      ticks, log := 0, [];
    }

    method Handle(data: string, callback: Option<int>)
      modifies `log
      ensures log == old(log) + Handled(Item(data, callback))
    {
      log := log + [Action(data)];
      if callback.Some? {
        log := log + [Callback(callback.value)];
      }
    }

    method Write(data: string, callback: Option<int>) returns (accepted: bool)
      requires Valid()
      modifies this
      ensures Valid() && Current() == Step(old(Current()), Op.Write(Item(data, callback)))
      ensures accepted == Accepted(old(Current()), Op.Write(Item(data, callback)))
      ensures accepted <==> old(pendingData) <= 50_000_000
    {
      hide AllHandled, Handled, Waiting, Size;
      NothingHandled([]);
      if pendingData > DISCARD_WATERMARK {
        return false;
      }
      if |writeBuffer| == 0 {
        bufferOffset := 0;
        ticks := ticks + 1;
      }
      WaitingMore(writeBuffer, callbacks, bufferOffset, Item(data, callback));
      pendingData := pendingData + |data|;
      writeBuffer, callbacks := writeBuffer + [data], callbacks + [callback];
      return true;
    }

    method HandleAll()
      requires Valid()
      modifies `log
      ensures log == old(log) + AllHandled(Waiting(writeBuffer, callbacks, bufferOffset))
    {
      hide Size, AllHandled, Handled;
      ghost var q, before := Waiting(writeBuffer, callbacks, bufferOffset), log;
      var i := bufferOffset;
      NothingHandled(q);
      while i < |writeBuffer|
        invariant bufferOffset <= i && i - bufferOffset <= |q| && log == before + AllHandled(q[..i - bufferOffset])
      {
        OneHandled(q, i - bufferOffset);
        Handle(writeBuffer[i], callbacks[i]);
        i := i + 1;
      }
      assert q[..i - bufferOffset] == q;
    }

    method WriteSync(data: string)
      requires Valid()
      modifies this
      ensures Valid() && Current() == Step(old(Current()), Op.WriteSync(data))
    {
      hide AllHandled, Handled, Waiting, Size;
      NothingHandled([]);
      if |writeBuffer| > 0 {
        HandleAll();
        writeBuffer, callbacks, pendingData, bufferOffset := [], [], 0, FLUSHED_OFFSET;
      }
      log := log + [Action(data)];
    }

    method HandleNext()
      requires bufferOffset < |writeBuffer| == |callbacks|
      requires pendingData == Size(Waiting(writeBuffer, callbacks, bufferOffset))
      modifies `log, `bufferOffset, `pendingData
      ensures bufferOffset == old(bufferOffset) + 1
      ensures
        var q := old(Waiting(writeBuffer, callbacks, bufferOffset));
        && q != [] && Waiting(writeBuffer, callbacks, bufferOffset) == q[1..] && pendingData == Size(q[1..])
        && log == old(log) + Handled(q[0])
    {
      hide Handled, Size;
      var data, callback := writeBuffer[bufferOffset], callbacks[bufferOffset];
      WaitingNext(writeBuffer, callbacks, bufferOffset);
      bufferOffset := bufferOffset + 1;
      Handle(data, callback);
      pendingData := pendingData - |data|;
    }

    /** Handles the chunks in order until the time is up, which is looked at after each chunk. */
    method HandleSome() returns (ghost n: nat)
      requires |writeBuffer| == |callbacks| && (writeBuffer != [] ==> bufferOffset < |writeBuffer|)
      requires pendingData == Size(Waiting(writeBuffer, callbacks, bufferOffset))
      modifies `log, `bufferOffset, `pendingData
      ensures
        var q := old(Waiting(writeBuffer, callbacks, bufferOffset));
        && n <= |q| && (q != [] ==> 0 < n && bufferOffset <= |writeBuffer|)
        && Waiting(writeBuffer, callbacks, bufferOffset) == q[n..] && pendingData == Size(q[n..])
        && log == old(log) + AllHandled(q[..n])
    {
      hide Size, AllHandled, Handled, Waiting;
      ghost var q, before := Waiting(writeBuffer, callbacks, bufferOffset), log;
      n := 0;
      NothingHandled(q);
      while |writeBuffer| > bufferOffset
        invariant n <= |q| && (q != [] ==> bufferOffset <= |writeBuffer|)
        invariant (n == 0 ==> bufferOffset == old(bufferOffset))
        invariant Waiting(writeBuffer, callbacks, bufferOffset) == q[n..] && pendingData == Size(q[n..])
        invariant log == before + AllHandled(q[..n])
        decreases |q| - n
      {
        OneHandled(q, n);
        HandleNext();
        n := n + 1;
        if * {
          break;
        }
      }
    }

    /** Runs when a scheduled tick fires. */
    method InnerWrite() returns (ghost n: nat)
      requires Valid() && ticks > 0
      modifies this
      ensures Valid()
      ensures Enabled(old(Current()), Tick(n)) && Current() == Step(old(Current()), Tick(n))
    {
      hide Size, AllHandled, Handled, Waiting;
      ticks := ticks - 1;
      n := HandleSome();
      Reschedule();
    }

    /** Drops the handled chunks when there are many, and asks for another tick if there are chunks left. */
    method Reschedule()
      requires |writeBuffer| == |callbacks| && (writeBuffer != [] ==> bufferOffset <= |writeBuffer|)
      requires pendingData == Size(Waiting(writeBuffer, callbacks, bufferOffset))
      modifies `writeBuffer, `callbacks, `pendingData, `bufferOffset, `ticks
      ensures Valid() && Current().queue == old(Waiting(writeBuffer, callbacks, bufferOffset))
      ensures ticks == if Current().queue == [] then old(ticks) else old(ticks) + 1
    {
      hide Size, Waiting;
      if |writeBuffer| > bufferOffset {
        WaitingSliced(writeBuffer, callbacks, bufferOffset);
        if bufferOffset > WRITE_BUFFER_LENGTH_THRESHOLD {
          writeBuffer, callbacks := writeBuffer[bufferOffset..], callbacks[bufferOffset..];
          bufferOffset := 0;
        }
        ticks := ticks + 1;
      } else {
        NothingHandled([]);
        writeBuffer, callbacks, pendingData, bufferOffset := [], [], 0, 0;
      }
    }
  }
}
