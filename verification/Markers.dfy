/** Markers: line numbers of a buffer that follow their line as old lines are trimmed. */
module Markers {
  import opened Options
  import opened CircularLists

  // ----- the document: the lines of the buffer and the marks on them

  datatype Mark = Mark(line: int, disposed: bool)

  function Disposed(m: Mark): Mark { if m.disposed then m else Mark(-1, true) }

  /** A disposed mark goes on hearing of trims, but stays disposed. */
  function Trimmed(m: Mark, n: nat): Mark {
    var moved := m.(line := m.line - n);
    if moved.line < 0 then Disposed(moved) else moved
  }

  function AllTrimmed(marks: seq<Mark>, n: nat): (r: seq<Mark>)
    ensures |r| == |marks|
  {
    seq(|marks|, i requires 0 <= i < |marks| => Trimmed(marks[i], n))
  }

  /** Several trims one after another. */
  function TrimmedBy(marks: seq<Mark>, trims: seq<nat>): (r: seq<Mark>)
    ensures |r| == |marks|
  {
    if trims == [] then marks else AllTrimmed(TrimmedBy(marks, trims[..|trims| - 1]), trims[|trims| - 1])
  }

  lemma NothingTrimmed(marks: seq<Mark>, trims: seq<nat>, n: nat)
    requires n <= |trims|
    ensures TrimmedBy(marks, trims[n..n]) == marks && trims[n..|trims|] == trims[n..]
  {
  }

  lemma TrimmedOnceMore(marks: seq<Mark>, trims: seq<nat>, n: nat, i: nat)
    requires n <= i < |trims|
    ensures TrimmedBy(marks, trims[n..i + 1]) == AllTrimmed(TrimmedBy(marks, trims[n..i]), trims[i])
  {
    assert trims[n..i + 1][..i - n] == trims[n..i];
  }

  lemma OneTrim(marks: seq<Mark>, trims: seq<nat>)
    ensures trims == [] ==> TrimmedBy(marks, trims) == marks
    ensures |trims| == 1 ==> TrimmedBy(marks, trims) == AllTrimmed(marks, trims[0])
  {
    if |trims| == 1 {
      assert trims[..0] == [] && TrimmedBy(marks, []) == marks;
    }
  }

  datatype Doc<T> = Doc(lines: seq<T>, max: nat, marks: seq<Mark>)
  {
    predicate Ok() { 0 < max && |lines| <= max }
  }

  datatype Op<T> = Push(x: T) | Recycle | TrimStart(n: nat) | AddMarker(y: int) | DisposeMarker(i: nat)

  /** How many lines an operation drops, if it fires a trim event at all. */
  function Loss<T>(d: Doc<T>, op: Op<T>): Option<nat> {
    match op
    case Push(x) => if |d.lines| < d.max then None else Some(1)
    case Recycle => if |d.lines| < d.max then None else Some(1)
    case TrimStart(n) => Some(if n > |d.lines| then |d.lines| else n)
    case AddMarker(y) => None
    case DisposeMarker(i) => None
  }

  function Appended<T>(d: Doc<T>, op: Op<T>): seq<T>
    requires d.Ok()
  {
    match op
    case Push(x) => [x]
    case Recycle => if |d.lines| < d.max then [] else [d.lines[0]]
    case TrimStart(n) => []
    case AddMarker(y) => []
    case DisposeMarker(i) => []
  }

  function Marks<T>(d: Doc<T>, op: Op<T>): seq<Mark> {
    match op
    case AddMarker(y) => d.marks + [Mark(y, false)]
    case DisposeMarker(i) => if i < |d.marks| then d.marks[i := Disposed(d.marks[i])] else d.marks
    case Push(x) => d.marks
    case Recycle => d.marks
    case TrimStart(n) => d.marks
  }

  function Step<T>(d: Doc<T>, op: Op<T>): (r: Doc<T>)
    requires d.Ok()
    ensures r.Ok() && r.max == d.max
  {
    var all, marks := d.lines + Appended(d, op), Marks(d, op);
    match Loss(d, op)
    case Some(n) => Doc(all[n..], d.max, AllTrimmed(marks, n))
    case None => Doc(all, d.max, marks)
  }

  // ----- whole runs

  function Run<T>(d: Doc<T>, ops: seq<Op<T>>): (r: Doc<T>)
    requires d.Ok()
    ensures r.Ok()
    decreases |ops|
  {
    if ops == [] then d else Run(Step(d, ops[0]), ops[1..])
  }

  function TotalLoss<T>(d: Doc<T>, ops: seq<Op<T>>): nat
    requires d.Ok()
    decreases |ops|
  {
    if ops == [] then 0
    else (match Loss(d, ops[0]) case Some(n) => n case None => 0) + TotalLoss(Step(d, ops[0]), ops[1..])
  }

  function AllAppended<T>(d: Doc<T>, ops: seq<Op<T>>): seq<T>
    requires d.Ok()
    decreases |ops|
  {
    if ops == [] then [] else Appended(d, ops[0]) + AllAppended(Step(d, ops[0]), ops[1..])
  }

  lemma DropTwice<T>(a: seq<T>, b: seq<T>, c: seq<T>, n: nat, m: nat)
    requires n <= |a + b| && m <= |(a + b)[n..] + c|
    ensures n + m <= |a + (b + c)| && (a + (b + c))[n + m..] == ((a + b)[n..] + c)[m..]
  {
  }

  lemma StepLines<T>(d: Doc<T>, op: Op<T>)
    requires d.Ok()
    ensures
      var all, n := d.lines + Appended(d, op), match Loss(d, op) case Some(n) => n case None => 0;
      n <= |all| && Step(d, op).lines == all[n..]
  {
  }

  /** Every dropped line is accounted for: the lines are those of the start and the appended ones, less the loss. */
  lemma {:induction false} LinesAccounted<T>(d: Doc<T>, ops: seq<Op<T>>)
    requires d.Ok()
    ensures
      var all, n := d.lines + AllAppended(d, ops), TotalLoss(d, ops);
      n <= |all| && Run(d, ops).lines == all[n..]
    decreases |ops|
  {
    hide Step, Appended, Loss;
    if ops != [] {
      var e, rest := Step(d, ops[0]), ops[1..];
      LinesAccounted(e, rest);
      StepLines(d, ops[0]);
      var n := match Loss(d, ops[0]) case Some(n) => n case None => 0;
      DropTwice(d.lines, Appended(d, ops[0]), AllAppended(e, rest), n, TotalLoss(e, rest));
    } else {
      assert d.lines + [] == d.lines;
    }
  }

  /** A marker that was not disposed by hand lives exactly as long as its line has not been trimmed. */
  lemma {:induction false} MarkFollows<T>(d: Doc<T>, ops: seq<Op<T>>, i: nat)
    requires d.Ok() && i < |d.marks| && !d.marks[i].disposed && d.marks[i].line >= 0
    requires DisposeMarker(i) !in ops
    ensures |Run(d, ops).marks| >= |d.marks|
    ensures TotalLoss(d, ops) <= d.marks[i].line ==>
              Run(d, ops).marks[i] == Mark(d.marks[i].line - TotalLoss(d, ops), false)
    ensures TotalLoss(d, ops) > d.marks[i].line ==>
              Run(d, ops).marks[i].disposed && Run(d, ops).marks[i].line < 0
    decreases |ops|
  {
    if ops != [] {
      var e := Step(d, ops[0]);
      assert ops[0] != DisposeMarker(i);
      if e.marks[i].disposed {
        DisposedStays(e, ops[1..], i);
      } else {
        MarkFollows(e, ops[1..], i);
      }
    }
  }

  lemma {:induction false} DisposedStays<T>(d: Doc<T>, ops: seq<Op<T>>, i: nat)
    requires d.Ok() && i < |d.marks| && d.marks[i].disposed && d.marks[i].line < 0
    ensures |Run(d, ops).marks| >= |d.marks| && Run(d, ops).marks[i].disposed && Run(d, ops).marks[i].line < 0
    decreases |ops|
  {
    if ops != [] {
      DisposedStays(Step(d, ops[0]), ops[1..], i);
    }
  }

  /** While it lives, a marker names the line it was set on. */
  lemma SameLine<T>(d: Doc<T>, ops: seq<Op<T>>, i: nat)
    requires d.Ok() && i < |d.marks| && !d.marks[i].disposed && 0 <= d.marks[i].line < |d.lines|
    requires DisposeMarker(i) !in ops
    ensures
      var r := Run(d, ops);
      && i < |r.marks|
      && (!r.marks[i].disposed <==> TotalLoss(d, ops) <= d.marks[i].line)
      && (!r.marks[i].disposed ==>
                  0 <= r.marks[i].line < |r.lines| && r.lines[r.marks[i].line] == d.lines[d.marks[i].line])
  {
    MarkFollows(d, ops, i);
    LinesAccounted(d, ops);
  }

  /** A marker set on a line names that line as long as it lives, which is as long as the line has not been trimmed. */
  lemma NewMarkerFollows<T>(d: Doc<T>, y: nat, ops: seq<Op<T>>)
    requires d.Ok() && y < |d.lines| && DisposeMarker(|d.marks|) !in ops
    ensures
      var r, i := Run(Step(d, AddMarker(y)), ops), |d.marks|;
      && i < |r.marks|
      && (!r.marks[i].disposed <==> TotalLoss(Step(d, AddMarker(y)), ops) <= y)
      && (!r.marks[i].disposed ==>
        r.marks[i].line == y - TotalLoss(Step(d, AddMarker(y)), ops)
        && 0 <= r.marks[i].line < |r.lines| && r.lines[r.marks[i].line] == d.lines[y])
  {
    var e := Step(d, AddMarker(y));
    assert e.lines == d.lines && e.marks[|d.marks|] == Mark(y, false);
    SameLine(e, ops, |d.marks|);
    MarkFollows(e, ops, |d.marks|);
  }

  /** A marker disposed by hand is gone for good. */
  lemma DisposedForGood<T>(d: Doc<T>, i: nat, ops: seq<Op<T>>)
    requires d.Ok() && i < |d.marks| && !d.marks[i].disposed
    ensures
      var r := Run(Step(d, DisposeMarker(i)), ops);
      i < |r.marks| && r.marks[i].disposed && r.marks[i].line < 0 && Step(d, DisposeMarker(i)).lines == d.lines
  {
    DisposedStays(Step(d, DisposeMarker(i)), ops, i);
  }

  // ----- the objects

  class Marker {
    var line: int
    var isDisposed: bool

    constructor (line: int)
      ensures this.line == line && !isDisposed
    {
      this.line, isDisposed := line, false;
    }

    ghost function Value(): Mark reads this { Mark(line, isDisposed) }
  }

  class Buffer<T(0)> {
    const lines: CircularList<T>
    var markers: seq<Marker>
    var listeners: seq<Marker>  // of trim events, one for each marker ever added

    /** `markers` holds exactly the markers that are not disposed. */
    ghost predicate MarkersSound()
      reads this, listeners
    {
      && (forall i, j :: 0 <= i < j < |listeners| ==> listeners[i] != listeners[j])
      && (forall i, j :: 0 <= i < j < |markers| ==> markers[i] != markers[j])
      && (forall m :: m in markers ==> m in listeners && !m.isDisposed)
      && (forall m :: m in listeners && !m.isDisposed ==> m in markers)
    }

    ghost predicate Valid()
      reads this, listeners, lines
    {
      lines.Valid() && MarkersSound()
    }

    ghost function MarkValues(): (r: seq<Mark>)
      reads this, listeners
      ensures |r| == |listeners|
    {
      seq(|listeners|, i requires 0 <= i < |listeners| reads this, listeners => listeners[i].Value())
    }

    ghost function State(): Doc<T>
      requires Valid()
      reads this, listeners, lines, lines.slots
    {
      Doc(lines.Contents(), lines.maxLength, MarkValues())
    }

    constructor (maxLength: nat)
      requires maxLength > 0
      ensures Valid() && State() == Doc([], maxLength, []) && fresh(lines) && fresh(lines.slots)
    {
      lines := new CircularList<T>(maxLength);
      markers, listeners := [], [];
    }

    /** What every disposal of a marker sets off: the marker leaves `markers`. */
    method Dispose(m: Marker)
      requires MarkersSound() && m in listeners
      modifies this`markers, m
      ensures MarkersSound() && m.Value() == Disposed(old(m.Value()))
    {
      if !m.isDisposed {
        m.isDisposed := true;
        m.line := -1;
        RemoveMarker(m);
      }
    }

    static ghost predicate TakenOut(was: seq<Marker>, now: seq<Marker>, k: nat, m: Marker) {
      k < |was| && was[k] == m && now == was[..k] + was[k + 1..]
    }

    /** Takes out the first occurrence, found by its index. */
    method RemoveMarker(m: Marker)
      requires m in markers
      modifies this`markers
      ensures exists k :: 0 <= k < |old(markers)| && TakenOut(old(markers), markers, k, m)
    {
      var k := 0;
      while markers[k] != m
        invariant 0 <= k < |markers| && m !in markers[..k]
        decreases |markers| - k
      {
        k := k + 1;
      }
      markers := markers[..k] + markers[k + 1..];
      assert TakenOut(old(markers), markers, k, m);
    }

    /** Runs the trim listeners, a copy of the list first. */
    method FireTrim(n: nat)
      requires MarkersSound()
      modifies this`markers, listeners
      ensures MarkersSound() && MarkValues() == AllTrimmed(old(MarkValues()), n)
    {
      var copy := listeners;
      for i := 0 to |copy|
        invariant MarkersSound()
        invariant forall j :: 0 <= j < i ==> copy[j].Value() == Trimmed(old(copy[j].Value()), n)
        invariant forall j :: i <= j < |copy| ==> copy[j].Value() == old(copy[j].Value())
      {
        var m := copy[i];
        m.line := m.line - n;
        if m.line < 0 {
          Dispose(m);
        }
      }
    }

    /** The trim events that the list has fired since the first n reach the markers. */
    method Heard(n: nat)
      requires MarkersSound() && n <= |lines.trims|
      modifies this`markers, listeners
      ensures MarkersSound() && MarkValues() == TrimmedBy(old(MarkValues()), lines.trims[n..])
    {
      hide MarkersSound, Buffer.MarkValues, AllTrimmed;
      ghost var was := MarkValues();
      var i := n;
      NothingTrimmed(was, lines.trims, n);
      while i < |lines.trims|
        invariant n <= i <= |lines.trims| && MarkersSound()
        invariant MarkValues() == TrimmedBy(was, lines.trims[n..i])
      {
        TrimmedOnceMore(was, lines.trims, n, i);
        FireTrim(lines.trims[i]);
        i := i + 1;
      }
    }

    method PushLine(x: T)
      requires Valid()
      modifies this, listeners, lines, lines.slots
      ensures Valid() && State() == Step(old(State()), Push(x)) && listeners == old(listeners)
    {
      hide CircularList.Window, Buffer.MarkValues, MarkersSound, AllTrimmed, Bounded, TrimmedBy;
      var n := |lines.trims|;
      lines.Push(x);
      Heard(n);
      OneTrim(old(MarkValues()), lines.trims[n..]);
    }

    method RecycleLine() returns (x: Option<T>)
      requires Valid()
      modifies this, listeners, lines, lines.slots
      ensures Valid() && State() == Step(old(State()), Recycle) && listeners == old(listeners)
      ensures x == if |old(State()).lines| < old(State()).max then None else Some(old(State()).lines[0])
    {
      hide CircularList.Window, Buffer.MarkValues, MarkersSound, AllTrimmed, Bounded, TrimmedBy;
      var n := |lines.trims|;
      x := lines.Recycle();
      Heard(n);
      OneTrim(old(MarkValues()), lines.trims[n..]);
    }

    method TrimLines(n: nat)
      requires Valid()
      modifies this, listeners, lines, lines.slots
      ensures Valid() && State() == Step(old(State()), TrimStart(n)) && listeners == old(listeners)
    {
      hide CircularList.Window, Buffer.MarkValues, MarkersSound, AllTrimmed, TrimmedBy;
      var k := |lines.trims|;
      lines.TrimStart(n);
      Heard(k);
      OneTrim(old(MarkValues()), lines.trims[k..]);
    }

    method AddLineMarker(y: int) returns (m: Marker)
      requires Valid()
      modifies this
      ensures Valid() && State() == Step(old(State()), AddMarker(y))
      ensures fresh(m) && listeners == old(listeners) + [m] && m.line == y && !m.isDisposed
    {
      m := new Marker(y);
      markers := markers + [m];
      listeners := listeners + [m];
    }

    method DisposeLineMarker(i: nat)
      requires Valid() && i < |listeners|
      modifies this, listeners
      ensures Valid() && State() == Step(old(State()), DisposeMarker(i)) && listeners == old(listeners)
    {
      Dispose(listeners[i]);
    }
  }
}
