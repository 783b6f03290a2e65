/** The cycle-rate limiter: sleeping until deadlines one period apart. */
module Rates {

  datatype Outcome = Outcome(start: int, request: int)  // request: how long to sleep, 0 for not at all

  /** A call at time `now`: the deadline is one period after the start, and becomes the next start. */
  function Cycle(start: int, period: int, now: int): Outcome {
    var end := if now < start then now + period else start + period;
    if end > now then Outcome(end, end - now)
    else if now > end + period then Outcome(now, 0)
    else Outcome(end, 0)
  }

  class Rate {
    const hz: int
    var start: int
    var expectedCycleTime: int
    var actualCycleTime: int

    /** The dividend is not negative, so that the division drops the fraction as in the source. */
    constructor (hz: int, now: int)
      requires hz != 0
      ensures this.hz == hz && start == now && expectedCycleTime == 1000 / hz && actualCycleTime == 0
    {
      this.hz := hz;
      start, expectedCycleTime, actualCycleTime := now, 1000 / hz, 0;
    }

    /** `now` is the clock; the result is the sleep that the caller's thread is put to. */
    method Sleep(now: int) returns (request: int)
      modifies `start, `actualCycleTime
      ensures Outcome(start, request) == Cycle(old(start), expectedCycleTime, now)
      ensures actualCycleTime == now - old(start)
      ensures request <= if expectedCycleTime > 0 then expectedCycleTime else 0
      ensures expectedCycleTime >= 0 ==>
        var late := now - (old(start) + expectedCycleTime);
        && (now < old(start) ==> start == now + expectedCycleTime && request == expectedCycleTime)
        && (now >= old(start) && late <= 0 ==> start == now - late && request == -late)
        && (0 < late <= expectedCycleTime ==> start == now - late && request == 0)
        && (late > expectedCycleTime ==> start == now && request == 0)
    {
      var end := start + expectedCycleTime;
      if now < start {
        end := now + expectedCycleTime;
      }
      var sleepDuration := end - now;
      actualCycleTime := now - start;
      start := end;
      if sleepDuration <= 0 {
        if now > end + expectedCycleTime {
          start := now;
        }
        return 0;
      }
      return sleepDuration;
    }
  }

  // ----- whole runs

  /** When a call read the clock and when it returned. */
  datatype Call = Call(read: int, ret: int)

  /** The start of the cycle that call k ends. */
  function StartAt(start: int, period: int, calls: seq<Call>, k: nat): int
    requires k <= |calls|
  {
    if k == 0 then start else Cycle(StartAt(start, period, calls, k - 1), period, calls[k - 1].read).start
  }

  /** No sleep ends early, and the clock does not step back. */
  ghost predicate Steady(start: int, period: int, calls: seq<Call>) {
    && (forall k :: 0 <= k < |calls| ==>
      calls[k].ret >= calls[k].read + Cycle(StartAt(start, period, calls, k), period, calls[k].read).request)
    && (forall k :: 0 < k < |calls| ==> calls[k].read >= calls[k - 1].ret)
    && (|calls| > 0 ==> calls[0].read >= start)
  }

  /** The time that n periods take. */
  function Periods(n: int, period: int): int { n * period }

  lemma NextPeriod(n: int, period: int)
    ensures Periods(n + 1, period) == Periods(n, period) + period && Periods(0, period) == 0
  {
  }

  /** No sleep is longer than the period, however the clock jumps. */
  lemma SleepBounded(start: int, period: int, now: int)
    requires period >= 0
    ensures
      var r := Cycle(start, period, now);
      0 <= r.request <= period && (r.request > 0 ==> r.start == now + r.request)
  {
  }

  lemma {:induction false} StartPassed(start: int, period: int, calls: seq<Call>, k: nat)
    requires Steady(start, period, calls) && period >= 0 && k < |calls|
    ensures StartAt(start, period, calls, k) <= calls[k].read
    ensures calls[k].ret >= StartAt(start, period, calls, k) + period
    ensures StartAt(start, period, calls, k + 1) >= StartAt(start, period, calls, k) + period
    ensures StartAt(start, period, calls, k + 1) >= calls[k].read - period
  {
    if k > 0 {
      StartPassed(start, period, calls, k - 1);
      assert calls[k].read >= calls[k - 1].ret;
    }
  }

  lemma {:induction false} StartsApart(start: int, period: int, calls: seq<Call>, i: nat, j: nat)
    requires Steady(start, period, calls) && period >= 0 && i <= j <= |calls|
    ensures StartAt(start, period, calls, j) >= StartAt(start, period, calls, i) + Periods(j - i, period)
    decreases j - i
  {
    hide Periods, Cycle, StartAt, Steady;
    if i < j {
      StartsApart(start, period, calls, i, j - 1);
      StartPassed(start, period, calls, j - 1);
      NextPeriod(j - 1 - i, period);
    } else {
      NextPeriod(0, period);
    }
  }

  /** However late single calls are, calls j - i apart take at least j - i - 1 periods. */
  lemma Throughput(start: int, period: int, calls: seq<Call>, i: nat, j: nat)
    requires Steady(start, period, calls) && period >= 0 && i < j < |calls|
    ensures calls[j].ret - calls[i].read >= (j - i - 1) * period
  {
    hide Cycle, StartAt, Steady;
    StartPassed(start, period, calls, i);
    StartsApart(start, period, calls, i + 1, j);
    StartPassed(start, period, calls, j);
  }

  /** The bound is met: a call one period late is followed by one that does not wait. */
  lemma ThroughputTight(period: nat)
    ensures
      var calls := [Call(2 * period, 2 * period), Call(2 * period, 2 * period)];
      Steady(0, period, calls) && calls[1].ret - calls[0].read == 0
  {
    var calls := [Call(2 * period, 2 * period), Call(2 * period, 2 * period)];
    assert StartAt(0, period, calls, 0) == 0;
    assert StartAt(0, period, calls, 1) == period;
  }

  /** After a call more than a period behind its deadline the cycle starts anew: the next call, if it comes within a
      period, sleeps for what is left of one. */
  lemma AfterLate(start: int, period: int, now: int, next: int)
    requires period >= 0 && now > start + 2 * period && now <= next < now + period
    ensures Cycle(start, period, now) == Outcome(now, 0)
    ensures Cycle(Cycle(start, period, now).start, period, next).request == now + period - next
  {
  }

  /** A clock that has stepped back behind the start makes the call sleep for a whole period, if that is positive. */
  lemma SteppedBack(start: int, period: int, now: int)
    requires now < start
    ensures Cycle(start, period, now).request == if period > 0 then period else 0
    ensures period >= 0 ==> Cycle(start, period, now).start == now + period
  {
  }

  /** Call k is over a period late. */
  ghost predicate Late(start: int, period: int, calls: seq<Call>, k: nat)
    requires k < |calls|
  {
    calls[k].read > StartAt(start, period, calls, k) + 2 * period
  }

  /** From the last late call on, and as long as no call comes before its cycle starts, the deadlines lie on the grid
      that begins when that call was made. */
  lemma {:induction false} GridOfLastLate(start: int, period: int, calls: seq<Call>, i: nat, n: nat)
    requires period >= 0 && i < n <= |calls| && Late(start, period, calls, i)
    requires forall k :: i < k < n ==>
      !Late(start, period, calls, k) && calls[k].read >= StartAt(start, period, calls, k)
    ensures StartAt(start, period, calls, n) == calls[i].read + Periods(n - i - 1, period)
    decreases n
  {
    hide Periods;
    NextPeriod(n - i - 2, period);
    if i + 1 < n {
      GridOfLastLate(start, period, calls, i, n - 1);
      assert !Late(start, period, calls, n - 1);
    }
  }

  /** Not before the cycle starts, and not over a period after its end. */
  predicate OnTime(start: int, period: int, call: Call) { start <= call.read <= start + 2 * period }

  /** The deadlines stay on the grid, so that no error adds up, exactly while no call is early or over a period late. */
  lemma {:induction false} OnGrid(start: int, period: int, calls: seq<Call>, n: nat)
    requires period >= 0 && n <= |calls|
    ensures
      (forall k :: 0 <= k <= n ==> StartAt(start, period, calls, k) == start + Periods(k, period))
      <==> (forall k :: 0 <= k < n ==> OnTime(start + Periods(k, period), period, calls[k]))
  {
    hide Periods, Cycle, StartAt;
    StartsOnGrid(start, period, calls);
    if n > 0 {
      OnGrid(start, period, calls, n - 1);
      NextPeriod(n - 1, period);
      StaysOnGrid(start, period, calls, n);
    }
  }

  lemma StartsOnGrid(start: int, period: int, calls: seq<Call>)
    ensures StartAt(start, period, calls, 0) == start + Periods(0, period)
  {
  }

  lemma StaysOnGrid(start: int, period: int, calls: seq<Call>, n: nat)
    requires period >= 0 && 0 < n <= |calls|
    ensures
      var s := StartAt(start, period, calls, n - 1);
      StartAt(start, period, calls, n) == s + period <==> s <= calls[n - 1].read <= s + 2 * period
  {
  }
}
