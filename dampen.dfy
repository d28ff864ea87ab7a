/**
 * The two rate limiters of src/util/dampen.js, as state machines. The time a
 * call happens (`Date.now()`) and the time the clock reaches are inputs; the
 * single `setTimeout` of the debouncer is one pending slot.
 */
module Dampen {
  import opened Js

  /** A call of a wrapper: when it happened and the arguments it passed. */
  datatype Call = Call(time: int, args: seq<JsValue>)

  // ---------------------------------------------------------------------------
  // throttled(delay, fn)

  /** A throttled call at `now` runs `fn` unless it comes less than `delay` after the last run. */
  predicate Admits(delay: int, lastCall: int, now: int) {
    !(now - lastCall < delay)
  }

  /** The time of the last run, or `lastCall`'s initial value when nothing ran. */
  function LastRun(initial: int, runs: seq<Call>): int {
    if runs == [] then initial else runs[|runs| - 1].time
  }

  /**
   * The calls of a throttled wrapper that run `fn`, in order, when the last
   * run so far happened at `lastCall`: each run happens at the time of its own
   * call, with its own arguments, and runs are at least `delay` apart.
   */
  function Runs(delay: int, lastCall: int, calls: seq<Call>): (r: seq<Call>)
    ensures |r| <= |calls|
    ensures forall c :: c in r ==> c in calls
    ensures r != [] ==> r[0].time - lastCall >= delay
    ensures forall i :: 0 <= i < |r| - 1 ==> r[i + 1].time - r[i].time >= delay
    decreases |calls|
  {
    if calls == [] then []
    else if Admits(delay, lastCall, calls[0].time) then [calls[0]] + Runs(delay, calls[0].time, calls[1..])
    else Runs(delay, lastCall, calls[1..])
  }

  /** One more call runs exactly when it is admitted after the last run so far. */
  lemma {:induction false} RunsAppend(delay: int, lastCall: int, calls: seq<Call>, c: Call)
    ensures var before := Runs(delay, lastCall, calls);
      Runs(delay, lastCall, calls + [c])
        == before + (if Admits(delay, LastRun(lastCall, before), c.time) then [c] else [])
    decreases |calls|
  {
    if calls != [] {
      assert (calls + [c])[1..] == calls[1..] + [c];
      if Admits(delay, lastCall, calls[0].time) {
        RunsAppend(delay, calls[0].time, calls[1..], c);
        var rest := Runs(delay, calls[0].time, calls[1..]);
        assert LastRun(calls[0].time, rest) == LastRun(lastCall, [calls[0]] + rest);
      } else {
        RunsAppend(delay, lastCall, calls[1..], c);
      }
    }
  }

  /**
   * A dropped call is never run later: with `delay` 100, a call at 100 runs
   * and the call at 150 that follows it is lost, even when no call comes
   * after it.
   */
  lemma TrailingCallLost()
    ensures Runs(100, 0, [Call(100, [Num(1)]), Call(150, [Num(2)])]) == [Call(100, [Num(1)])]
  {
    var calls := [Call(100, [Num(1)]), Call(150, [Num(2)])];
    assert calls[1..][1..] == [];
  }

  /** The closure returned by `throttled(delay, fn)`; `lastCall` starts at 0. */
  class Throttled {
    const delay: int
    const fn: seq<JsValue> -> JsValue
    var lastCall: int
    /** Every call made so far. */
    ghost var calls: seq<Call>

    ghost predicate Valid()
      reads this
    {
      lastCall == LastRun(0, Runs(delay, 0, calls))
    }

    constructor (delay: int, fn: seq<JsValue> -> JsValue)
      ensures this.delay == delay && this.fn == fn
      ensures lastCall == 0 && calls == []
      ensures Valid()
    {
      this.delay := delay;
      this.fn := fn;
      lastCall := 0;
      calls := [];
    }

    /** A call at time `now`: it runs `fn` and returns its result, or is dropped and returns `undefined`. */
    method Invoke(now: int, args: seq<JsValue>) returns (r: JsValue)
      requires Valid()
      modifies this
      ensures Valid()
      ensures calls == old(calls) + [Call(now, args)]
      ensures Runs(delay, 0, calls) == old(Runs(delay, 0, calls))
        + (if Admits(delay, old(lastCall), now) then [Call(now, args)] else [])
      ensures r == if Admits(delay, old(lastCall), now) then fn(args) else Undefined
      ensures lastCall == if Admits(delay, old(lastCall), now) then now else old(lastCall)
    {
      RunsAppend(delay, 0, calls, Call(now, args));
      calls := calls + [Call(now, args)];
      if now - lastCall < delay {
        return Undefined;
      }
      lastCall := now;
      r := fn(args);
    }
  }

  // ---------------------------------------------------------------------------
  // debounced(delay, fn)

  /** The pending `setTimeout`: when it fires and the arguments `fn` will run with. */
  datatype Timer = Timer(due: int, args: seq<JsValue>)

  /** What a debounced wrapper observes: a call, or the clock reaching a time. */
  datatype Event = Invoke(call: Call) | Tick(now: int)

  /**
   * The delay `setTimeout(handler, delay)` waits: the argument is converted to
   * a 32-bit signed integer (ToInt32: wrapped modulo 2^32), and a negative
   * result counts as 0. So a delay above 2^31 - 1 wraps, and fires at once
   * when it wraps to a negative number.
   */
  function TimerDelay(delay: int): (r: int)
    ensures 0 <= r <= 0x7fff_ffff
    ensures 0 <= delay <= 0x7fff_ffff ==> r == delay
    ensures -0x8000_0000 <= delay < 0 ==> r == 0
    ensures (r - delay) % 0x1_0000_0000 == 0 || r == 0
  {
    var wrapped := delay % 0x1_0000_0000;
    var signed := if wrapped >= 0x8000_0000 then wrapped - 0x1_0000_0000 else wrapped;
    if signed < 0 then 0 else signed
  }

  /** `debounced(2147483648, fn)` sets timers that are due at once, and `debounced(2^32 + 5, fn)` ones due after 5. */
  lemma WrappedDelays()
    ensures TimerDelay(0x8000_0000) == 0
    ensures TimerDelay(0x1_0000_0005) == 5
  {
  }

  /** The pending slot after one event, and the run that event fired, if any. */
  function Step(delay: int, pending: Option<Timer>, e: Event): (r: (Option<Timer>, Option<Call>))
    ensures r.1.Some? <==> e.Tick? && pending.Some? && e.now >= pending.value.due
    ensures r.1.Some? ==> r.0 == None && r.1.value == Call(e.now, pending.value.args)
    ensures e.Invoke? ==> r.0 == Some(Timer(e.call.time + TimerDelay(delay), e.call.args))
    ensures e.Tick? && r.1.None? ==> r.0 == pending
  {
    match e
    case Invoke(c) => (Some(Timer(c.time + TimerDelay(delay), c.args)), None)
    case Tick(now) =>
      if pending.Some? && now >= pending.value.due then (None, Some(Call(now, pending.value.args)))
      else (pending, None)
  }

  /**
   * The pending slot after `events`, and the runs of `fn` they fired, in
   * order. No call runs twice: there are no more runs than calls, plus the
   * timer pending at the start.
   */
  function Debounce(delay: int, pending: Option<Timer>, events: seq<Event>): (r: (Option<Timer>, seq<Call>))
    ensures |r.1| <= Calls(events) + (if pending.Some? then 1 else 0)
    decreases |events|
  {
    if events == [] then (pending, [])
    else
      var step := Step(delay, pending, events[0]);
      var rest := Debounce(delay, step.0, events[1..]);
      (rest.0, Fired(step.1) + rest.1)
  }

  /** The run an event fired, as a list of at most one. */
  function Fired(run: Option<Call>): seq<Call> {
    if run.Some? then [run.value] else []
  }

  /** No call among `events[lo..hi]`. */
  ghost predicate Quiet(events: seq<Event>, lo: int, hi: int) {
    forall i :: lo <= i < hi && 0 <= i < |events| ==> !events[i].Invoke?
  }

  /**
   * Run `f` was fired by the tick `events[k]`, with the arguments of the
   * timer pending at the start and no call before that tick, or with the
   * arguments of the call `events[j]`, followed by the timer's delay,
   * `TimerDelay(delay)`, of calm: no call between `j` and `k`.
   */
  ghost predicate CalmRun(delay: int, pending: Option<Timer>, events: seq<Event>, f: Call) {
    exists k :: 0 <= k < |events| && events[k] == Tick(f.time) &&
      ((pending.Some? && pending.value.args == f.args && f.time >= pending.value.due && Quiet(events, 0, k))
       || exists j :: 0 <= j < k && events[j].Invoke? && events[j].call.args == f.args
            && f.time >= events[j].call.time + TimerDelay(delay) && Quiet(events, j + 1, k))
  }

  /**
   * Every run uses the arguments of the last call before the tick that fired
   * it (or of the timer pending at the start, when no call came before), and
   * comes at least the timer's delay `TimerDelay(delay)` after that call.
   */
  lemma {:induction false} DebounceCalm(delay: int, pending: Option<Timer>, events: seq<Event>)
    ensures forall f :: f in Debounce(delay, pending, events).1 ==> CalmRun(delay, pending, events, f)
    decreases |events|
  {
    if events != [] {
      var step := Step(delay, pending, events[0]);
      DebounceCalm(delay, step.0, events[1..]);
      var rest := Debounce(delay, step.0, events[1..]).1;
      forall f | f in Fired(step.1) + rest
        ensures CalmRun(delay, pending, events, f)
      {
        if f in Fired(step.1) {
          assert events[0] == Tick(f.time) && Quiet(events, 0, 0);
        } else {
          CalmRunShift(delay, pending, events, f);
        }
      }
    }
  }

  /** A run of the events after the first is a run of all of them, at indices one later. */
  lemma CalmRunShift(delay: int, pending: Option<Timer>, events: seq<Event>, f: Call)
    requires events != [] && CalmRun(delay, Step(delay, pending, events[0]).0, events[1..], f)
    ensures CalmRun(delay, pending, events, f)
  {
    hide Step, Debounce;
    var after := Step(delay, pending, events[0]).0;
    var tail := events[1..];
    var k' :| 0 <= k' < |tail| && tail[k'] == Tick(f.time) &&
      ((after.Some? && after.value.args == f.args && f.time >= after.value.due && Quiet(tail, 0, k'))
       || exists j :: 0 <= j < k' && tail[j].Invoke? && tail[j].call.args == f.args
            && f.time >= tail[j].call.time + TimerDelay(delay) && Quiet(tail, j + 1, k'));
    var k := k' + 1;
    assert events[k] == Tick(f.time);
    if after.Some? && after.value.args == f.args && f.time >= after.value.due && Quiet(tail, 0, k') {
      QuietShift(events, 0, k');
      if events[0].Invoke? {
        assert 0 < k && events[0].call.args == f.args && f.time >= events[0].call.time + TimerDelay(delay);
      } else {
        assert Quiet(events, 0, k);
      }
    } else {
      var j' :| 0 <= j' < k' && tail[j'].Invoke? && tail[j'].call.args == f.args
        && f.time >= tail[j'].call.time + TimerDelay(delay) && Quiet(tail, j' + 1, k');
      QuietShift(events, j' + 1, k');
      assert events[j' + 1] == tail[j'];
    }
  }

  lemma QuietShift(events: seq<Event>, lo: nat, hi: int)
    requires events != [] && Quiet(events[1..], lo, hi)
    ensures Quiet(events, lo + 1, hi + 1)
  {
    forall i | lo + 1 <= i < hi + 1 && 0 <= i < |events|
      ensures !events[i].Invoke?
    {
      assert events[i] == events[1..][i - 1];
    }
  }

  /** The number of calls among `events`. */
  function Calls(events: seq<Event>): nat {
    if events == [] then 0 else (if events[0].Invoke? then 1 else 0) + Calls(events[1..])
  }

  /** One more event steps from the pending slot the earlier ones left. */
  lemma {:induction false} DebounceAppend(delay: int, pending: Option<Timer>, events: seq<Event>, e: Event)
    ensures var before := Debounce(delay, pending, events);
      var step := Step(delay, before.0, e);
      Debounce(delay, pending, events + [e]) == (step.0, before.1 + Fired(step.1))
    decreases |events|
  {
    hide Step, Calls;
    if events == [] {
      assert events + [e] == [e] && [e][1..] == [];
      var step := Step(delay, pending, e);
      assert Debounce(delay, step.0, []) == (step.0, []);
      assert Fired(step.1) + [] == [] + Fired(step.1);
    } else {
      var step := Step(delay, pending, events[0]);
      DebounceAppend(delay, step.0, events[1..], e);
      assert (events + [e])[0] == events[0] && (events + [e])[1..] == events[1..] + [e];
      var rest := Debounce(delay, step.0, events[1..]);
      var tail := Fired(Step(delay, rest.0, e).1);
      assert Fired(step.1) + (rest.1 + tail) == (Fired(step.1) + rest.1) + tail;
    }
  }

  /** After a call, the pending run uses that call's arguments, however many calls came before. */
  lemma {:induction false} LatestCallWins(delay: int, pending: Option<Timer>, events: seq<Event>, c: Call)
    ensures Debounce(delay, pending, events + [Invoke(c)]).0 == Some(Timer(c.time + TimerDelay(delay), c.args))
  {
    DebounceAppend(delay, pending, events, Invoke(c));
  }

  /** The closure returned by `debounced(delay, fn)`, with its `timerId` as the pending slot. */
  class Debounced {
    const delay: int
    const fn: seq<JsValue> -> JsValue
    var timer: Option<Timer>
    /** Every call and clock tick so far, and the runs of `fn` so far. */
    ghost var events: seq<Event>
    ghost var runs: seq<Call>

    ghost predicate Valid()
      reads this
    {
      Debounce(delay, None, events) == (timer, runs)
    }

    constructor (delay: int, fn: seq<JsValue> -> JsValue)
      ensures this.delay == delay && this.fn == fn
      ensures timer == None && events == [] && runs == []
      ensures Valid()
    {
      this.delay := delay;
      this.fn := fn;
      timer := None;
      events := [];
      runs := [];
    }

    /** A call at time `now`: any pending timer is cleared and a new one is set. */
    method Invoke(now: int, args: seq<JsValue>)
      requires Valid()
      modifies this
      ensures Valid()
      ensures events == old(events) + [Event.Invoke(Call(now, args))] && runs == old(runs)
      ensures timer == Some(Timer(now + TimerDelay(delay), args))
    {
      DebounceAppend(delay, None, events, Event.Invoke(Call(now, args)));
      assert runs + Fired(None) == runs;
      events := events + [Event.Invoke(Call(now, args))];
      timer := Some(Timer(now + TimerDelay(delay), args));
    }

    /** The clock reaches `now`: a pending timer that is due fires, clears the slot and runs `fn`. */
    method Elapse(now: int) returns (r: Option<JsValue>)
      requires Valid()
      modifies this
      ensures Valid()
      ensures events == old(events) + [Tick(now)]
      ensures old(timer).Some? && now >= old(timer).value.due ==>
        timer == None && r == Some(fn(old(timer).value.args)) && runs == old(runs) + [Call(now, old(timer).value.args)]
      ensures !(old(timer).Some? && now >= old(timer).value.due) ==>
        timer == old(timer) && r == None && runs == old(runs)
    {
      DebounceAppend(delay, None, events, Tick(now));
      events := events + [Tick(now)];
      if timer.Some? && now >= timer.value.due {
        var args := timer.value.args;
        assert Fired(Some(Call(now, args))) == [Call(now, args)];
        runs := runs + [Call(now, args)];
        timer := None;
        r := Some(fn(args));
      } else {
        assert runs + Fired(None) == runs;
        r := None;
      }
    }
  }
}
