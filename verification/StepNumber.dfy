/** A value kept per time step, rolled lazily when it is read or written (meter/stepnumber.h), run by one thread. */
module StepNumbers {

  // ----- What is recorded -----

  datatype Op = Add(amount: real) | Max(value: real)

  function Apply(op: Op, x: real): real {
    match op
    case Add(a) => x + a
    case Max(v) => if v > x then v else x
  }

  datatype Action = Record(op: Op) | Poll | Current

  /** An action and the wall time the clock showed for it. */
  datatype Event = Event(now: int, action: Action)

  /** C++ integer division, truncating toward zero. */
  function StepOf(now: int, step: int): int
    requires step > 0
  {
    if now >= 0 then now / step else -((-now) / step)
  }

  function Later(a: int, b: int): int { if a < b then b else a }

  // ----- The fields as a value -----

  datatype Fields = Fields(init: real, step: int, previous: real, current: real, last: int)

  predicate ValidFields(f: Fields) { f.step > 0 }

  function New(init: real, step: int, now: int): Fields
    requires step > 0
  {
    Fields(init, step, init, init, StepOf(now, step))
  }

  function Roll(f: Fields, now: int): Fields
    requires ValidFields(f)
  {
    var s := StepOf(now, f.step);
    if f.last < s
    then f.(last := s, current := f.init, previous := if f.last == s - 1 then f.current else f.init)
    else f
  }

  function Exec(f: Fields, e: Event): Fields
    requires ValidFields(f)
  {
    var r := Roll(f, e.now);
    match e.action
    case Record(op) => r.(current := Apply(op, r.current))
    case _ => r
  }

  function Run(f: Fields, events: seq<Event>): (r: Fields)
    requires ValidFields(f)
    ensures ValidFields(r) && r.init == f.init && r.step == f.step
  {
    if events == [] then f else Exec(Run(f, events[..|events| - 1]), events[|events| - 1])
  }

  lemma {:induction false} RunConcat(f: Fields, a: seq<Event>, b: seq<Event>)
    requires ValidFields(f)
    ensures Run(f, a + b) == Run(Run(f, a), b)
    decreases |b|
  {
    if b == [] {
      assert a + b == a;
    } else {
      var n := |b| - 1;
      assert (a + b)[..|a + b| - 1] == a + b[..n];
      RunConcat(f, a, b[..n]);
    }
  }

  // ----- The history it refines -----

  /** The step in force after `events`: the latest one any clock reading has shown. */
  function StepAfter(start: int, step: int, events: seq<Event>): int
    requires step > 0
  {
    if events == [] then start
    else Later(StepAfter(start, step, events[..|events| - 1]), StepOf(events[|events| - 1].now, step))
  }

  /** Fold, from `init`, of the operations recorded while step `k` was in force. */
  function FoldStep(init: real, start: int, step: int, events: seq<Event>, k: int): real
    requires step > 0
  {
    if events == [] then init
    else
      var n := |events| - 1;
      var before := FoldStep(init, start, step, events[..n], k);
      if events[n].action.Record? && StepAfter(start, step, events) == k then Apply(events[n].action.op, before)
      else before
  }

  lemma {:induction false} NothingAhead(init: real, start: int, step: int, events: seq<Event>, k: int)
    requires step > 0 && k > StepAfter(start, step, events)
    ensures FoldStep(init, start, step, events, k) == init
  {
    if events != [] { NothingAhead(init, start, step, events[..|events| - 1], k); }
  }

  /** The step in force is the latest of the starting step and those of the clock readings. */
  lemma {:induction false} StepAfterIsLatest(start: int, step: int, events: seq<Event>)
    requires step > 0
    ensures start <= StepAfter(start, step, events)
    ensures forall e :: e in events ==> StepOf(e.now, step) <= StepAfter(start, step, events)
    ensures StepAfter(start, step, events) == start
      || exists e :: e in events && StepOf(e.now, step) == StepAfter(start, step, events)
  {
    if events != [] {
      var n := |events| - 1;
      assert events == events[..n] + [events[n]];
      StepAfterIsLatest(start, step, events[..n]);
      assert events[n] in events;
    }
  }

  /** Once a later step is in force, the fold of a step is final. */
  lemma {:induction false} PastIsFinal(init: real, start: int, step: int, events: seq<Event>, more: seq<Event>, k: int)
    requires step > 0 && k < StepAfter(start, step, events)
    ensures StepAfter(start, step, events) <= StepAfter(start, step, events + more)
    ensures FoldStep(init, start, step, events + more, k) == FoldStep(init, start, step, events, k)
    decreases |more|
  {
    if more == [] {
      assert events + more == events;
    } else {
      var n := |more| - 1;
      assert (events + more)[..|events + more| - 1] == events + more[..n];
      PastIsFinal(init, start, step, events, more[..n], k);
    }
  }

  /**
   * Whatever the clock shows, forwards or backwards and across idle gaps of any length: `current` folds the step in
   * force and `previous` the step before it.
   */
  lemma {:induction false} RunRefinesHistory(init: real, step: int, t0: int, events: seq<Event>)
    requires step > 0
    ensures var f, start := Run(New(init, step, t0), events), StepOf(t0, step);
      && f.last == StepAfter(start, step, events)
      && f.current == FoldStep(init, start, step, events, f.last)
      && f.previous == FoldStep(init, start, step, events, f.last - 1)
  {
    var start := StepOf(t0, step);
    if events != [] {
      var before, e := events[..|events| - 1], events[|events| - 1];
      RunRefinesHistory(init, step, t0, before);
      var last := StepAfter(start, step, before);
      var s := StepOf(e.now, step);
      if last < s {
        NothingAhead(init, start, step, before, s);
        if last < s - 1 { NothingAhead(init, start, step, before, s - 1); }
      }
    }
  }

  // ----- Well-behaved clocks -----

  predicate Monotone(t0: int, events: seq<Event>) {
    && 0 <= t0
    && (forall i :: 0 <= i < |events| ==> t0 <= events[i].now)
    && (forall i, j :: 0 <= i < j < |events| ==> events[i].now <= events[j].now)
  }

  /** Fold of the operations whose own clock reading lies in step `k`. */
  function FoldReadings(init: real, step: int, events: seq<Event>, k: int): real
    requires step > 0
  {
    if events == [] then init
    else
      var n := |events| - 1;
      var before := FoldReadings(init, step, events[..n], k);
      if events[n].action.Record? && StepOf(events[n].now, step) == k then Apply(events[n].action.op, before)
      else before
  }

  lemma StepOfMonotone(a: int, b: int, step: int)
    requires step > 0 && 0 <= a <= b
    ensures StepOf(a, step) <= StepOf(b, step)
  {
    var x, y := a / step, b / step;
    assert x * step <= a && b < (y + 1) * step;
    assert x > y ==> x * step >= (y + 1) * step;
  }

  lemma {:induction false} MonotoneReadings(init: real, step: int, t0: int, events: seq<Event>, k: int)
    requires step > 0 && Monotone(t0, events)
    ensures FoldStep(init, StepOf(t0, step), step, events, k) == FoldReadings(init, step, events, k)
    ensures events != [] ==> StepAfter(StepOf(t0, step), step, events) == StepOf(events[|events| - 1].now, step)
  {
    if events != [] {
      var n := |events| - 1;
      var before := events[..n];
      assert Monotone(t0, before);
      MonotoneReadings(init, step, t0, before, k);
      if n > 0 {
        assert before[n - 1] == events[n - 1];
        StepOfMonotone(events[n - 1].now, events[n].now, step);
      } else {
        assert before == [];
        StepOfMonotone(t0, events[n].now, step);
      }
      var start := StepOf(t0, step);
      assert StepAfter(start, step, events) == Later(StepAfter(start, step, before), StepOf(events[n].now, step));
      assert FoldStep(init, start, step, before, k) == FoldReadings(init, step, before, k);
    }
  }

  /** Under a clock that never goes back, a read at `now` sees exactly those of step now/step, or the one before. */
  lemma ReadsUnderMonotoneClock(init: real, step: int, t0: int, events: seq<Event>, now: int)
    requires step > 0 && Monotone(t0, events + [Event(now, Poll)])
    ensures var f := Run(New(init, step, t0), events + [Event(now, Poll)]);
      && f.previous == FoldReadings(init, step, events, now / step - 1)
      && f.current == FoldReadings(init, step, events, now / step)
  {
    var all := events + [Event(now, Poll)];
    assert all[..|events|] == events;
    RunRefinesHistory(init, step, t0, all);
    MonotoneReadings(init, step, t0, all, now / step);
    MonotoneReadings(init, step, t0, all, now / step - 1);
  }

  // ----- The object -----

  class StepNumber {
    const init: real
    const stepMillis: int
    var previous: real
    var current: real
    var lastInitPos: int

    ghost const startTime: int
    ghost var events: seq<Event>

    ghost function State(): Fields
      reads this
    {
      Fields(init, stepMillis, previous, current, lastInitPos)
    }

    ghost predicate Valid()
      reads this
    {
      stepMillis > 0 && State() == Run(New(init, stepMillis, startTime), events)
    }

    /** The fold of what was recorded in step `k`, by the history alone. */
    ghost function InStep(k: int): real
      reads this
      requires stepMillis > 0
    {
      FoldStep(init, StepOf(startTime, stepMillis), stepMillis, events, k)
    }

    ghost function StepInForce(): int
      reads this
      requires stepMillis > 0
    {
      StepAfter(StepOf(startTime, stepMillis), stepMillis, events)
    }

    constructor (init: real, stepMillis: int, now: int)
      requires stepMillis > 0
      ensures Valid() && events == [] && startTime == now
      ensures this.init == init && this.stepMillis == stepMillis
    {
      this.init, this.stepMillis := init, stepMillis;
      previous, current := init, init;
      lastInitPos := StepOf(now, stepMillis);
      startTime, events := now, [];
    }

    method RollCount(now: int)
      requires stepMillis > 0
      modifies this`previous, this`current, this`lastInitPos
      ensures State() == Roll(old(State()), now)
    {
      var stepTime := StepOf(now, stepMillis);
      var lastInit := lastInitPos;
      if lastInit < stepTime {
        lastInitPos := stepTime;
        var v := current;
        current := init;
        previous := if lastInit == stepTime - 1 then v else init;
      }
    }

    /** Ghost bookkeeping: the action just performed extends the history. */
    ghost method Log(e: Event)
      requires stepMillis > 0
      requires State() == Exec(Run(New(init, stepMillis, startTime), events), e)
      modifies this`events
      ensures Valid() && events == old(events) + [e]
      ensures lastInitPos == StepInForce()
      ensures current == InStep(StepInForce()) && previous == InStep(StepInForce() - 1)
    {
      events := events + [e];
      assert events[..|events| - 1] == old(events);
      RunRefinesHistory(init, stepMillis, startTime, events);
    }

    method Poll(now: int) returns (v: real)
      requires Valid()
      modifies this
      ensures Valid() && events == old(events) + [Event(now, Action.Poll)]
      ensures v == InStep(StepInForce() - 1)
    {
      RollCount(now);
      v := previous;
      Log(Event(now, Action.Poll));
    }

    method Current(now: int) returns (v: real)
      requires Valid()
      modifies this
      ensures Valid() && events == old(events) + [Event(now, Action.Current)]
      ensures v == InStep(StepInForce()) && v == current
    {
      RollCount(now);
      v := current;
      Log(Event(now, Action.Current));
    }

    method Add(amount: real, now: int)
      requires Valid()
      modifies this
      ensures Valid() && events == old(events) + [Event(now, Record(Op.Add(amount)))]
      ensures current == InStep(StepInForce())
    {
      RollCount(now);
      current := current + amount;
      Log(Event(now, Record(Op.Add(amount))));
    }

    /** `spurious` is how often the weak compare-and-swap fails for no reason. */
    method UpdateCurrentMax(value: real, now: int, spurious: nat)
      requires Valid()
      modifies this
      ensures Valid() && events == old(events) + [Event(now, Record(Max(value)))]
      ensures current == InStep(StepInForce())
    {
      RollCount(now);
      var m, failures := current, spurious;
      ghost var rolled := current;
      while value > m
        invariant m == current == rolled
        invariant previous == Roll(old(State()), now).previous && lastInitPos == Roll(old(State()), now).last
        decreases failures
      {
        if failures == 0 {
          current := value;
          break;
        }
        failures := failures - 1;
        m := current;
      }
      Log(Event(now, Record(Max(value))));
    }
  }
}
