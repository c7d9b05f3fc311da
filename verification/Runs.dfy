/**
 * What the consolidation registry holds, reports and drops over every run of updates and measurements, at any times,
 * in terms of the calls made.
 */
module Runs {
  import opened Collections
  import opened Doubles
  import opened StepNumbers
  import opened Consolidation
  import opened Expiry

  /** An entry's own history: the clock when it was created, and what was done to it since. */
  datatype Life = Life(start: int, events: seq<Event>)

  // ----- The history of an entry, from the calls -----

  /** What an update does to `id`. */
  function UpdateEvents(c: Config, ms: seq<Measurement>, now: int, id: Id): seq<Event>
    requires c.Valid()
  {
    if ms == [] then []
    else
      var m := ms[|ms| - 1];
      UpdateEvents(c, ms[..|ms| - 1], now, id)
        + (if m.id == id && m.value.Val? then [Event(now, Record(OpFor(c, id, m.value.r)))] else [])
  }

  function OpFor(c: Config, id: Id, x: real): Op
    requires c.Valid()
  {
    if IsGauge(id) then Max(x) else Add(x / (c.multiple as real))
  }

  /** What a measurement does to an entry it keeps: one poll, and a second when the first shows a value. */
  function MeasureEvents(reported: bool, r: Reading): seq<Event> {
    if reported then [Event(r.first, Poll), Event(r.second, Poll)] else [Event(r.first, Poll)]
  }

  /** The history of `id` since it was last created; None while it is not there. */
  function LifeOf(c: Config, calls: seq<Call>, id: Id): Option<Life>
    requires c.Valid()
  {
    if calls == [] then None
    else
      var n := |calls| - 1;
      var before := LifeOf(c, calls[..n], id);
      match calls[n]
      case Updating(ms, now) => Updated(before, UpdateEvents(c, ms, now, id), now)
      case Measuring(readings) =>
        if before.None? || id !in After(c, calls) then None
        else Some(Longer(before.value, MeasureEvents(id in ReportedBy(After(c, calls[..n]), readings), readings(id))))
  }

  function Longer(life: Life, more: seq<Event>): Life { life.(events := life.events + more) }

  function Updated(before: Option<Life>, events: seq<Event>, now: int): Option<Life> {
    if events == [] then before
    else if before.None? then Some(Life(now, events))
    else Some(Longer(before.value, events))
  }

  // ----- Every entry refines its history -----

  function Born(c: Config, id: Id, start: int): Fields
    requires c.Valid()
  {
    ReportingPositive(c);
    New(Initial(IsGauge(id)), c.ReportingFrequency(), start)
  }

  /** `cv` is what the step number makes of the history. */
  ghost predicate Lived(c: Config, cv: Consolidated, id: Id, life: Life)
    requires c.Valid()
  {
    cv.gauge == IsGauge(id) && cv.multiple == c.multiple && cv.v == Run(Born(c, id, life.start), life.events)
  }

  ghost predicate LivedIn(c: Config, values: Values, id: Id, life: Option<Life>)
    requires c.Valid()
  {
    (id in values <==> life.Some?) && (id in values ==> Lived(c, values[id], id, life.value))
  }

  lemma LivesOn(c: Config, cv: Consolidated, id: Id, life: Life, more: seq<Event>, after: Consolidated)
    requires c.Valid() && cv.Valid() && Lived(c, cv, id, life)
    requires after.gauge == cv.gauge && after.multiple == cv.multiple && after.v == Run(cv.v, more)
    ensures Lived(c, after, id, Longer(life, more))
  {
    RunConcat(Born(c, id, life.start), life.events, more);
  }

  lemma RunOnce(f: Fields, e: Event)
    requires ValidFields(f)
    ensures Run(f, [e]) == Exec(f, e)
  {
    assert [e][..0] == [];
  }

  lemma RunTwice(f: Fields, d: Event, e: Event)
    requires ValidFields(f)
    ensures Run(f, [d, e]) == Exec(Exec(f, d), e)
  {
    RunOnce(f, d);
    assert [d, e][..1] == [d];
  }

  lemma UpdateOneLives(c: Config, values: Values, m: Measurement, now: int, id: Id, life: Option<Life>)
    requires c.Valid() && ValidValues(values) && LivedIn(c, values, id, life)
    ensures var events := if m.id == id && m.value.Val? then [Event(now, Record(OpFor(c, id, m.value.r)))] else [];
      LivedIn(c, UpdateOne(c, values, m, now), id, Updated(life, events, now))
  {
    if m.id == id && m.value.Val? {
      var e := Event(now, Record(OpFor(c, id, m.value.r)));
      var after := UpdateOne(c, values, m, now)[id];
      if id in values {
        RunOnce(values[id].v, e);
        LivesOn(c, values[id], id, life.value, [e], after);
      } else {
        RunOnce(Born(c, id, now), e);
      }
    }
  }

  lemma {:induction false} UpdateAllLives(
    c: Config, values: Values, ms: seq<Measurement>, now: int, id: Id, life: Option<Life>)
    requires c.Valid() && ValidValues(values) && LivedIn(c, values, id, life)
    ensures LivedIn(c, UpdateAll(c, values, ms, now), id, Updated(life, UpdateEvents(c, ms, now, id), now))
    decreases |ms|
  {
    if ms != [] {
      var n := |ms| - 1;
      var before := UpdateEvents(c, ms[..n], now, id);
      UpdateAllLives(c, values, ms[..n], now, id, life);
      UpdateOneLives(c, UpdateAll(c, values, ms[..n], now), ms[n], now, id, Updated(life, before, now));
      UpdatedTwice(life, before, UpdateEvents(c, ms, now, id)[|before|..], now);
    }
  }

  lemma UpdatedTwice(life: Option<Life>, a: seq<Event>, b: seq<Event>, now: int)
    ensures Updated(Updated(life, a, now), b, now) == Updated(life, a + b, now)
  {
    if a == [] { assert a + b == b; }
    if b == [] { assert a + b == a; }
    if life.Some? { assert life.value.events + a + b == life.value.events + (a + b); }
  }

  lemma VisitedLives(c: Config, cv: Consolidated, id: Id, life: Life, r: Reading)
    requires c.Valid() && cv.Valid() && Lived(c, cv, id, life)
    ensures Lived(c, VisitedBy(cv, r), id, Longer(life, MeasureEvents(cv.HasValue(r.first), r)))
  {
    RunOnce(cv.v, Event(r.first, Poll));
    RunTwice(cv.v, Event(r.first, Poll), Event(r.second, Poll));
    LivesOn(c, cv, id, life, MeasureEvents(cv.HasValue(r.first), r), VisitedBy(cv, r));
  }

  /** In every run, an entry is there iff it has a history, and its fields are those of its own history run through. */
  lemma {:induction false} EntriesRefineLives(c: Config, calls: seq<Call>, id: Id)
    requires c.Valid()
    ensures LivedIn(c, After(c, calls), id, LifeOf(c, calls, id))
  {
    if calls != [] {
      var n := |calls| - 1;
      var before, life := After(c, calls[..n]), LifeOf(c, calls[..n], id);
      EntriesRefineLives(c, calls[..n], id);
      match calls[n]
      case Updating(ms, now) => UpdateAllLives(c, before, ms, now, id, life);
      case Measuring(readings) => if id in before { VisitedLives(c, before[id], id, life.value, readings(id)); }
    }
  }

  // ----- What is reported -----

  /** The step in force: the latest any clock reading of the entry has shown. */
  function InForce(c: Config, life: Life): int
    requires c.Valid()
  {
    ReportingPositive(c);
    StepAfter(StepOf(life.start, c.ReportingFrequency()), c.ReportingFrequency(), life.events)
  }

  /** Fold of the updates of `id` made while step `k` was in force. */
  function FoldOf(c: Config, id: Id, life: Life, k: int): real
    requires c.Valid()
  {
    ReportingPositive(c);
    FoldStep(Initial(IsGauge(id)), StepOf(life.start, c.ReportingFrequency()), c.ReportingFrequency(), life.events, k)
  }

  /** The step in force once the clock has also shown `now`. */
  function InForceAt(c: Config, life: Life, now: int): int
    requires c.Valid()
  {
    ReportingPositive(c);
    Later(InForce(c, life), StepOf(now, c.ReportingFrequency()))
  }

  /** The step whose fold a measurement asks for. */
  function StepReported(c: Config, life: Life, r: Reading): int
    requires c.Valid()
  {
    ReportingPositive(c);
    Later(InForceAt(c, life, r.first), StepOf(r.second, c.ReportingFrequency())) - 1
  }

  /** The fields of an entry are the folds of its history, also after polls. */
  lemma FieldsAreFolds(c: Config, cv: Consolidated, id: Id, life: Life)
    requires c.Valid() && cv.Valid() && Lived(c, cv, id, life)
    ensures cv.v.last == InForce(c, life)
    ensures cv.v.current == FoldOf(c, id, life, InForce(c, life))
    ensures cv.v.previous == FoldOf(c, id, life, InForce(c, life) - 1)
  {
    ReportingPositive(c);
    RunRefinesHistory(Initial(IsGauge(id)), c.ReportingFrequency(), life.start, life.events);
  }

  /** Polling moves the step in force, and changes no fold. */
  lemma PolledIsFolds(c: Config, cv: Consolidated, id: Id, life: Life, now: int)
    requires c.Valid() && cv.Valid() && Lived(c, cv, id, life)
    ensures var k := InForceAt(c, life, now);
      && cv.Polled(now).last == k
      && cv.Polled(now).current == FoldOf(c, id, life, k)
      && cv.Polled(now).previous == FoldOf(c, id, life, k - 1)
  {
    ReportingPositive(c);
    var polled, e := cv.(v := cv.Polled(now)), Event(now, Poll);
    RunOnce(cv.v, e);
    LivesOn(c, cv, id, life, [e], polled);
    FieldsAreFolds(c, polled, id, Longer(life, [e]));
    PollAddsNothing(c, id, life, now);
  }

  lemma PollAddsNothing(c: Config, id: Id, life: Life, now: int)
    requires c.Valid()
    ensures InForce(c, Longer(life, [Event(now, Poll)])) == InForceAt(c, life, now)
    ensures forall k :: FoldOf(c, id, Longer(life, [Event(now, Poll)]), k) == FoldOf(c, id, life, k)
  {
    var events := life.events + [Event(now, Poll)];
    assert events[..|events| - 1] == life.events;
  }

  /**
   * `id` is reported iff the step before the one in force at the first reading holds a value; the value reported is the
   * fold of the step before the one in force at the second reading.
   */
  ghost predicate ReportsFolds(c: Config, values: Values, id: Id, life: Option<Life>, readings: Readings)
    requires c.Valid() && ValidValues(values)
  {
    var report, r := ReportedBy(values, readings), readings(id);
    && (id in report <==>
          life.Some? && Positive(id, FoldOf(c, id, life.value, InForceAt(c, life.value, r.first) - 1)))
    && (id in report ==> report[id] == FoldOf(c, id, life.value, StepReported(c, life.value, r)))
  }

  lemma ReportedFromLife(c: Config, values: Values, id: Id, life: Option<Life>, readings: Readings)
    requires c.Valid() && ValidValues(values) && LivedIn(c, values, id, life)
    ensures ReportsFolds(c, values, id, life, readings)
  {
    if id in values {
      PolledIsFolds(c, values[id], id, life.value, readings(id).first);
      AskedIsFold(c, values[id], id, life.value, readings(id));
    }
  }

  lemma AskedIsFold(c: Config, cv: Consolidated, id: Id, life: Life, r: Reading)
    requires c.Valid() && cv.Valid() && Lived(c, cv, id, life)
    ensures Asked(cv, r).previous == FoldOf(c, id, life, StepReported(c, life, r))
  {
    var polled, e := cv.(v := cv.Polled(r.first)), Event(r.first, Poll);
    RunOnce(cv.v, e);
    LivesOn(c, cv, id, life, [e], polled);
    PolledIsFolds(c, polled, id, Longer(life, [e]), r.second);
    PollAddsNothing(c, id, life, r.first);
  }

  /** What is reported in any run is read off the entry's history. */
  lemma ReportedOnAnyRun(c: Config, calls: seq<Call>, readings: Readings, id: Id)
    requires c.Valid()
    ensures ReportsFolds(c, After(c, calls), id, LifeOf(c, calls, id), readings)
  {
    EntriesRefineLives(c, calls, id);
    ReportedFromLife(c, After(c, calls), id, LifeOf(c, calls, id), readings);
  }

  /**
   * The value reported is that of the step found to hold one iff no step turned between the two readings, or one did
   * and the next step happens to have gathered the same. Otherwise it is that of a later step: what the step then in
   * force had gathered so far, or nothing.
   */
  lemma TornIff(c: Config, calls: seq<Call>, readings: Readings, id: Id, life: Life)
    requires c.Valid() && id in ReportedBy(After(c, calls), readings) && LifeOf(c, calls, id) == Some(life)
    ensures Torn(c, id, life, readings(id), ReportedBy(After(c, calls), readings)[id])
  {
    ReportedOnAnyRun(c, calls, readings, id);
    TornReportOf(c, After(c, calls), id, life, readings);
  }

  lemma TornReportOf(c: Config, values: Values, id: Id, life: Life, readings: Readings)
    requires c.Valid() && ValidValues(values) && ReportsFolds(c, values, id, Some(life), readings)
    requires id in ReportedBy(values, readings)
    ensures Torn(c, id, life, readings(id), ReportedBy(values, readings)[id])
  {
    TornValue(c, id, life, readings(id));
  }

  /** What `value` is, and exactly when it is that of the step before the one in force at the first reading. */
  ghost predicate Torn(c: Config, id: Id, life: Life, r: Reading, value: real)
    requires c.Valid()
  {
    ReportingPositive(c);
    var k, second := InForceAt(c, life, r.first), StepOf(r.second, c.ReportingFrequency());
    && value == (if second <= k then FoldOf(c, id, life, k - 1)
                 else if second == k + 1 then FoldOf(c, id, life, k)
                 else Initial(IsGauge(id)))
    && (value == FoldOf(c, id, life, k - 1) <==>
          second <= k || (second == k + 1 && FoldOf(c, id, life, k) == FoldOf(c, id, life, k - 1)))
  }

  lemma TornValue(c: Config, id: Id, life: Life, r: Reading)
    requires c.Valid() && Positive(id, FoldOf(c, id, life, InForceAt(c, life, r.first) - 1))
    ensures Torn(c, id, life, r, FoldOf(c, id, life, StepReported(c, life, r)))
  {
    NothingReported(c, id, life, r);
  }

  lemma NothingReported(c: Config, id: Id, life: Life, r: Reading)
    requires c.Valid()
    ensures StepReported(c, life, r) > InForce(c, life) ==>
      FoldOf(c, id, life, StepReported(c, life, r)) == Initial(IsGauge(id))
  {
    ReportingPositive(c);
    var k, step := StepReported(c, life, r), c.ReportingFrequency();
    if k > InForce(c, life) {
      NothingAhead(Initial(IsGauge(id)), StepOf(life.start, step), step, life.events, k);
    }
  }

  // ----- Once, or twice -----

  /** The entry is there throughout `more`. */
  ghost predicate Stays(c: Config, calls: seq<Call>, more: seq<Call>, id: Id)
    requires c.Valid()
    decreases |more|
  {
    id in After(c, calls) && (more != [] ==> Stays(c, calls + [more[0]], more[1..], id))
  }

  lemma LifeStep(c: Config, calls: seq<Call>, call: Call, id: Id) returns (added: seq<Event>)
    requires c.Valid() && id in After(c, calls) && id in After(c, calls + [call])
    ensures LifeOf(c, calls, id).Some?
    ensures LifeOf(c, calls + [call], id) == Some(Longer(LifeOf(c, calls, id).value, added))
  {
    var all := calls + [call];
    assert all[..|all| - 1] == calls;
    EntriesRefineLives(c, calls, id);
    var life := LifeOf(c, calls, id).value;
    match call
    case Updating(ms, now) =>
      added := UpdateEvents(c, ms, now, id);
      if added == [] { assert life.events + added == life.events; }
    case Measuring(readings) =>
      added := MeasureEvents(id in ReportedBy(After(c, calls), readings), readings(id));
  }

  lemma Shift(calls: seq<Call>, more: seq<Call>)
    requires more != []
    ensures calls + more == calls + [more[0]] + more[1..]
  {
  }

  lemma LongerByNothing(calls: seq<Call>, life: Life)
    ensures calls + [] == calls && Longer(life, []) == life
  {
    assert life.events + [] == life.events;
  }

  lemma LongerTwice(life: Life, a: seq<Event>, b: seq<Event>)
    ensures Longer(Longer(life, a), b) == Longer(life, a + b)
  {
    assert life.events + a + b == life.events + (a + b);
  }

  /** While an entry stays, its history only grows. */
  lemma {:induction false} LifeGrows(c: Config, calls: seq<Call>, more: seq<Call>, id: Id, life: Life)
    returns (added: seq<Event>)
    requires c.Valid() && Stays(c, calls, more, id) && LifeOf(c, calls, id) == Some(life)
    ensures LifeOf(c, calls + more, id) == Some(Longer(life, added))
    decreases |more|
  {
    if more == [] {
      added := [];
      LongerByNothing(calls, life);
    } else {
      Shift(calls, more);
      var first := LifeStep(c, calls, more[0], id);
      var rest := LifeGrows(c, calls + [more[0]], more[1..], id, Longer(life, first));
      added := first + rest;
      LongerTwice(life, first, rest);
    }
  }

  /**
   * Two measurements report the same step iff no reading after the first shows a later one, and then they report the
   * same value: what was recorded in that step is reported twice.
   */
  lemma ReportedTwiceIff(
    c: Config, calls: seq<Call>, r1: Readings, more: seq<Call>, r2: Readings, id: Id, l1: Life, l2: Life)
    requires c.Valid() && Stays(c, calls + [Measuring(r1)], more, id)
    requires LifeOf(c, calls, id) == Some(l1) && LifeOf(c, calls + [Measuring(r1)] + more, id) == Some(l2)
    requires id in ReportedBy(After(c, calls), r1) && id in ReportedBy(After(c, calls + [Measuring(r1)] + more), r2)
    ensures var k1, k2 := StepReported(c, l1, r1(id)), StepReported(c, l2, r2(id));
      && k1 <= k2
      && (k1 == k2 <==> NoneLater(c, l2, r2(id), k1 + 1))
      && (k1 == k2 ==>
            ReportedBy(After(c, calls + [Measuring(r1)] + more), r2)[id] == ReportedBy(After(c, calls), r1)[id])
  {
    var mid := calls + [Measuring(r1)];
    var lm := LifeAfterMeasuring(c, calls, r1, id, l1);
    var added := LifeGrows(c, mid, more, id, lm);
    SameStepIff(c, id, l1, r1(id), added, l2, r2(id));
    ReportedOnAnyRun(c, calls, r1, id);
    ReportedOnAnyRun(c, mid + more, r2, id);
  }

  lemma SameStepIff(c: Config, id: Id, l1: Life, r1: Reading, added: seq<Event>, l2: Life, r2: Reading)
    requires c.Valid() && l2 == Longer(Longer(l1, MeasureEvents(true, r1)), added)
    ensures var k1, k2 := StepReported(c, l1, r1), StepReported(c, l2, r2);
      && k1 <= k2
      && (k1 == k2 <==> NoneLater(c, l2, r2, k1 + 1))
      && FoldOf(c, id, l2, k1) == FoldOf(c, id, l1, k1)
  {
    var lm, k1 := Longer(l1, MeasureEvents(true, r1)), StepReported(c, l1, r1);
    AfterAsking(c, id, l1, r1, lm);
    Final(c, id, lm, added, k1);
    Latest(c, l2, r2, k1 + 1);
  }

  lemma LifeAfterMeasuring(c: Config, calls: seq<Call>, r: Readings, id: Id, life: Life) returns (after: Life)
    requires c.Valid() && id in ReportedBy(After(c, calls), r) && LifeOf(c, calls, id) == Some(life)
    ensures LifeOf(c, calls + [Measuring(r)], id) == Some(after) && after == Longer(life, MeasureEvents(true, r(id)))
  {
    var mid := calls + [Measuring(r)];
    assert mid[..|mid| - 1] == calls;
    after := Longer(life, MeasureEvents(true, r(id)));
  }

  lemma AfterAsking(c: Config, id: Id, life: Life, r: Reading, after: Life)
    requires c.Valid() && after == Longer(life, MeasureEvents(true, r))
    ensures InForce(c, after) == StepReported(c, life, r) + 1
    ensures forall k :: FoldOf(c, id, after, k) == FoldOf(c, id, life, k)
  {
    var once := Longer(life, [Event(r.first, Poll)]);
    assert after == Longer(once, [Event(r.second, Poll)]);
    PollAddsNothing(c, id, life, r.first);
    PollAddsNothing(c, id, once, r.second);
  }

  lemma Final(c: Config, id: Id, life: Life, added: seq<Event>, k: int)
    requires c.Valid() && k < InForce(c, life)
    ensures InForce(c, life) <= InForce(c, Longer(life, added))
    ensures FoldOf(c, id, Longer(life, added), k) == FoldOf(c, id, life, k)
  {
    ReportingPositive(c);
    var step := c.ReportingFrequency();
    PastIsFinal(Initial(IsGauge(id)), StepOf(life.start, step), step, life.events, added, k);
  }

  /** No reading of the entry, nor `r`, shows a step after `k`. */
  ghost predicate NoneLater(c: Config, life: Life, r: Reading, k: int)
    requires c.Valid()
  {
    ReportingPositive(c);
    var step := c.ReportingFrequency();
    && StepOf(life.start, step) <= k && StepOf(r.first, step) <= k && StepOf(r.second, step) <= k
    && (forall e :: e in life.events ==> StepOf(e.now, step) <= k)
  }

  lemma Latest(c: Config, life: Life, r: Reading, k: int)
    requires c.Valid()
    ensures NoneLater(c, life, r, k) <==> StepReported(c, life, r) + 1 <= k
  {
    ReportingPositive(c);
    StepAfterIsLatest(StepOf(life.start, c.ReportingFrequency()), c.ReportingFrequency(), life.events);
  }

  // ----- Instances -----

  /** Updates every five seconds, reports every minute. */
  const EVERY_MINUTE: Config := Config(5000, 12)

  /** One update of `id` by `x`, in the first minute. */
  function OneUpdate(id: Id, x: real): seq<Call> { [Updating([Measurement(id, 0, Val(x))], 0)] }

  function OneLife(x: real): Life { Life(0, [Event(0, Record(Add(x / 12.0)))]) }

  lemma OneUpdateLives(id: Id, x: real)
    requires !IsGauge(id)
    ensures LifeOf(EVERY_MINUTE, OneUpdate(id, x), id) == Some(OneLife(x))
  {
    var calls, ms := OneUpdate(id, x), [Measurement(id, 0, Val(x))];
    assert calls[..0] == [] && ms[..0] == [];
    assert UpdateEvents(EVERY_MINUTE, ms[..0], 0, id) == [];
    assert UpdateEvents(EVERY_MINUTE, ms, 0, id) == [Event(0, Record(Add(x / 12.0)))];
  }

  lemma OneLifeFolds(id: Id, x: real)
    requires !IsGauge(id)
    ensures InForce(EVERY_MINUTE, OneLife(x)) == 0
    ensures FoldOf(EVERY_MINUTE, id, OneLife(x), 0) == x / 12.0 && FoldOf(EVERY_MINUTE, id, OneLife(x), 1) == 0.0
  {
    var events := OneLife(x).events;
    assert events[..0] == [];
    assert StepAfter(0, 60000, events[..0]) == 0 && StepAfter(0, 60000, events) == 0;
    assert FoldStep(0.0, 0, 60000, events[..0], 0) == 0.0 && FoldStep(0.0, 0, 60000, events[..0], 1) == 0.0;
  }

  /** A minute turns between the two readings: the counter is found to hold a value, and reported as zero. */
  lemma TornReport(id: Id, x: real)
    requires !IsGauge(id) && x > 0.0
    ensures var report := ReportedBy(After(EVERY_MINUTE, OneUpdate(id, x)), _ => Reading(60000, 120000));
      id in report && report[id] == 0.0
  {
    OneUpdateLives(id, x);
    OneLifeFolds(id, x);
    ReportedOnAnyRun(EVERY_MINUTE, OneUpdate(id, x), _ => Reading(60000, 120000), id);
  }

  /** Two measurements in the minute after the update both report it. */
  lemma ReportedTwice(id: Id, x: real)
    requires !IsGauge(id) && x > 0.0
    ensures var c, calls, readings := EVERY_MINUTE, OneUpdate(id, x), (_: Id) => Reading(60000, 60000);
      var first, second := ReportedBy(After(c, calls), readings),
        ReportedBy(After(c, calls + [Measuring(readings)]), readings);
      id in first && id in second && first[id] == second[id] == x / 12.0
  {
    var c, calls, readings := EVERY_MINUTE, OneUpdate(id, x), (_: Id) => Reading(60000, 60000);
    OneUpdateLives(id, x);
    OneLifeFolds(id, x);
    ReportedOnAnyRun(c, calls, readings, id);
    var life := LifeAfterMeasuring(c, calls, readings, id, OneLife(x));
    AfterAsking(c, id, OneLife(x), readings(id), life);
    ReportedOnAnyRun(c, calls + [Measuring(readings)], readings, id);
  }

  // ----- What removal loses -----

  /** `now` shows a later step than every reading of the entry so far. */
  ghost predicate LaterThanAll(c: Config, life: Life, now: int)
    requires c.Valid()
  {
    ReportingPositive(c);
    var step := c.ReportingFrequency();
    && StepOf(now, step) > StepOf(life.start, step)
    && (forall e :: e in life.events ==> StepOf(now, step) > StepOf(e.now, step))
  }

  /**
   * Removal by a measurement loses something iff the measurement comes no later than the step in force, and that step
   * holds something.
   */
  lemma RemovalDiscardsIff(c: Config, calls: seq<Call>, readings: Readings, id: Id, life: Life)
    requires c.Valid() && LifeOf(c, calls, id) == Some(life) && id !in After(c, calls + [Measuring(readings)])
    ensures id in After(c, calls)
    ensures After(c, calls)[id].Polled(readings(id).first).current != Initial(IsGauge(id)) <==>
      && !LaterThanAll(c, life, readings(id).first)
      && FoldOf(c, id, life, InForce(c, life)) != Initial(IsGauge(id))
  {
    EntriesRefineLives(c, calls, id);
    var now := readings(id).first;
    PolledIsFolds(c, After(c, calls)[id], id, life, now);
    HoldsIff(c, id, life, now);
  }

  lemma HoldsIff(c: Config, id: Id, life: Life, now: int)
    requires c.Valid()
    ensures FoldOf(c, id, life, InForceAt(c, life, now)) != Initial(IsGauge(id)) <==>
      !LaterThanAll(c, life, now) && FoldOf(c, id, life, InForce(c, life)) != Initial(IsGauge(id))
  {
    ReportingPositive(c);
    var step := c.ReportingFrequency();
    var start := StepOf(life.start, step);
    StepAfterIsLatest(start, step, life.events);
    if StepOf(now, step) > InForce(c, life) {
      NothingAhead(Initial(IsGauge(id)), start, step, life.events, StepOf(now, step));
    }
  }
}
