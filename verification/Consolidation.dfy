/** Consolidating frequent updates into reporting windows (meter/consolidation_registry.*, meter/clock.h). */
module Consolidation {
  import opened Collections
  import opened Doubles
  import opened Queries
  import opened StepNumbers

  // ----- Clock -----

  /** A clock that shifts the one it wraps; `underlying` is what that one shows. */
  class WrappedClock {
    var underlying: int
    var offset: int

    constructor (now: int)
      ensures underlying == now && offset == 0
    {
      underlying, offset := now, 0;
    }

    function WallTime(): int
      reads this
    {
      underlying + offset
    }

    method SetOffset(o: int)
      modifies this`offset
      ensures offset == o && underlying == old(underlying) && WallTime() == underlying + o
    {
      offset := o;
    }
  }

  // ----- Measurements -----

  datatype Id = Id(name: string, tags: Tags)

  datatype Measurement = Measurement(id: Id, timestamp: int, value: Double)

  const COUNTER_STATISTICS: set<string> :=
    {"count", "totalAmount", "totalTime", "totalOfSquares", "percentile"}

  /** Ids whose statistic is not one of the counters are consolidated by maximum. */
  predicate IsGauge(id: Id) {
    !("statistic" in id.tags && id.tags["statistic"] in COUNTER_STATISTICS)
  }

  // ----- One consolidated value -----

  datatype Consolidated = Consolidated(gauge: bool, multiple: int, v: Fields, marked: bool) {

    predicate Valid() { ValidFields(v) && multiple > 0 }

    /** `v` after a poll at `now`. */
    function Polled(now: int): Fields
      requires Valid()
    {
      Roll(v, now)
    }

    predicate HasValue(now: int)
      requires Valid()
    {
      if gauge then Polled(now).previous > LOWEST_VALUE else Polled(now).previous > 0.0
    }

    function Update(value: real, now: int): Consolidated
      requires Valid()
    {
      var op := if gauge then Max(value) else Add(value / (multiple as real));
      this.(v := Exec(v, Event(now, Record(op))))
    }
  }

  /** What counts as a value for `id`. */
  predicate Positive(id: Id, x: real) { if IsGauge(id) then x > LOWEST_VALUE else x > 0.0 }

  function Initial(gauge: bool): real { if gauge then LOWEST_VALUE else 0.0 }

  function Create(gauge: bool, multiple: int, step: int, now: int): Consolidated
    requires step > 0
  {
    Consolidated(gauge, multiple, New(Initial(gauge), step, now), false)
  }

  // ----- The registry, as a map -----

  type Values = map<Id, Consolidated>

  ghost predicate ValidValues(values: Values) {
    forall id :: id in values ==> values[id].Valid() && values[id].gauge == IsGauge(id)
  }

  /** Frequencies in milliseconds; a report window holds `multiple` updates. */
  datatype Config = Config(updateFrequency: int, multiple: int) {
    predicate Valid() { updateFrequency > 0 && multiple > 0 }
    function ReportingFrequency(): int { updateFrequency * multiple }
  }

  lemma ReportingPositive(c: Config)
    requires c.Valid()
    ensures c.ReportingFrequency() > 0
  {
  }

  function UpdateOne(c: Config, values: Values, m: Measurement, now: int): (r: Values)
    requires c.Valid() && ValidValues(values)
    ensures ValidValues(r)
  {
    ReportingPositive(c);
    match m.value
    case NaN => values
    case Val(x) =>
      var cv := if m.id in values then values[m.id]
                else Create(IsGauge(m.id), c.multiple, c.ReportingFrequency(), now);
      values[m.id := cv.Update(x, now)]
  }

  function UpdateAll(c: Config, values: Values, ms: seq<Measurement>, now: int): (r: Values)
    requires c.Valid() && ValidValues(values)
    ensures ValidValues(r)
    decreases |ms|
  {
    if ms == [] then values
    else UpdateOne(c, UpdateAll(c, values, ms[..|ms| - 1], now), ms[|ms| - 1], now)
  }

  /** What `measurements` reports at `now`. */
  function Reported(values: Values, now: int): map<Id, real>
    requires ValidValues(values)
  {
    map id | id in values && values[id].HasValue(now) :: values[id].Polled(now).previous
  }

  predicate Kept(cv: Consolidated, now: int)
    requires cv.Valid()
  {
    cv.HasValue(now) || !cv.marked
  }

  /** An entry once `measurements` has looked at it: polled, and marked iff it was silent. */
  function Visited(cv: Consolidated, now: int): (r: Consolidated)
    requires cv.Valid()
    ensures r.Valid() && r.gauge == cv.gauge
  {
    cv.(v := cv.Polled(now), marked := !cv.HasValue(now))
  }

  /** What `measurements` leaves behind: polled, marked if silent, gone if silent twice running. */
  function AfterMeasure(values: Values, now: int): (r: Values)
    requires ValidValues(values)
    ensures ValidValues(r)
  {
    map id | id in values && Kept(values[id], now) :: Visited(values[id], now)
  }

  // ----- Measurements that take time -----

  /** What the clock shows when `measurements` asks an entry whether it has a value, and when it then asks for it. */
  datatype Reading = Reading(first: int, second: int)

  type Readings = Id -> Reading

  /** The entry asked for its value, after the question whether it has one. */
  function Asked(cv: Consolidated, r: Reading): Fields
    requires cv.Valid()
  {
    Roll(cv.Polled(r.first), r.second)
  }

  function VisitedBy(cv: Consolidated, r: Reading): (o: Consolidated)
    requires cv.Valid()
    ensures o.Valid() && o.gauge == cv.gauge
  {
    if cv.HasValue(r.first)
    then cv.(v := Asked(cv, r), marked := false)
    else cv.(v := cv.Polled(r.first), marked := true)
  }

  function ReportedBy(values: Values, readings: Readings): map<Id, real>
    requires ValidValues(values)
  {
    map id | id in values && values[id].HasValue(readings(id).first) :: Asked(values[id], readings(id)).previous
  }

  function AfterMeasureBy(values: Values, readings: Readings): (r: Values)
    requires ValidValues(values)
    ensures ValidValues(r)
  {
    map id | id in values && Kept(values[id], readings(id).first) :: VisitedBy(values[id], readings(id))
  }

  /** Both readings lie in the step of `now`. */
  predicate InStepOf(cv: Consolidated, r: Reading, now: int)
    requires cv.Valid()
  {
    StepOf(r.first, cv.v.step) == StepOf(r.second, cv.v.step) == StepOf(now, cv.v.step)
  }

  lemma AskedInStep(cv: Consolidated, r: Reading, now: int)
    requires cv.Valid() && InStepOf(cv, r, now)
    ensures cv.HasValue(r.first) == cv.HasValue(now) && Kept(cv, r.first) == Kept(cv, now)
    ensures Asked(cv, r) == cv.Polled(now) && VisitedBy(cv, r) == Visited(cv, now)
  {
    assert cv.Polled(r.first) == cv.Polled(now);
  }

  /** As long as no step turns meanwhile, it does not matter when each entry is asked. */
  lemma OneStepIsOneReading(values: Values, readings: Readings, now: int)
    requires ValidValues(values) && forall id :: id in values ==> InStepOf(values[id], readings(id), now)
    ensures ReportedBy(values, readings) == Reported(values, now)
    ensures AfterMeasureBy(values, readings) == AfterMeasure(values, now)
  {
    ReportedInStep(values, readings, now);
    forall id | id in values
      ensures Kept(values[id], readings(id).first) == Kept(values[id], now)
      ensures VisitedBy(values[id], readings(id)) == Visited(values[id], now)
    {
      AskedInStep(values[id], readings(id), now);
    }
  }

  lemma ReportedInStep(values: Values, readings: Readings, now: int)
    requires ValidValues(values) && forall id :: id in values ==> InStepOf(values[id], readings(id), now)
    ensures ReportedBy(values, readings) == Reported(values, now)
  {
    forall id | id in values
      ensures values[id].HasValue(readings(id).first) == values[id].HasValue(now)
      ensures Asked(values[id], readings(id)) == values[id].Polled(now)
    {
      AskedInStep(values[id], readings(id), now);
    }
  }

  // ----- The registry object -----

  class ConsolidationRegistry {
    const config: Config
    const clock: WrappedClock
    var myValues: Values

    ghost predicate Valid()
      reads this, clock
    {
      config.Valid() && ValidValues(myValues) && clock.offset == 0
    }

    constructor (config: Config, clock: WrappedClock)
      requires config.Valid() && clock.offset == 0
      ensures Valid() && myValues == map[] && this.config == config && this.clock == clock
    {
      this.config, this.clock := config, clock;
      myValues := map[];
    }

    /** Updates are attributed to the update step that has just ended. */
    method UpdateFrom(measurements: seq<Measurement>)
      requires Valid()
      modifies this`myValues, clock`offset
      ensures Valid()
      ensures myValues == UpdateAll(config, old(myValues), measurements, clock.underlying - config.updateFrequency)
    {
      clock.SetOffset(-config.updateFrequency);
      for i := 0 to |measurements|
        invariant clock.offset == -config.updateFrequency
        invariant ValidValues(myValues)
        invariant myValues == UpdateAll(config, old(myValues), measurements[..i], clock.WallTime())
      {
        var m := measurements[i];
        assert measurements[..i + 1][..i] == measurements[..i];
        if m.value.Val? {
          var cv;
          if m.id in myValues {
            cv := myValues[m.id];
          } else {
            ReportingPositive(config);
            cv := Create(IsGauge(m.id), config.multiple, config.ReportingFrequency(), clock.WallTime());
          }
          myValues := myValues[m.id := cv.Update(m.value.r, clock.WallTime())];
        }
      }
      assert measurements[..|measurements|] == measurements;
      clock.SetOffset(0);
    }

    /** Look at one entry: its value if it has one, and whether it was silent twice running. */
    method Visit(id: Id, r: Reading) returns (value: Option<real>, expired: bool)
      requires ValidValues(myValues) && id in myValues
      modifies this`myValues
      ensures myValues == old(myValues)[id := VisitedBy(old(myValues)[id], r)]
      ensures value == if old(myValues)[id].HasValue(r.first) then Some(Asked(old(myValues)[id], r).previous) else None
      ensures expired == !Kept(old(myValues)[id], r.first)
    {
      var cv := myValues[id];
      var has := cv.HasValue(r.first);
      cv := cv.(v := cv.Polled(r.first));
      value, expired := None, false;
      if has {
        cv := cv.(marked := false);
        cv := cv.(v := cv.Polled(r.second));
        value := Some(cv.v.previous);
      } else if cv.marked {
        expired := true;
      } else {
        cv := cv.(marked := true);
      }
      myValues := myValues[id := cv];
    }

    /** Look at every entry: the reports, and the entries due to go. */
    method VisitAll(timestamp: int, readings: Readings) returns (result: seq<Measurement>, toRemove: set<Id>)
      requires Valid()
      modifies this`myValues
      ensures Partway(myValues, old(myValues), toRemove, {}, readings)
      ensures Reports(result, ReportedBy(old(myValues), readings), timestamp)
    {
      ghost var before := myValues;
      ghost var sofar: map<Id, real> := map[];
      result, toRemove := [], {};
      var pending := myValues.Keys;
      NoneVisited(before, readings);
      while pending != {}
        invariant pending <= before.Keys
        invariant Partway(myValues, before, toRemove, pending, readings)
        invariant ReportedSoFar(sofar, before, pending, readings) && Reports(result, sofar, timestamp)
        decreases |pending|
      {
        // hash order: any pending entry may come next
        var id :| id in pending;
        PartwayValid(myValues, before, toRemove, pending, readings);
        VisitKeeps(myValues, before, toRemove, pending, readings, id);
        VisitReports(before, pending, sofar, result, readings, id, timestamp);
        var value, expired := Visit(id, readings(id));
        if value.Some? {
          sofar := sofar[id := value.value];
          result := result + [Measurement(id, timestamp, Val(value.value))];
        } else if expired {
          toRemove := toRemove + {id};
        }
        pending := pending - {id};
      }
      AllReported(before, sofar, readings);
    }

    /** `readings` is what the clock shows, which goes on running, when each entry is asked. */
    method Measurements(timestamp: int, readings: Readings) returns (result: seq<Measurement>)
      requires Valid()
      modifies this`myValues
      ensures Valid()
      ensures myValues == AfterMeasureBy(old(myValues), readings)
      ensures Reports(result, ReportedBy(old(myValues), readings), timestamp)
    {
      var toRemove;
      result, toRemove := VisitAll(timestamp, readings);
      PartwayDone(myValues, old(myValues), toRemove, readings);
      myValues := map id | id in myValues && id !in toRemove :: myValues[id];
    }
  }

  /** The entries not in `pending` have been visited, and those due to go are in `toRemove`. */
  ghost predicate Partway(values: Values, before: Values, toRemove: set<Id>, pending: set<Id>, readings: Readings)
    requires ValidValues(before)
  {
    && values.Keys == before.Keys
    && (forall id :: id in before ==>
          values[id] == if id in pending then before[id] else VisitedBy(before[id], readings(id)))
    && (forall id :: id in toRemove <==> id in before && id !in pending && !Kept(before[id], readings(id).first))
  }

  ghost predicate ReportedSoFar(sofar: map<Id, real>, before: Values, pending: set<Id>, readings: Readings)
    requires ValidValues(before)
  {
    && (forall id :: id in sofar <==> id in before && id !in pending && before[id].HasValue(readings(id).first))
    && (forall id :: id in sofar ==> sofar[id] == Asked(before[id], readings(id)).previous)
  }

  lemma VisitKeeps(
    values: Values, before: Values, toRemove: set<Id>, pending: set<Id>, readings: Readings, id: Id)
    requires ValidValues(before) && pending <= before.Keys && id in pending
    requires Partway(values, before, toRemove, pending, readings)
    ensures values[id] == before[id]
    ensures Partway(values[id := VisitedBy(before[id], readings(id))], before,
      if Kept(before[id], readings(id).first) then toRemove else toRemove + {id}, pending - {id}, readings)
  {
  }

  lemma PartwayValid(values: Values, before: Values, toRemove: set<Id>, pending: set<Id>, readings: Readings)
    requires ValidValues(before) && Partway(values, before, toRemove, pending, readings)
    ensures ValidValues(values)
  {
  }

  /** What one visit adds to the reports made so far. */
  lemma VisitReports(
    before: Values, pending: set<Id>, sofar: map<Id, real>, result: seq<Measurement>, readings: Readings, id: Id,
    timestamp: int)
    requires ValidValues(before) && pending <= before.Keys && id in pending
    requires ReportedSoFar(sofar, before, pending, readings) && Reports(result, sofar, timestamp)
    ensures var value := Asked(before[id], readings(id)).previous;
      if before[id].HasValue(readings(id).first)
      then ReportedSoFar(sofar[id := value], before, pending - {id}, readings)
           && Reports(result + [Measurement(id, timestamp, Val(value))], sofar[id := value], timestamp)
      else ReportedSoFar(sofar, before, pending - {id}, readings)
  {
    ReportsSnoc(result, sofar, timestamp, id, Asked(before[id], readings(id)).previous);
  }

  lemma NoneVisited(before: Values, readings: Readings)
    requires ValidValues(before)
    ensures Partway(before, before, {}, before.Keys, readings) && ReportedSoFar(map[], before, before.Keys, readings)
  {
  }

  lemma AllReported(before: Values, sofar: map<Id, real>, readings: Readings)
    requires ValidValues(before) && ReportedSoFar(sofar, before, {}, readings)
    ensures sofar == ReportedBy(before, readings)
  {
  }

  lemma PartwayDone(values: Values, before: Values, toRemove: set<Id>, readings: Readings)
    requires ValidValues(before) && Partway(values, before, toRemove, {}, readings)
    ensures (map id | id in values && id !in toRemove :: values[id]) == AfterMeasureBy(before, readings)
  {
  }

  /** `result` lists each id of `reported` once, with its value. */
  ghost predicate Reports(result: seq<Measurement>, reported: map<Id, real>, timestamp: int) {
    && (forall i, j :: 0 <= i < j < |result| ==> result[i].id != result[j].id)
    && (forall m :: m in result ==> m.id in reported && m == Measurement(m.id, timestamp, Val(reported[m.id])))
    && (forall id :: id in reported ==> Measurement(id, timestamp, Val(reported[id])) in result)
  }

  lemma ReportsSnoc(result: seq<Measurement>, reported: map<Id, real>, timestamp: int, id: Id, value: real)
    requires Reports(result, reported, timestamp) && id !in reported
    ensures Reports(result + [Measurement(id, timestamp, Val(value))], reported[id := value], timestamp)
  {
    forall i | 0 <= i < |result| ensures result[i].id != id { assert result[i] in result; }
  }
}
