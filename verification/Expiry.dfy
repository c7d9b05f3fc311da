/** Two-strike expiry of consolidated values, over every run of updates and measurements at any times. */
module Expiry {
  import opened Doubles
  import opened StepNumbers
  import opened Consolidation

  /** A call, with what the registry's clock shows it: an update's is one update step back. */
  datatype Call = Updating(ms: seq<Measurement>, now: int) | Measuring(readings: Readings)

  function Perform(c: Config, values: Values, call: Call): (r: Values)
    requires c.Valid() && ValidValues(values)
    ensures ValidValues(r)
  {
    match call
    case Updating(ms, now) => UpdateAll(c, values, ms, now)
    case Measuring(readings) => AfterMeasureBy(values, readings)
  }

  function After(c: Config, calls: seq<Call>): (r: Values)
    requires c.Valid()
    ensures ValidValues(r)
  {
    if calls == [] then map[] else Perform(c, After(c, calls[..|calls| - 1]), calls[|calls| - 1])
  }

  /** What one call meant for an id: a measurement or not, silent on it if so, and whether it is there afterwards. */
  datatype Outcome = Outcome(measured: bool, silent: bool, present: bool)

  function OutcomeOf(c: Config, before: Values, call: Call, id: Id): Outcome
    requires c.Valid() && ValidValues(before)
  {
    Outcome(call.Measuring?, call.Measuring? && id in before && id !in ReportedBy(before, call.readings),
            id in Perform(c, before, call))
  }

  function History(c: Config, calls: seq<Call>, id: Id): seq<Outcome>
    requires c.Valid()
  {
    if calls == [] then []
    else
      var n := |calls| - 1;
      History(c, calls[..n], id) + [OutcomeOf(c, After(c, calls[..n]), calls[n], id)]
  }

  /** The last measurement was silent on the id, and the id has been there ever since. */
  ghost predicate Struck(h: seq<Outcome>) {
    exists j :: 0 <= j < |h| && StruckAt(h, j)
  }

  ghost predicate StruckAt(h: seq<Outcome>, j: int)
    requires 0 <= j < |h|
  {
    && h[j].measured && h[j].silent
    && (forall k :: j < k < |h| ==> !h[k].measured)
    && (forall k :: j <= k < |h| ==> h[k].present)
  }

  lemma StruckSnoc(h: seq<Outcome>, o: Outcome)
    ensures Struck(h + [o]) <==> o.present && if o.measured then o.silent else Struck(h)
  {
    var g := h + [o];
    assert forall k :: 0 <= k < |h| ==> h[k] == g[k];
    if Struck(g) {
      var j :| 0 <= j < |g| && StruckAt(g, j);
      assert g[|h|] == o;
      if j < |h| { assert StruckAt(h, j); }
    }
    if o.present && o.measured && o.silent {
      assert StruckAt(g, |h|);
    }
    if o.present && !o.measured && Struck(h) {
      var j :| 0 <= j < |h| && StruckAt(h, j);
      assert StruckAt(g, j);
    }
  }

  lemma {:induction false} UpdatesKeepMarks(c: Config, values: Values, ms: seq<Measurement>, now: int, id: Id)
    requires c.Valid() && ValidValues(values)
    ensures var r := UpdateAll(c, values, ms, now);
      && (id in values ==> id in r && r[id].marked == values[id].marked)
      && (id !in values && id in r ==> !r[id].marked)
    decreases |ms|
  {
    if ms != [] { UpdatesKeepMarks(c, values, ms[..|ms| - 1], now, id); }
  }

  /** An entry is marked iff the last measurement that saw it found no value. */
  lemma {:induction false} MarkedIffStruck(c: Config, calls: seq<Call>, id: Id)
    requires c.Valid()
    ensures id in After(c, calls) && After(c, calls)[id].marked <==> Struck(History(c, calls, id))
  {
    if calls != [] {
      var n := |calls| - 1;
      var before := After(c, calls[..n]);
      MarkedIffStruck(c, calls[..n], id);
      StruckSnoc(History(c, calls[..n], id), OutcomeOf(c, before, calls[n], id));
      if calls[n].Updating? { UpdatesKeepMarks(c, before, calls[n].ms, calls[n].now, id); }
    }
  }

  /** An id disappears exactly when two measurements running find no value for it, with no other in between. */
  lemma RemovedAfterTwoStrikes(c: Config, calls: seq<Call>, call: Call, id: Id)
    requires c.Valid() && id in After(c, calls)
    ensures id !in After(c, calls + [call]) <==>
      call.Measuring? && id !in ReportedBy(After(c, calls), call.readings) && Struck(History(c, calls, id))
  {
    assert (calls + [call])[..|calls|] == calls;
    MarkedIffStruck(c, calls, id);
    if call.Updating? { UpdatesKeepMarks(c, After(c, calls), call.ms, call.now, id); }
  }

  /** Measuring twice inside a window drops a fresh entry together with its pending update. */
  lemma EarlyMeasurementsDiscard(c: Config, id: Id, x: real, now: int)
    requires c.Valid() && !IsGauge(id) && x > 0.0
    ensures var m, measuring := Measurement(id, now, Val(x)), Measuring(_ => Reading(now, now));
      var updated := After(c, [Updating([m], now)]);
      && id in updated && updated[id].v.current == x / (c.multiple as real) > 0.0
      && id !in After(c, [Updating([m], now), measuring, measuring])
  {
    ReportingPositive(c);
    var m, measuring := Measurement(id, now, Val(x)), Measuring(_ => Reading(now, now));
    var calls := [Updating([m], now), measuring, measuring];
    var first := After(c, calls[..1]);
    assert calls[..1] == [Updating([m], now)] && calls[..1][..0] == [];
    assert [m][..0] == [];
    assert UpdateAll(c, map[], [m], now) == UpdateOne(c, UpdateAll(c, map[], [], now), m, now);
    assert first == Perform(c, After(c, []), calls[0]) == UpdateOne(c, map[], m, now);
    assert calls[..2][..1] == calls[..1];
    assert calls[..2][1] == measuring;
    assert After(c, calls[..2]) == AfterMeasureBy(first, measuring.readings);
    assert calls[..3] == calls && calls[..|calls| - 1] == calls[..2];
    assert After(c, calls) == AfterMeasureBy(AfterMeasureBy(first, measuring.readings), measuring.readings);
    PositiveShare(x, c.multiple as real);
  }

  lemma PositiveShare(x: real, m: real)
    requires x > 0.0 && m > 0.0
    ensures x / m > 0.0
  {
  }
}
