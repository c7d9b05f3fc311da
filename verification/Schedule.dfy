/**
 * The consolidation registry on an aligned schedule: one update in each update step, at any time in it, and a
 * measurement in the same update step whenever a reporting window is complete.
 */
module Schedule {
  import opened Arithmetic
  import opened Collections
  import opened Doubles
  import opened StepNumbers
  import opened Consolidation

  /** The registry's contents and the reports so far. */
  datatype State = State(values: Values, reports: seq<map<Id, real>>)

  /** When tick `i` updates, the first being tick 1, and when it asks for each entry if it measures. */
  datatype Setup = Setup(config: Config, time: nat -> int, readings: nat -> Readings) {
    ghost predicate Valid() {
      && config.Valid()
      && (forall i :: InUpdateStep(config, i, time(i)))
      && (forall i, id :: MeasuredInStep(config, i, readings(i)(id)))
    }
  }

  /** `t` lies in update step `i`. */
  predicate InUpdateStep(c: Config, i: nat, t: int) { i * c.updateFrequency <= t < (i + 1) * c.updateFrequency }

  predicate MeasuredInStep(c: Config, i: nat, r: Reading) {
    InUpdateStep(c, i, r.first) && InUpdateStep(c, i, r.second)
  }

  /** Tick `i`: an update, and a measurement when a window is complete. */
  function Tick(s: Setup, st: State, i: nat, ms: seq<Measurement>): (r: State)
    requires s.Valid() && ValidValues(st.values)
    ensures ValidValues(r.values)
  {
    var updated := UpdateAll(s.config, st.values, ms, s.time(i) - s.config.updateFrequency);
    if i % s.config.multiple == 0
    then State(AfterMeasureBy(updated, s.readings(i)), st.reports + [ReportedBy(updated, s.readings(i))])
    else State(updated, st.reports)
  }

  function RunTicks(s: Setup, ticks: seq<seq<Measurement>>): (r: State)
    requires s.Valid()
    ensures ValidValues(r.values)
  {
    if ticks == [] then State(map[], [])
    else Tick(s, RunTicks(s, ticks[..|ticks| - 1]), |ticks|, ticks[|ticks| - 1])
  }

  // ----- What a window should report -----

  function FoldOne(c: Config, id: Id, m: Measurement, acc: real): real
    requires c.Valid()
  {
    if m.id == id && m.value.Val?
    then Apply(if IsGauge(id) then Max(m.value.r) else Add(m.value.r / (c.multiple as real)), acc)
    else acc
  }

  function FoldTick(c: Config, id: Id, ms: seq<Measurement>, acc: real): real
    requires c.Valid()
    decreases |ms|
  {
    if ms == [] then acc else FoldOne(c, id, ms[|ms| - 1], FoldTick(c, id, ms[..|ms| - 1], acc))
  }

  /** Maximum of a gauge's updates, or sum of a counter's updates each divided by the window's length. */
  function FoldWindow(c: Config, id: Id, window: seq<seq<Measurement>>): real
    requires c.Valid()
  {
    if window == [] then Initial(IsGauge(id))
    else FoldTick(c, id, window[|window| - 1], FoldWindow(c, id, window[..|window| - 1]))
  }

  /** `id` is reported iff its fold is positive, and then with that fold. */
  ghost predicate ReportsId(c: Config, report: map<Id, real>, window: seq<seq<Measurement>>, id: Id)
    requires c.Valid()
  {
    && (id in report <==> Positive(id, FoldWindow(c, id, window)))
    && (id in report ==> report[id] == FoldWindow(c, id, window))
  }

  ghost predicate ReportOf(c: Config, report: map<Id, real>, window: seq<seq<Measurement>>)
    requires c.Valid()
  {
    forall id :: ReportsId(c, report, window, id)
  }

  // ----- Time arithmetic -----

  /** A time in update step `i` lies in reporting step i / multiple. */
  lemma StepInUpdateStep(c: Config, i: nat, t: int)
    requires c.Valid() && InUpdateStep(c, i, t)
    ensures c.ReportingFrequency() > 0
    ensures StepOf(t, c.ReportingFrequency()) == i / c.multiple
  {
    var u, m := c.updateFrequency, c.multiple;
    assert u * m > 0;
    ScaledDivision(t - i * u, u, m, i);
    ProductNonNegative(i, u);
  }

  /** The clock of an update is one update step back. */
  lemma StepOfUpdate(s: Setup, i: nat)
    requires s.Valid() && i > 0
    ensures s.config.ReportingFrequency() > 0
    ensures StepOf(s.time(i) - s.config.updateFrequency, s.config.ReportingFrequency()) == (i - 1) / s.config.multiple
  {
    assert InUpdateStep(s.config, i, s.time(i));
    Distribute(1, i - 1, 1, s.config.updateFrequency);
    Distribute(1, i, 1, s.config.updateFrequency);
    StepInUpdateStep(s.config, i - 1, s.time(i) - s.config.updateFrequency);
  }

  /** Whatever its readings within the update step, a measurement is as good as one at the time of its update. */
  lemma MeasuredAtTick(s: Setup, values: Values, i: nat, w: int)
    requires s.Valid() && Behind(s.config, values, w)
    ensures ReportedBy(values, s.readings(i)) == Reported(values, s.time(i))
    ensures AfterMeasureBy(values, s.readings(i)) == AfterMeasure(values, s.time(i))
  {
    assert InUpdateStep(s.config, i, s.time(i));
    StepInUpdateStep(s.config, i, s.time(i));
    forall id | id in values ensures InStepOf(values[id], s.readings(i)(id), s.time(i)) {
      var r := s.readings(i)(id);
      assert MeasuredInStep(s.config, i, r);
      StepInUpdateStep(s.config, i, r.first);
      StepInUpdateStep(s.config, i, r.second);
    }
    OneStepIsOneReading(values, s.readings(i), s.time(i));
  }

  lemma ScaledDivision(phase: int, u: int, m: int, i: int)
    requires 0 <= phase < u && m > 0 && u * m > 0
    ensures (phase + i * u) / (u * m) == i / m
  {
    var q, r := i / m, i % m;
    Distribute(q, m, r, u);
    Below(r, m, u);
    DivisionUnique(phase + i * u, u * m, q, phase + r * u);
  }

  lemma Distribute(q: int, m: int, r: int, u: int)
    ensures (q * m + r) * u == q * (u * m) + r * u
  {
  }

  lemma Below(r: int, m: int, u: int)
    requires 0 <= r < m && u > 0
    ensures 0 <= r * u <= u * m - u
  {
    ProductNonNegative(r, u);
    ProductNonNegative(m - 1 - r, u);
    Distribute(-1, r, m - 1, u);
    assert (m - 1) * u == u * m - u;
  }

  lemma ProductNonNegative(a: int, b: int)
    requires a >= 0 && b >= 0
    ensures a * b >= 0
  {
  }

  // ----- Values between measurements -----

  /** Entries are configured alike and none has been rolled past step `w`. */
  ghost predicate Behind(c: Config, values: Values, w: int) {
    && ValidValues(values)
    && forall id :: id in values ==>
         var cv := values[id];
         && cv.multiple == c.multiple && cv.v.step == c.ReportingFrequency()
         && cv.v.init == Initial(cv.gauge) && cv.v.last <= w
  }

  /** What the registry has accumulated for `id` in step `w`. */
  ghost function Pending(values: Values, id: Id, w: int): real {
    if id in values && values[id].v.last == w then values[id].v.current else Initial(IsGauge(id))
  }

  lemma UpdateOneFolds(c: Config, values: Values, m: Measurement, now: int, w: int, id: Id)
    requires c.Valid() && Behind(c, values, w) && c.ReportingFrequency() > 0
    requires StepOf(now, c.ReportingFrequency()) == w
    ensures Behind(c, UpdateOne(c, values, m, now), w)
    ensures Pending(UpdateOne(c, values, m, now), id, w) == FoldOne(c, id, m, Pending(values, id, w))
  {
  }

  lemma {:induction false} UpdateAllFolds(c: Config, values: Values, ms: seq<Measurement>, now: int, w: int, id: Id)
    requires c.Valid() && Behind(c, values, w) && c.ReportingFrequency() > 0
    requires StepOf(now, c.ReportingFrequency()) == w
    ensures Behind(c, UpdateAll(c, values, ms, now), w)
    ensures Pending(UpdateAll(c, values, ms, now), id, w) == FoldTick(c, id, ms, Pending(values, id, w))
    decreases |ms|
  {
    if ms != [] {
      var before := ms[..|ms| - 1];
      UpdateAllFolds(c, values, before, now, w, id);
      UpdateOneFolds(c, UpdateAll(c, values, before, now), ms[|ms| - 1], now, w, id);
    }
  }

  /** A measurement in step w+1 reports what was accumulated in step w, and starts step w+1 empty. */
  lemma MeasureReports(c: Config, values: Values, now: int, w: int, id: Id)
    requires c.Valid() && Behind(c, values, w) && c.ReportingFrequency() > 0
    requires StepOf(now, c.ReportingFrequency()) == w + 1
    ensures id in Reported(values, now) <==> Positive(id, Pending(values, id, w))
    ensures id in Reported(values, now) ==> Reported(values, now)[id] == Pending(values, id, w)
    ensures Behind(c, AfterMeasure(values, now), w + 1)
    ensures Pending(AfterMeasure(values, now), id, w + 1) == Initial(IsGauge(id))
  {
  }

  /** What a measurement in step w+1 removes had accumulated nothing in step w. */
  lemma MeasureDiscards(c: Config, values: Values, now: int, w: int, id: Id)
    requires c.Valid() && Behind(c, values, w) && c.ReportingFrequency() > 0
    requires StepOf(now, c.ReportingFrequency()) == w + 1
    requires id in values
    ensures values[id].Polled(now).current == Initial(IsGauge(id))
    ensures id !in AfterMeasure(values, now) ==> !Positive(id, Pending(values, id, w))
  {
  }

  // ----- Every run -----

  /** The registry holds the folds of the updates since the last complete window. */
  ghost predicate Tracks(s: Setup, values: Values, ticks: seq<seq<Measurement>>, from: int, id: Id)
    requires s.Valid()
  {
    var m := s.config.multiple;
    && 0 <= from <= |ticks| && from % m == 0
    && Behind(s.config, values, from / m)
    && Pending(values, id, from / m) == FoldWindow(s.config, id, ticks[from..])
  }

  /** The registry after the last tick's update, before any measurement. */
  ghost function Updated(s: Setup, ticks: seq<seq<Measurement>>): (r: Values)
    requires s.Valid() && ticks != []
    ensures ValidValues(r)
  {
    var n := |ticks|;
    UpdateAll(s.config, RunTicks(s, ticks[..n - 1]).values, ticks[n - 1], s.time(n) - s.config.updateFrequency)
  }

  lemma LastTick(s: Setup, ticks: seq<seq<Measurement>>)
    requires s.Valid() && ticks != []
    ensures var n, before, updated := |ticks|, RunTicks(s, ticks[..|ticks| - 1]), Updated(s, ticks);
      RunTicks(s, ticks) ==
        if n % s.config.multiple == 0
        then State(AfterMeasureBy(updated, s.readings(n)), before.reports + [ReportedBy(updated, s.readings(n))])
        else State(updated, before.reports)
  {
  }

  lemma PolledAtTick(s: Setup, values: Values, i: nat, w: int, id: Id)
    requires s.Valid() && Behind(s.config, values, w) && id in values
    ensures values[id].Polled(s.readings(i)(id).first) == values[id].Polled(s.time(i))
  {
    assert InUpdateStep(s.config, i, s.time(i)) && MeasuredInStep(s.config, i, s.readings(i)(id));
    StepInUpdateStep(s.config, i, s.time(i));
    StepInUpdateStep(s.config, i, s.readings(i)(id).first);
  }

  /** Where the window of the last tick starts. */
  function WindowStart(s: Setup, n: nat): int
    requires s.Valid() && n > 0
  {
    (n - 1) / s.config.multiple * s.config.multiple
  }

  lemma WindowStartAt(s: Setup, n: nat)
    requires s.Valid() && n > 0
    ensures var m, from := s.config.multiple, WindowStart(s, n);
      && 0 <= from < n && from % m == 0 && from / m == (n - 1) / m
      && (n % m == 0 ==> n / m == from / m + 1 && n / m * m == n)
      && (n % m != 0 ==> n / m * m == from)
  {
    var m := s.config.multiple;
    var w := (n - 1) / m;
    NextTick(n, m);
    DivisionUnique(w * m, m, w, 0);
  }

  lemma UpdatedTracks(s: Setup, ticks: seq<seq<Measurement>>, id: Id)
    requires s.Valid() && ticks != []
    requires var n := |ticks|; Tracks(s, RunTicks(s, ticks[..n - 1]).values, ticks[..n - 1], WindowStart(s, n), id)
    ensures Tracks(s, Updated(s, ticks), ticks, WindowStart(s, |ticks|), id)
  {
    var n := |ticks|;
    var w := (n - 1) / s.config.multiple;
    WindowStartAt(s, n);
    StepOfUpdate(s, n);
    var now := s.time(n) - s.config.updateFrequency;
    UpdateAllFolds(s.config, RunTicks(s, ticks[..n - 1]).values, ticks[n - 1], now, w, id);
    WindowGrows(s.config, id, ticks, WindowStart(s, n));
  }

  /** A complete window: the wall time has reached the next step. */
  lemma WindowCloses(s: Setup, n: nat)
    requires s.Valid() && n > 0 && n % s.config.multiple == 0
    ensures s.config.ReportingFrequency() > 0
    ensures StepOf(s.time(n), s.config.ReportingFrequency()) == WindowStart(s, n) / s.config.multiple + 1
  {
    WindowStartAt(s, n);
    assert InUpdateStep(s.config, n, s.time(n));
    StepInUpdateStep(s.config, n, s.time(n));
  }

  /** At all times the registry holds the folds of exactly the updates since the last complete window. */
  lemma {:induction false} RunInvariant(s: Setup, ticks: seq<seq<Measurement>>, id: Id)
    requires s.Valid()
    ensures Tracks(s, RunTicks(s, ticks).values, ticks, |ticks| / s.config.multiple * s.config.multiple, id)
  {
    var c, n, m := s.config, |ticks|, s.config.multiple;
    if n > 0 {
      WindowStartAt(s, n);
      RunInvariant(s, ticks[..n - 1], id);
      UpdatedTracks(s, ticks, id);
      LastTick(s, ticks);
      if n % m == 0 { ClosedTracks(s, ticks, id); }
    }
  }

  /** A measurement that closes a window starts the next one empty. */
  lemma ClosedTracks(s: Setup, ticks: seq<seq<Measurement>>, id: Id)
    requires s.Valid() && ticks != [] && |ticks| % s.config.multiple == 0
    requires Tracks(s, Updated(s, ticks), ticks, WindowStart(s, |ticks|), id)
    ensures Tracks(s, AfterMeasureBy(Updated(s, ticks), s.readings(|ticks|)), ticks, |ticks|, id)
  {
    var n, m := |ticks|, s.config.multiple;
    WindowStartAt(s, n);
    WindowCloses(s, n);
    MeasuredAtTick(s, Updated(s, ticks), n, WindowStart(s, n) / m);
    MeasureReports(s.config, Updated(s, ticks), s.time(n), WindowStart(s, n) / m, id);
    assert ticks[n..] == [];
    DivisionUnique(n, m, n / m, 0);
  }

  lemma UpdatedHolds(s: Setup, ticks: seq<seq<Measurement>>, id: Id)
    requires s.Valid() && ticks != []
    ensures Tracks(s, Updated(s, ticks), ticks, WindowStart(s, |ticks|), id)
  {
    RunInvariant(s, ticks[..|ticks| - 1], id);
    UpdatedTracks(s, ticks, id);
  }

  lemma WindowGrows(c: Config, id: Id, ticks: seq<seq<Measurement>>, from: nat)
    requires c.Valid() && from < |ticks|
    ensures FoldWindow(c, id, ticks[from..]) ==
      FoldTick(c, id, ticks[|ticks| - 1], FoldWindow(c, id, ticks[..|ticks| - 1][from..]))
  {
    var window := ticks[from..];
    assert window[..|window| - 1] == ticks[..|ticks| - 1][from..];
  }

  lemma NextTick(n: int, m: int)
    requires n > 0 && m > 0
    ensures n % m == 0 ==> n / m == (n - 1) / m + 1 && n / m * m == n
    ensures n % m != 0 ==> n / m == (n - 1) / m
  {
    var q, r := n / m, n % m;
    if r == 0 {
      assert n - 1 == (q - 1) * m + (m - 1);
      DivisionUnique(n - 1, m, q - 1, m - 1);
    } else {
      DivisionUnique(n - 1, m, q, r - 1);
    }
  }

  /** Report `k` is the report of the k-th window of `ticks`. */
  ghost predicate ReportsWindow(c: Config, ticks: seq<seq<Measurement>>, report: map<Id, real>, k: int)
    requires c.Valid()
  {
    var m := c.multiple;
    0 <= k * m <= (k + 1) * m <= |ticks| && ReportOf(c, report, ticks[k * m..(k + 1) * m])
  }

  /** One report per complete window, each exactly the folds of that window's own updates. */
  lemma {:induction false} ReportsCorrect(s: Setup, ticks: seq<seq<Measurement>>)
    requires s.Valid()
    ensures var reports := RunTicks(s, ticks).reports;
      && |reports| == |ticks| / s.config.multiple
      && forall k :: 0 <= k < |reports| ==> ReportsWindow(s.config, ticks, reports[k], k)
  {
    var c, n, m := s.config, |ticks|, s.config.multiple;
    if n > 0 {
      var before := ticks[..n - 1];
      ReportsCorrect(s, before);
      NextTick(n, m);
      var reports := RunTicks(s, before).reports;
      forall k | 0 <= k < |reports| ensures ReportsWindow(c, ticks, reports[k], k) {
        assert ReportsWindow(c, before, reports[k], k);
        assert before[k * m..(k + 1) * m] == ticks[k * m..(k + 1) * m];
      }
      if n % m == 0 { LastReport(s, ticks); }
    }
  }

  /** The report made by a tick that completes a window. */
  lemma LastReport(s: Setup, ticks: seq<seq<Measurement>>)
    requires s.Valid() && |ticks| > 0 && |ticks| % s.config.multiple == 0
    ensures var k, reports := (|ticks| - 1) / s.config.multiple, RunTicks(s, ticks).reports;
      && |reports| > 0 && ReportsWindow(s.config, ticks, reports[|reports| - 1], k)
  {
    var n, m := |ticks|, s.config.multiple;
    var k := (n - 1) / m;
    NextTick(n, m);
    assert (k + 1) * m == k * m + m == n;
    assert ticks[k * m..(k + 1) * m] == ticks[k * m..];
    LastTick(s, ticks);
    var report := ReportedBy(Updated(s, ticks), s.readings(n));
    forall id ensures ReportsId(s.config, report, ticks[k * m..], id) { LastReportFor(s, ticks, id); }
  }

  lemma LastReportFor(s: Setup, ticks: seq<seq<Measurement>>, id: Id)
    requires s.Valid() && |ticks| > 0 && |ticks| % s.config.multiple == 0
    ensures var from := WindowStart(s, |ticks|);
      && 0 <= from <= |ticks|
      && ReportsId(s.config, ReportedBy(Updated(s, ticks), s.readings(|ticks|)), ticks[from..], id)
  {
    var n := |ticks|;
    UpdatedHolds(s, ticks, id);
    WindowStartAt(s, n);
    WindowCloses(s, n);
    MeasuredAtTick(s, Updated(s, ticks), n, WindowStart(s, n) / s.config.multiple);
    MeasureReports(s.config, Updated(s, ticks), s.time(n), WindowStart(s, n) / s.config.multiple, id);
  }

  // ----- What the folds are -----

  function SumTick(id: Id, ms: seq<Measurement>): real {
    if ms == [] then 0.0
    else
      var m := ms[|ms| - 1];
      SumTick(id, ms[..|ms| - 1]) + (if m.id == id && m.value.Val? then m.value.r else 0.0)
  }

  /** Sum of every update of `id` in `ticks`. */
  function SumTicks(id: Id, ticks: seq<seq<Measurement>>): real {
    if ticks == [] then 0.0 else SumTicks(id, ticks[..|ticks| - 1]) + SumTick(id, ticks[|ticks| - 1])
  }

  lemma {:induction false} CounterTick(c: Config, id: Id, ms: seq<Measurement>, acc: real)
    requires c.Valid() && !IsGauge(id)
    ensures FoldTick(c, id, ms, acc) == acc + SumTick(id, ms) / (c.multiple as real)
    decreases |ms|
  {
    if ms != [] {
      var m, before := ms[|ms| - 1], ms[..|ms| - 1];
      CounterTick(c, id, before, acc);
      if m.id == id && m.value.Val? {
        assert FoldTick(c, id, ms, acc) == FoldTick(c, id, before, acc) + m.value.r / (c.multiple as real);
        DivideSum(SumTick(id, before), m.value.r, c.multiple as real);
      }
    }
  }

  /** A counter's fold is the sum of the window's updates over the number of updates in a window. */
  lemma {:induction false} CounterWindow(c: Config, id: Id, window: seq<seq<Measurement>>)
    requires c.Valid() && !IsGauge(id)
    ensures FoldWindow(c, id, window) == SumTicks(id, window) / (c.multiple as real)
  {
    if window != [] {
      var n := |window| - 1;
      CounterWindow(c, id, window[..n]);
      CounterTick(c, id, window[n], FoldWindow(c, id, window[..n]));
      DivideSum(SumTicks(id, window[..n]), SumTick(id, window[n]), c.multiple as real);
    }
  }

  ghost predicate UpdateIn(id: Id, ms: seq<Measurement>, x: real) {
    exists m :: m in ms && m.id == id && m.value == Val(x)
  }

  ghost predicate UpdateInWindow(id: Id, window: seq<seq<Measurement>>, x: real) {
    exists ms :: ms in window && UpdateIn(id, ms, x)
  }

  lemma {:induction false} GaugeTick(c: Config, id: Id, ms: seq<Measurement>, acc: real)
    requires c.Valid() && IsGauge(id)
    ensures var f := FoldTick(c, id, ms, acc);
      f >= acc && (f == acc || UpdateIn(id, ms, f)) && forall x :: UpdateIn(id, ms, x) ==> x <= f
    decreases |ms|
  {
    if ms != [] {
      var n := |ms| - 1;
      GaugeTick(c, id, ms[..n], acc);
      assert ms == ms[..n] + [ms[n]];
      forall x | UpdateIn(id, ms, x) ensures x <= FoldTick(c, id, ms, acc) {
        var m :| m in ms && m.id == id && m.value == Val(x);
        assert m != ms[n] ==> UpdateIn(id, ms[..n], x);
      }
    }
  }

  /** A gauge's fold is the maximum of the window's updates, if any is above the lowest double. */
  lemma {:induction false} GaugeWindow(c: Config, id: Id, window: seq<seq<Measurement>>)
    requires c.Valid() && IsGauge(id)
    ensures var f := FoldWindow(c, id, window);
      && f >= LOWEST_VALUE && (f > LOWEST_VALUE ==> UpdateInWindow(id, window, f))
      && forall x :: UpdateInWindow(id, window, x) ==> x <= f
  {
    if window != [] {
      var n := |window| - 1;
      GaugeWindow(c, id, window[..n]);
      GaugeTick(c, id, window[n], FoldWindow(c, id, window[..n]));
      assert window == window[..n] + [window[n]];
      forall x | UpdateInWindow(id, window, x) ensures x <= FoldWindow(c, id, window) {
        var ms :| ms in window && UpdateIn(id, ms, x);
        assert ms != window[n] ==> UpdateInWindow(id, window[..n], x);
      }
    }
  }

  // ----- Conservation -----

  function ReportedTotal(id: Id, reports: seq<map<Id, real>>): real {
    if reports == [] then 0.0
    else ReportedTotal(id, reports[..|reports| - 1]) + ReportedValue(id, reports[|reports| - 1])
  }

  function ReportedValue(id: Id, report: map<Id, real>): real {
    if id in report then report[id] else 0.0
  }

  predicate NonNegative(id: Id, ms: seq<Measurement>) {
    forall m | m in ms && m.id == id && m.value.Val? :: m.value.r >= 0.0
  }

  lemma {:induction false} SumTickNonNegative(id: Id, ms: seq<Measurement>)
    requires NonNegative(id, ms)
    ensures SumTick(id, ms) >= 0.0
  {
    if ms != [] {
      assert forall m :: m in ms[..|ms| - 1] ==> m in ms;
      SumTickNonNegative(id, ms[..|ms| - 1]);
    }
  }

  lemma {:induction false} SumTicksNonNegative(id: Id, ticks: seq<seq<Measurement>>)
    requires forall ms :: ms in ticks ==> NonNegative(id, ms)
    ensures SumTicks(id, ticks) >= 0.0
  {
    if ticks != [] {
      SumTicksNonNegative(id, ticks[..|ticks| - 1]);
      SumTickNonNegative(id, ticks[|ticks| - 1]);
    }
  }

  lemma {:induction false} SumTicksConcat(id: Id, a: seq<seq<Measurement>>, b: seq<seq<Measurement>>)
    ensures SumTicks(id, a + b) == SumTicks(id, a) + SumTicks(id, b)
    decreases |b|
  {
    if b == [] {
      assert a + b == a;
    } else {
      assert (a + b)[..|a + b| - 1] == a + b[..|b| - 1];
      SumTicksConcat(id, a, b[..|b| - 1]);
    }
  }

  lemma DivideSum(a: real, b: real, m: real)
    requires m > 0.0
    ensures (a + b) / m == a / m + b / m
  {
  }

  lemma DivideSign(a: real, m: real)
    requires m > 0.0
    ensures a / m > 0.0 <==> a > 0.0
    ensures a / m >= 0.0 <==> a >= 0.0
  {
    assert a / m * m == a;
  }

  /** A window adds its sum to what was reported, or nothing when that is negative. */
  lemma WindowTotal(c: Config, id: Id, ticks: seq<seq<Measurement>>, report: map<Id, real>, from: nat, to: nat)
    requires c.Valid() && !IsGauge(id) && from <= to <= |ticks|
    requires ReportsId(c, report, ticks[from..to], id)
    ensures var m := c.multiple as real;
      var sum, sofar := SumTicks(id, ticks[from..to]), SumTicks(id, ticks[..from]) / m + ReportedValue(id, report);
      && SumTicks(id, ticks[..to]) / m <= sofar
      && (SumTicks(id, ticks[..to]) / m == sofar <==> sum >= 0.0)
  {
    var window, m := ticks[from..to], c.multiple as real;
    assert ticks[..to] == ticks[..from] + window;
    SumTicksConcat(id, ticks[..from], window);
    DivideSum(SumTicks(id, ticks[..from]), SumTicks(id, window), m);
    CounterWindow(c, id, window);
    DivideSign(SumTicks(id, window), m);
  }

  /** The updates of the k-th window do not add up to less than nothing. */
  ghost predicate WindowNonNegative(c: Config, id: Id, ticks: seq<seq<Measurement>>, k: int)
    requires c.Valid()
  {
    var m := c.multiple;
    0 <= k * m <= (k + 1) * m <= |ticks| && SumTicks(id, ticks[k * m..(k + 1) * m]) >= 0.0
  }

  ghost predicate WindowsNonNegative(c: Config, id: Id, ticks: seq<seq<Measurement>>, n: nat)
    requires c.Valid()
  {
    forall k :: 0 <= k < n ==> WindowNonNegative(c, id, ticks, k)
  }

  lemma {:induction false} WindowTotals(
    c: Config, id: Id, ticks: seq<seq<Measurement>>, reports: seq<map<Id, real>>, end: nat)
    requires c.Valid() && !IsGauge(id) && end == |reports| * c.multiple && end <= |ticks|
    requires forall k :: 0 <= k < |reports| ==> ReportsWindow(c, ticks, reports[k], k)
    ensures ReportedTotal(id, reports) >= SumTicks(id, ticks[..end]) / (c.multiple as real)
    ensures ReportedTotal(id, reports) == SumTicks(id, ticks[..end]) / (c.multiple as real) <==>
      WindowsNonNegative(c, id, ticks, |reports|)
    decreases |reports|
  {
    if reports != [] {
      var k := |reports| - 1;
      var from := k * c.multiple;
      assert ReportsWindow(c, ticks, reports[k], k);
      WindowTotals(c, id, ticks, reports[..k], from);
      assert ReportsId(c, reports[k], ticks[from..end], id);
      WindowTotal(c, id, ticks, reports[k], from, end);
      OneMoreWindow(c, id, ticks, k);
    } else {
      assert ticks[..0] == [];
    }
  }

  lemma OneMoreWindow(c: Config, id: Id, ticks: seq<seq<Measurement>>, k: nat)
    requires c.Valid()
    ensures WindowsNonNegative(c, id, ticks, k + 1) <==>
      WindowsNonNegative(c, id, ticks, k) && WindowNonNegative(c, id, ticks, k)
  {
  }

  /**
   * A counter's reports never add up to less than its updates over all complete windows, and they add up to exactly
   * those iff no window's updates add up to less than nothing: then nothing is lost or counted twice.
   */
  lemma CounterConservationIff(s: Setup, ticks: seq<seq<Measurement>>, id: Id)
    requires s.Valid() && !IsGauge(id)
    ensures var n, m := |ticks| / s.config.multiple, s.config.multiple;
      && 0 <= n * m <= |ticks|
      && var reported, updated := ReportedTotal(id, RunTicks(s, ticks).reports), SumTicks(id, ticks[..n * m]);
      && reported >= updated / (m as real)
      && (reported == updated / (m as real) <==> WindowsNonNegative(s.config, id, ticks, n))
  {
    ReportsCorrect(s, ticks);
    RunInvariant(s, ticks, id);
    WindowTotals(s.config, id, ticks, RunTicks(s, ticks).reports, |ticks| / s.config.multiple * s.config.multiple);
  }

  /** In particular, for a counter that is never updated by a negative amount. */
  lemma CounterConservation(s: Setup, ticks: seq<seq<Measurement>>, id: Id)
    requires s.Valid() && !IsGauge(id)
    requires forall ms :: ms in ticks ==> NonNegative(id, ms)
    ensures var complete := |ticks| / s.config.multiple * s.config.multiple;
      && 0 <= complete <= |ticks|
      && ReportedTotal(id, RunTicks(s, ticks).reports) == SumTicks(id, ticks[..complete]) / (s.config.multiple as real)
  {
    ReportsCorrect(s, ticks);
    CounterConservationIff(s, ticks, id);
    var reports := RunTicks(s, ticks).reports;
    forall k | 0 <= k < |reports| ensures WindowNonNegative(s.config, id, ticks, k) {
      NonNegativeWindow(s.config, id, ticks, reports[k], k);
    }
  }

  lemma NonNegativeWindow(c: Config, id: Id, ticks: seq<seq<Measurement>>, report: map<Id, real>, k: int)
    requires c.Valid() && ReportsWindow(c, ticks, report, k)
    requires forall ms :: ms in ticks ==> NonNegative(id, ms)
    ensures WindowNonNegative(c, id, ticks, k)
  {
    SumTicksNonNegative(id, ticks[k * c.multiple..(k + 1) * c.multiple]);
  }

  /** A window whose one update is negative goes unreported: -1 was recorded, and nothing reported. */
  lemma NegativeWindowLost(id: Id)
    requires !IsGauge(id)
    ensures var s := EveryFiveSeconds();
      var ticks := [[Measurement(id, 0, Val(-1.0))]];
      && s.Valid() && ReportedTotal(id, RunTicks(s, ticks).reports) == 0.0 && SumTicks(id, ticks) == -1.0
  {
    var s, ticks := EveryFiveSeconds(), [[Measurement(id, 0, Val(-1.0))]];
    EveryFiveSecondsValid();
    OneUpdate(id, ticks[0][0]);
    ReportsCorrect(s, ticks);
    var reports := RunTicks(s, ticks).reports;
    assert ReportsWindow(s.config, ticks, reports[0], 0) && ticks[0..1] == ticks;
    CounterWindow(s.config, id, ticks);
    assert ReportsId(s.config, reports[0], ticks, id);
    assert reports[..0] == [];
  }

  lemma OneUpdate(id: Id, m: Measurement)
    requires m.id == id && m.value.Val?
    ensures SumTicks(id, [[m]]) == m.value.r
  {
    assert [m][..0] == [] && [[m]][..0] == [];
    assert SumTick(id, [m]) == m.value.r;
  }

  lemma EveryFiveSecondsValid()
    ensures EveryFiveSeconds().Valid()
  {
    var s := EveryFiveSeconds();
    forall i: nat ensures InUpdateStep(s.config, i, s.time(i)) {}
    forall i: nat, id ensures MeasuredInStep(s.config, i, s.readings(i)(id)) {}
  }

  /** Updates and reports every five seconds, on the second. */
  function EveryFiveSeconds(): Setup {
    Setup(Config(5000, 1), (i: nat) => i * 5000, (i: nat) => (id: Id) => Reading(i * 5000, i * 5000))
  }

  /**
   * Whatever a measurement drops held nothing worth reporting of the window it closes, and nothing at all of the one
   * then open: removal discards no pending update.
   */
  lemma RemovalLosesNothing(s: Setup, ticks: seq<seq<Measurement>>, id: Id)
    requires s.Valid() && ticks != [] && |ticks| % s.config.multiple == 0
    requires id in Updated(s, ticks) && id !in RunTicks(s, ticks).values
    ensures Updated(s, ticks)[id].Polled(s.readings(|ticks|)(id).first).current == Initial(IsGauge(id))
    ensures var from := WindowStart(s, |ticks|);
      0 <= from <= |ticks| && !Positive(id, FoldWindow(s.config, id, ticks[from..]))
  {
    var n := |ticks|;
    UpdatedHolds(s, ticks, id);
    WindowStartAt(s, n);
    WindowCloses(s, n);
    LastTick(s, ticks);
    MeasuredAtTick(s, Updated(s, ticks), n, WindowStart(s, n) / s.config.multiple);
    MeasureDiscards(s.config, Updated(s, ticks), s.time(n), WindowStart(s, n) / s.config.multiple, id);
    PolledAtTick(s, Updated(s, ticks), n, WindowStart(s, n) / s.config.multiple, id);
  }

  // ----- The object on this schedule -----

  /** The tick that completes the k-th window. */
  function WindowTick(s: Setup, k: nat): nat
    requires s.config.multiple > 0
  {
    (k + 1) * s.config.multiple
  }

  /** `result` lists the report of the k-th window, with the time of the tick that completed it. */
  ghost predicate ListsWindow(s: Setup, ticks: seq<seq<Measurement>>, result: seq<Measurement>, k: nat)
    requires s.Valid()
  {
    exists report ::
      Reports(result, report, s.time(WindowTick(s, k))) && ReportsWindow(s.config, ticks, report, k)
  }

  /** One tick on the object: the clock moves, then an update, then a measurement if a window is complete. */
  method DriveTick(s: Setup, registry: ConsolidationRegistry, i: nat, ms: seq<Measurement>, ghost st: State)
    returns (result: Option<seq<Measurement>>)
    requires s.Valid() && registry.Valid() && registry.config == s.config && registry.myValues == st.values
    modifies registry`myValues, registry.clock
    ensures registry.Valid() && registry.myValues == Tick(s, st, i, ms).values
    ensures result.Some? <==> i % s.config.multiple == 0
    ensures result.Some? ==> Reports(result.value, Tick(s, st, i, ms).reports[|st.reports|], s.time(i))
  {
    registry.clock.underlying := s.time(i);
    registry.UpdateFrom(ms);
    if i % s.config.multiple == 0 {
      var r := registry.Measurements(s.time(i), s.readings(i));
      result := Some(r);
    } else {
      result := None;
    }
  }

  /** Drive a fresh registry through the schedule: one result per complete window, listing that window's report. */
  method Drive(s: Setup, ticks: seq<seq<Measurement>>) returns (results: seq<seq<Measurement>>)
    requires s.Valid()
    ensures |results| == |ticks| / s.config.multiple
    ensures forall k :: 0 <= k < |results| ==> ListsWindow(s, ticks, results[k], k)
  {
    var clock := new WrappedClock(s.time(0));
    var registry := new ConsolidationRegistry(s.config, clock);
    results := [];
    for i := 0 to |ticks|
      invariant registry.Valid() && fresh(registry) && fresh(clock) && registry.clock == clock
      invariant registry.config == s.config
      invariant registry.myValues == RunTicks(s, ticks[..i]).values
      invariant Listed(s, results, RunTicks(s, ticks[..i]).reports)
    {
      ghost var st := RunTicks(s, ticks[..i]);
      assert ticks[..i + 1] == ticks[..i] + [ticks[i]] && ticks[..i + 1][..i] == ticks[..i];
      var result := DriveTick(s, registry, i + 1, ticks[i], st);
      ListedGrows(s, ticks[..i], ticks[i], results, result);
      if result.Some? {
        results := results + [result.value];
      }
    }
    assert ticks[..|ticks|] == ticks;
    ListedWindows(s, ticks, results);
  }

  lemma ListedGrows(
    s: Setup, ticks: seq<seq<Measurement>>, ms: seq<Measurement>, results: seq<seq<Measurement>>,
    result: Option<seq<Measurement>>)
    requires s.Valid() && Listed(s, results, RunTicks(s, ticks).reports)
    requires result.Some? <==> (|ticks| + 1) % s.config.multiple == 0
    requires var st, i := RunTicks(s, ticks), |ticks| + 1;
      result.Some? ==> Reports(result.value, Tick(s, st, i, ms).reports[|st.reports|], s.time(i))
    ensures Listed(s, if result.Some? then results + [result.value] else results, RunTicks(s, ticks + [ms]).reports)
  {
    var n, st := |ticks| + 1, RunTicks(s, ticks);
    assert (ticks + [ms])[..n - 1] == ticks;
    ReportsCorrect(s, ticks);
    NextTick(n, s.config.multiple);
    if result.Some? { ListedSnoc(s, results, st.reports, result.value, Tick(s, st, n, ms).reports[|st.reports|]); }
  }

  lemma ListedSnoc(
    s: Setup, results: seq<seq<Measurement>>, reports: seq<map<Id, real>>, r: seq<Measurement>, report: map<Id, real>)
    requires s.config.multiple > 0 && Listed(s, results, reports)
    requires Reports(r, report, s.time(WindowTick(s, |results|)))
    ensures Listed(s, results + [r], reports + [report])
  {
  }

  lemma ListedWindows(s: Setup, ticks: seq<seq<Measurement>>, results: seq<seq<Measurement>>)
    requires s.Valid() && Listed(s, results, RunTicks(s, ticks).reports)
    ensures |results| == |ticks| / s.config.multiple
    ensures forall k :: 0 <= k < |results| ==> ListsWindow(s, ticks, results[k], k)
  {
    ReportsCorrect(s, ticks);
    forall k: nat | k < |results| ensures ListsWindow(s, ticks, results[k], k) {
      assert ReportsWindow(s.config, ticks, RunTicks(s, ticks).reports[k], k);
    }
  }

  /** Each result lists its report, with its tick's time. */
  ghost predicate Listed(s: Setup, results: seq<seq<Measurement>>, reports: seq<map<Id, real>>)
    requires s.config.multiple > 0
  {
    && |results| == |reports|
    && (forall k: nat :: k < |results| ==> Reports(results[k], reports[k], s.time(WindowTick(s, k))))
  }
}
