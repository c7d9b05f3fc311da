/** What the windows of the aligned schedule report, in terms of the statistic tag (meter/consolidation_registry.cc). */
module Statistics {
  import opened Doubles
  import opened Consolidation
  import opened Schedule

  /** The statistics that are added up. */
  predicate AddedUp(id: Id) {
    "statistic" in id.tags &&
      (id.tags["statistic"] == "count" || id.tags["statistic"] == "totalAmount" || id.tags["statistic"] == "totalTime"
       || id.tags["statistic"] == "totalOfSquares" || id.tags["statistic"] == "percentile")
  }

  /** `id` is reported iff its updates add up to more than 0, with their sum over the number of updates in a window. */
  ghost predicate ReportsSum(c: Config, report: map<Id, real>, window: seq<seq<Measurement>>, id: Id)
    requires c.Valid()
  {
    && (id in report <==> SumTicks(id, window) > 0.0)
    && (id in report ==> report[id] == SumTicks(id, window) / (c.multiple as real))
  }

  /** `id` is reported iff some update is above the lowest double, with the greatest of them. */
  ghost predicate ReportsGreatest(report: map<Id, real>, window: seq<seq<Measurement>>, id: Id) {
    && (id in report <==> exists x :: UpdateInWindow(id, window, x) && x > LOWEST_VALUE)
    && (id in report ==>
          UpdateInWindow(id, window, report[id]) && forall x :: UpdateInWindow(id, window, x) ==> x <= report[id])
  }

  /**
   * What a window reports, by the statistic tag alone: a count, a total or a percentile iff its updates add up to more
   * than 0, and then their sum over the number of updates in a window; anything else iff some update is above the
   * lowest double, and then the greatest of them.
   */
  lemma ReportByStatistic(c: Config, ticks: seq<seq<Measurement>>, report: map<Id, real>, k: int, id: Id)
    requires c.Valid() && ReportsWindow(c, ticks, report, k)
    ensures AddedUp(id) ==> ReportsSum(c, report, ticks[k * c.multiple..(k + 1) * c.multiple], id)
    ensures !AddedUp(id) ==> ReportsGreatest(report, ticks[k * c.multiple..(k + 1) * c.multiple], id)
  {
    var window := ticks[k * c.multiple..(k + 1) * c.multiple];
    assert ReportsId(c, report, window, id);
    if AddedUp(id) {
      CounterWindow(c, id, window);
      DivideSign(SumTicks(id, window), c.multiple as real);
    } else {
      GaugeWindow(c, id, window);
    }
  }
}
