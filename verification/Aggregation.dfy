/** Tagged values and the aggregations over them (tags_value.h and aggregation.cc in interpreter/). */
module Aggregation {
  import opened Collections
  import opened Doubles
  import opened Queries
  import opened Interpreter

  // ----- Tagged values -----

  datatype TagsValue =
    | Simple(tags: Tags, value: Double)
    | FromId(name: string, idTags: Tags, common: Tags, value: Double)

  function GetValue(tv: TagsValue, key: string): Option<string> {
    match tv
    case Simple(tags, _) => Lookup(tags, key)
    case FromId(name, idTags, common, _) =>
      if key == NAME then Some(name)
      else if key in idTags then Some(idTags[key])
      else if key in common then Some(common[key])
      else None
  }

  function AllTags(tv: TagsValue): Tags {
    match tv
    case Simple(tags, _) => tags
    case FromId(name, idTags, common, _) => (common + idTags)[NAME := name]
  }

  /** What the tags of a measurement are: its name, its id's own tags, and the common tags those do not override. */
  lemma TagPrecedence(name: string, idTags: Tags, common: Tags, value: Double)
    ensures var all := AllTags(FromId(name, idTags, common, value));
      && all.Keys == {"name"} + idTags.Keys + common.Keys
      && all["name"] == name
      && (forall k :: k in idTags && k != "name" ==> all[k] == idTags[k])
      && (forall k :: k in common && k !in idTags && k != "name" ==> all[k] == common[k])
  {
  }

  lemma GetValueIsLookup(tv: TagsValue, key: string)
    ensures GetValue(tv, key) == Lookup(AllTags(tv), key)
  {
  }

  /** The overload of Matches that asks the tagged value for each key. */
  predicate MatchesValue(rx: Regex, q: Query, tv: TagsValue) {
    match q
    case HasKey(k) => GetValue(tv, k).Some?
    case Relop(k, v, op) => Compare(GetValue(tv, k), v, op)
    case RegexQuery(k, p, ic) => var v := GetValue(tv, k); v.Some? && rx(p, ic, v.value)
    case In(k, vs) => var v := GetValue(tv, k); v.Some? && v.value in vs
    case True => true
    case False => false
    case Not(x) => !MatchesValue(rx, x, tv)
    case Or(a, b) => MatchesValue(rx, a, tv) || MatchesValue(rx, b, tv)
    case And(a, b) => MatchesValue(rx, a, tv) && MatchesValue(rx, b, tv)
  }

  /** Both overloads agree: lookup precedence is the override order of the full tags. */
  lemma {:induction false} MatchesAgree(rx: Regex, q: Query, tv: TagsValue)
    ensures MatchesValue(rx, q, tv) == Matches(rx, q, AllTags(tv))
  {
    match q
    case HasKey(k) => GetValueIsLookup(tv, k);
    case Relop(k, _, _) => GetValueIsLookup(tv, k);
    case RegexQuery(k, _, _) => GetValueIsLookup(tv, k);
    case In(k, _) => GetValueIsLookup(tv, k);
    case Not(x) => MatchesAgree(rx, x, tv);
    case Or(a, b) => MatchesAgree(rx, a, tv); MatchesAgree(rx, b, tv);
    case And(a, b) => MatchesAgree(rx, a, tv); MatchesAgree(rx, b, tv);
    case _ =>
  }

  // ----- Aggregates as folds -----

  /** Combining two partial aggregates; not-a-number is "nothing yet". */
  function Combine(kind: Aggregate, a: Double, b: Double): Double {
    if a.NaN? then b
    else if b.NaN? then a
    else match kind
      case MIN => if b.r < a.r then b else a
      case MAX => if b.r > a.r then b else a
      case _ => Val(a.r + b.r)
  }

  lemma CombineLaws(kind: Aggregate, a: Double, b: Double, c: Double)
    ensures Combine(kind, a, b) == Combine(kind, b, a)
    ensures Combine(kind, Combine(kind, a, b), c) == Combine(kind, a, Combine(kind, b, c))
    ensures Combine(kind, NaN, a) == a == Combine(kind, a, NaN)
  {
  }

  predicate Selected(rx: Regex, filter: Query, tv: TagsValue) {
    tv.value.Val? && MatchesValue(rx, filter, tv)
  }

  /** What one measurement contributes. The sentinels of :min and :max count as nothing. */
  function Contribution(rx: Regex, kind: Aggregate, filter: Query, tv: TagsValue): Double {
    if !Selected(rx, filter, tv) then NaN
    else match kind
      case COUNT => Val(1.0)
      case MIN => if tv.value.r < MAX_VALUE then tv.value else NaN
      case MAX => if tv.value.r > LOWEST_VALUE then tv.value else NaN
      case _ => tv.value
  }

  function Fold(rx: Regex, kind: Aggregate, filter: Query, tvs: seq<TagsValue>): Double {
    if tvs == [] then NaN
    else Combine(kind, Fold(rx, kind, filter, tvs[..|tvs| - 1]), Contribution(rx, kind, filter, tvs[|tvs| - 1]))
  }

  /** The measurements an aggregation looks at, in order. */
  function Chosen(rx: Regex, filter: Query, tvs: seq<TagsValue>): seq<TagsValue> {
    if tvs == [] then []
    else
      var n := |tvs| - 1;
      Chosen(rx, filter, tvs[..n]) + (if Selected(rx, filter, tvs[n]) then [tvs[n]] else [])
  }

  /** `r` is the least selected value below the largest double, if there is one. */
  ghost predicate Least(rx: Regex, filter: Query, tvs: seq<TagsValue>, r: Double) {
    && (r.Val? <==> exists tv :: tv in tvs && Selected(rx, filter, tv) && tv.value.r < MAX_VALUE)
    && (r.Val? ==> exists tv :: tv in tvs && Selected(rx, filter, tv) && tv.value == r)
    && (r.Val? ==> forall tv :: tv in tvs && Selected(rx, filter, tv) ==> r.r <= tv.value.r)
  }

  /** `r` is the greatest selected value above the lowest double, if there is one. */
  ghost predicate Greatest(rx: Regex, filter: Query, tvs: seq<TagsValue>, r: Double) {
    && (r.Val? <==> exists tv :: tv in tvs && Selected(rx, filter, tv) && tv.value.r > LOWEST_VALUE)
    && (r.Val? ==> exists tv :: tv in tvs && Selected(rx, filter, tv) && tv.value == r)
    && (r.Val? ==> forall tv :: tv in tvs && Selected(rx, filter, tv) ==> r.r >= tv.value.r)
  }

  lemma {:induction false} FoldIsLeast(rx: Regex, filter: Query, tvs: seq<TagsValue>)
    ensures Least(rx, filter, tvs, Fold(rx, MIN, filter, tvs))
  {
    if tvs != [] {
      var n := |tvs| - 1;
      FoldIsLeast(rx, filter, tvs[..n]);
      assert tvs == tvs[..n] + [tvs[n]];
      assert forall tv :: tv in tvs <==> tv in tvs[..n] || tv == tvs[n];
    }
  }

  lemma {:induction false} FoldIsGreatest(rx: Regex, filter: Query, tvs: seq<TagsValue>)
    ensures Greatest(rx, filter, tvs, Fold(rx, MAX, filter, tvs))
  {
    if tvs != [] {
      var n := |tvs| - 1;
      FoldIsGreatest(rx, filter, tvs[..n]);
      assert tvs == tvs[..n] + [tvs[n]];
      assert forall tv :: tv in tvs <==> tv in tvs[..n] || tv == tvs[n];
    }
  }

  lemma {:induction false} FoldIsCount(rx: Regex, filter: Query, tvs: seq<TagsValue>)
    ensures var n := |Chosen(rx, filter, tvs)|; Fold(rx, COUNT, filter, tvs) == if n == 0 then NaN else Val(n as real)
  {
    if tvs != [] { FoldIsCount(rx, filter, tvs[..|tvs| - 1]); }
  }

  /** Sum of the values of measurements that have one. */
  function SumOf(tvs: seq<TagsValue>): real {
    if tvs == [] then 0.0
    else
      var last := tvs[|tvs| - 1];
      SumOf(tvs[..|tvs| - 1]) + (if last.value.Val? then last.value.r else 0.0)
  }

  lemma SumSnoc(tvs: seq<TagsValue>, tv: TagsValue)
    ensures SumOf(tvs + [tv]) == SumOf(tvs) + (if tv.value.Val? then tv.value.r else 0.0)
    ensures tvs == [] ==> SumOf(tvs) == 0.0
  {
    assert (tvs + [tv])[..|tvs|] == tvs;
  }

  function SumOrNaN(tvs: seq<TagsValue>): Double { if tvs == [] then NaN else Val(SumOf(tvs)) }

  lemma {:induction false} FoldIsSum(rx: Regex, filter: Query, tvs: seq<TagsValue>)
    ensures Fold(rx, SUM, filter, tvs) == SumOrNaN(Chosen(rx, filter, tvs))
  {
    if tvs != [] {
      var n := |tvs| - 1;
      FoldIsSum(rx, filter, tvs[..n]);
      var before := Chosen(rx, filter, tvs[..n]);
      if Selected(rx, filter, tvs[n]) { OneMoreSummed(before, tvs[n]); } else { assert before + [] == before; }
    }
  }

  lemma OneMoreSummed(tvs: seq<TagsValue>, tv: TagsValue)
    requires tv.value.Val?
    ensures SumOrNaN(tvs + [tv]) == Combine(SUM, SumOrNaN(tvs), tv.value)
  {
    SumSnoc(tvs, tv);
  }

  /** Exactly the measurements with a value that match are chosen, each as often as it occurs. */
  lemma {:induction false} ChosenExactly(rx: Regex, filter: Query, tvs: seq<TagsValue>, tv: TagsValue)
    ensures multiset(Chosen(rx, filter, tvs))[tv] ==
      if tv.value.Val? && MatchesValue(rx, filter, tv) then multiset(tvs)[tv] else 0
  {
    if tvs != [] {
      var n := |tvs| - 1;
      ChosenExactly(rx, filter, tvs[..n], tv);
      assert tvs == tvs[..n] + [tvs[n]];
    }
  }

  /** What an aggregation yields; an average is the sum over the count. */
  function AggregateOf(rx: Regex, kind: Aggregate, filter: Query, tvs: seq<TagsValue>): Double {
    if kind != AVG then Fold(rx, kind, filter, tvs)
    else
      var total, count := Fold(rx, SUM, filter, tvs), Fold(rx, COUNT, filter, tvs);
      if count.Val? && count.r > 0.0 && total.Val? then Val(total.r / count.r) else NaN
  }

  lemma AverageIs(rx: Regex, filter: Query, tvs: seq<TagsValue>)
    ensures var chosen := Chosen(rx, filter, tvs);
      AggregateOf(rx, AVG, filter, tvs) == if chosen == [] then NaN else Val(SumOf(chosen) / (|chosen| as real))
  {
    FoldIsSum(rx, filter, tvs); FoldIsCount(rx, filter, tvs);
  }

  method SumAf(rx: Regex, filter: Query, tvs: seq<TagsValue>) returns (total: Double)
    ensures total == Fold(rx, SUM, filter, tvs)
    ensures total == SumOrNaN(Chosen(rx, filter, tvs))
  {
    FoldIsSum(rx, filter, tvs);
    total := NaN;
    for i := 0 to |tvs|
      invariant total == Fold(rx, SUM, filter, tvs[..i])
    {
      assert tvs[..i + 1][..i] == tvs[..i];
      var m := tvs[i];
      if m.value.Val? && MatchesValue(rx, filter, m) {
        if total.NaN? { total := m.value; } else { total := Val(total.r + m.value.r); }
      }
    }
    assert tvs[..|tvs|] == tvs;
  }

  method AvgAf(rx: Regex, filter: Query, tvs: seq<TagsValue>) returns (avg: Double)
    ensures avg == AggregateOf(rx, AVG, filter, tvs)
    ensures var chosen := Chosen(rx, filter, tvs);
      avg == if chosen == [] then NaN else Val(SumOf(chosen) / (|chosen| as real))
  {
    var total := NaN;
    var count := 0;
    for i := 0 to |tvs|
      invariant total == Fold(rx, SUM, filter, tvs[..i]) && (total.Val? <==> count > 0) && count >= 0
      invariant Fold(rx, COUNT, filter, tvs[..i]) == if count == 0 then NaN else Val(count as real)
    {
      assert tvs[..i + 1][..i] == tvs[..i];
      var m := tvs[i];
      if m.value.Val? && MatchesValue(rx, filter, m) {
        count := count + 1;
        if total.NaN? { total := m.value; } else { total := Val(total.r + m.value.r); }
      }
    }
    assert tvs[..|tvs|] == tvs;
    avg := if count > 0 then Val(total.r / (count as real)) else NaN;
    AverageIs(rx, filter, tvs);
  }

  method CountAf(rx: Regex, filter: Query, tvs: seq<TagsValue>) returns (r: Double)
    ensures r == Fold(rx, COUNT, filter, tvs)
    ensures var n := |Chosen(rx, filter, tvs)|; r == if n == 0 then NaN else Val(n as real)
  {
    var count := 0;
    for i := 0 to |tvs|
      invariant count >= 0
      invariant Fold(rx, COUNT, filter, tvs[..i]) == if count == 0 then NaN else Val(count as real)
    {
      assert tvs[..i + 1][..i] == tvs[..i];
      var m := tvs[i];
      if m.value.Val? && MatchesValue(rx, filter, m) {
        count := count + 1;
      }
    }
    assert tvs[..|tvs|] == tvs;
    r := if count > 0 then Val(count as real) else NaN;
    FoldIsCount(rx, filter, tvs);
  }

  method MinAf(rx: Regex, filter: Query, tvs: seq<TagsValue>) returns (r: Double)
    ensures r == Fold(rx, MIN, filter, tvs) && Least(rx, filter, tvs, r)
  {
    var mn := MAX_VALUE;
    for i := 0 to |tvs|
      invariant mn <= MAX_VALUE
      invariant Fold(rx, MIN, filter, tvs[..i]) == if mn == MAX_VALUE then NaN else Val(mn)
    {
      assert tvs[..i + 1][..i] == tvs[..i];
      var m := tvs[i];
      if m.value.Val? && MatchesValue(rx, filter, m) {
        mn := if m.value.r < mn then m.value.r else mn;
      }
    }
    assert tvs[..|tvs|] == tvs;
    r := if mn == MAX_VALUE then NaN else Val(mn);
    FoldIsLeast(rx, filter, tvs);
  }

  method MaxAf(rx: Regex, filter: Query, tvs: seq<TagsValue>) returns (r: Double)
    ensures r == Fold(rx, MAX, filter, tvs) && Greatest(rx, filter, tvs, r)
  {
    var mx := LOWEST_VALUE;
    for i := 0 to |tvs|
      invariant mx >= LOWEST_VALUE
      invariant Fold(rx, MAX, filter, tvs[..i]) == if mx == LOWEST_VALUE then NaN else Val(mx)
    {
      assert tvs[..i + 1][..i] == tvs[..i];
      var m := tvs[i];
      if m.value.Val? && MatchesValue(rx, filter, m) {
        mx := if m.value.r > mx then m.value.r else mx;
      }
    }
    assert tvs[..|tvs|] == tvs;
    r := if mx == LOWEST_VALUE then NaN else Val(mx);
    FoldIsGreatest(rx, filter, tvs);
  }

  function Evaluated(rx: Regex, v: ValueExpr, tvs: seq<TagsValue>): TagsValue {
    match v
    case Aggregated(kind, filter) => Simple(QueryTags(filter), AggregateOf(rx, kind, filter, tvs))
    case Constant(c) => Simple(map[], Val(c))
  }

  method Apply(rx: Regex, v: ValueExpr, tvs: seq<TagsValue>) returns (r: TagsValue)
    ensures r == Evaluated(rx, v, tvs)
  {
    match v
    case Constant(c) => r := Simple(map[], Val(c));
    case Aggregated(kind, filter) =>
      var a;
      match kind {
        case SUM => a := SumAf(rx, filter, tvs);
        case COUNT => a := CountAf(rx, filter, tvs);
        case AVG => a := AvgAf(rx, filter, tvs);
        case MIN => a := MinAf(rx, filter, tvs);
        case MAX => a := MaxAf(rx, filter, tvs);
      }
      r := Simple(QueryTags(filter), a);
  }
}
