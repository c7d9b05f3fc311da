/**
 * Grouping measurements by their tags and aggregating each group (group_by.cc and keep_drop_tags.cc in interpreter/).
 */
module Grouping {
  import opened Collections
  import opened Doubles
  import opened Queries
  import opened Interpreter
  import opened Aggregation

  /** The tags a measurement is grouped under; None when it is dropped. */
  type Grouper = TagsValue -> Option<Tags>

  /** The values of the given keys, if it has them all. */
  function TagsAt(tv: TagsValue, keys: set<string>): Option<Tags> {
    if forall k | k in keys :: GetValue(tv, k).Some? then Some(map k | k in keys :: GetValue(tv, k).value) else None
  }

  function KeySet(keys: seq<string>): set<string> { set k | k in keys }

  /** :by keeps exactly the measurements with all the keys, each under the values it has for them. */
  lemma ByRetains(keys: seq<string>, tv: TagsValue)
    ensures By(keys).Grouping()(tv).Some? <==> forall k :: k in keys ==> k in AllTags(tv)
    ensures var t := By(keys).Grouping()(tv);
      t.Some? ==> (forall k :: k in t.value <==> k in keys) && forall k :: k in keys ==> t.value[k] == AllTags(tv)[k]
  {
    forall k ensures GetValue(tv, k) == Lookup(AllTags(tv), k) { GetValueIsLookup(tv, k); }
    assert forall k :: k in keys <==> k in KeySet(keys);
  }

  function ByKeys(keys: seq<string>): Grouper { (tv: TagsValue) => TagsAt(tv, KeySet(keys)) }

  /** Keys that :drop-tags leaves: the name, and every tag not listed. */
  function RemainingKeys(tv: TagsValue, dropped: seq<string>): set<string> {
    {NAME} + set k | k in AllTags(tv) && k !in dropped
  }

  function ByDropping(dropped: seq<string>): Grouper {
    (tv: TagsValue) => TagsAt(tv, RemainingKeys(tv, dropped))
  }

  /** :drop-tags keeps exactly the measurements with a name, under all their other tags. */
  lemma DropRetainsNamed(dropped: seq<string>, tv: TagsValue)
    ensures ByDropping(dropped)(tv) ==
      if GetValue(tv, NAME).None? then None
      else Some(map k | k in AllTags(tv) && (k == NAME || k !in dropped) :: AllTags(tv)[k])
    ensures tv.FromId? ==> ByDropping(dropped)(tv).Some?
  {
    forall k ensures GetValue(tv, k) == Lookup(AllTags(tv), k) { GetValueIsLookup(tv, k); }
    var remaining, all := RemainingKeys(tv, dropped), AllTags(tv);
    assert NAME in remaining;
    if NAME in all {
      assert forall k :: k in remaining <==> k in all && (k == NAME || k !in dropped);
      assert TagsAt(tv, remaining).Some?;
      assert (map k | k in remaining :: GetValue(tv, k).value)
        == (map k | k in all && (k == NAME || k !in dropped) :: all[k]);
    } else {
      assert GetValue(tv, NAME).None?;
    }
  }

  function Group(g: Grouper, tvs: seq<TagsValue>, tags: Tags): seq<TagsValue> {
    if tvs == [] then []
    else
      var last := tvs[|tvs| - 1];
      Group(g, tvs[..|tvs| - 1], tags) + (if g(last) == Some(tags) then [last] else [])
  }

  function Retained(g: Grouper, tvs: seq<TagsValue>): seq<TagsValue> {
    if tvs == [] then []
    else
      var last := tvs[|tvs| - 1];
      Retained(g, tvs[..|tvs| - 1]) + (if g(last).Some? then [last] else [])
  }

  /** All the tags some measurement is grouped under. */
  function GroupTags(g: Grouper, tvs: seq<TagsValue>): set<Tags> {
    set tv | tv in tvs && g(tv).Some? :: g(tv).value
  }

  ghost predicate Distinct(order: seq<Tags>) { forall i, j :: 0 <= i < j < |order| ==> order[i] != order[j] }

  /** A visiting order of the groups: each once. */
  ghost predicate OrderOf(order: seq<Tags>, groups: set<Tags>) {
    (forall t :: t in order <==> t in groups) && Distinct(order)
  }

  /** The results, group by group; not-a-number is skipped. `merge` adds the expression's own tags, overriding. */
  function Results(rx: Regex, g: Grouper, v: ValueExpr, tvs: seq<TagsValue>, order: seq<Tags>, merge: bool)
    : seq<TagsValue>
  {
    if order == [] then []
    else
      var tags := order[|order| - 1];
      var r := Evaluated(rx, v, Group(g, tvs, tags));
      Results(rx, g, v, tvs, order[..|order| - 1], merge) + Result(r, tags, merge)
  }

  function Result(r: TagsValue, tags: Tags, merge: bool): seq<TagsValue> {
    if r.value.NaN? then [] else [Simple(if merge then tags + AllTags(r) else tags, r.value)]
  }

  lemma ResultsSnoc(rx: Regex, g: Grouper, v: ValueExpr, tvs: seq<TagsValue>, order: seq<Tags>, tags: Tags, merge: bool)
    ensures Results(rx, g, v, tvs, order + [tags], merge) ==
      Results(rx, g, v, tvs, order, merge) + Result(Evaluated(rx, v, Group(g, tvs, tags)), tags, merge)
  {
    assert (order + [tags])[..|order|] == order;
  }

  // ----- The loops -----

  /** The values of `keys` in turn, stopping at the first that is missing. */
  method GroupByValues(tv: TagsValue, keys: seq<string>) returns (r: Option<Tags>)
    ensures r == TagsAt(tv, KeySet(keys))
  {
    var vals: Tags := map[];
    for i := 0 to |keys|
      invariant vals.Keys == KeySet(keys[..i])
      invariant forall k :: k in vals ==> GetValue(tv, k) == Some(vals[k])
    {
      var value := GetValue(tv, keys[i]);
      if value.None? {
        assert keys[i] in KeySet(keys);
        return None;
      }
      vals := vals[keys[i] := value.value];
    }
    assert keys[..|keys|] == keys;
    assert vals == map k | k in KeySet(keys) :: GetValue(tv, k).value;
    r := Some(vals);
  }

  method DropKeys(tags: Tags, keys: seq<string>) returns (res: seq<string>)
    ensures KeySet(res) == {NAME} + set k | k in tags && k !in keys
  {
    res := KeysLeft(tags, keys);
  }

  method KeysLeft(tags: Tags, keys: seq<string>) returns (res: seq<string>)
    ensures forall k :: k in res <==> k == NAME || (k in tags && k !in keys)
  {
    res := [NAME];
    var pending := tags.Keys;
    while pending != {}
      invariant pending <= tags.Keys
      invariant forall k :: k in res <==> k == NAME || (k in tags && k !in pending && k !in keys)
      decreases |pending|
    {
      var k :| k in pending;
      pending := pending - {k};
      if k != NAME && k !in keys {
        res := res + [k];
      }
    }
  }

  /** Which keys a measurement is grouped by. */
  datatype Keys = By(keys: seq<string>) | Dropping(keys: seq<string>) {
    function Grouping(): Grouper {
      match this
      case By(ks) => ByKeys(ks)
      case Dropping(ks) => ByDropping(ks)
    }
  }

  method TagsFor(k: Keys, tv: TagsValue) returns (r: Option<Tags>)
    ensures r == k.Grouping()(tv)
  {
    match k
    case By(ks) => r := GroupByValues(tv, ks);
    case Dropping(ks) =>
      var remaining := DropKeys(AllTags(tv), ks);
      r := GroupByValues(tv, remaining);
  }

  lemma GroupSnoc(g: Grouper, tvs: seq<TagsValue>, tv: TagsValue, tags: Tags)
    ensures Group(g, tvs + [tv], tags) == Group(g, tvs, tags) + (if g(tv) == Some(tags) then [tv] else [])
    ensures GroupTags(g, tvs + [tv]) == GroupTags(g, tvs) + (if g(tv).Some? then {g(tv).value} else {})
  {
    assert (tvs + [tv])[..|tvs|] == tvs;
  }

  lemma {:induction false} NoGroup(g: Grouper, tvs: seq<TagsValue>, tags: Tags)
    requires tags !in GroupTags(g, tvs)
    ensures Group(g, tvs, tags) == []
  {
    if tvs != [] {
      var n := |tvs| - 1;
      assert tvs == tvs[..n] + [tvs[n]];
      assert tvs[n] in tvs;
      NoGroup(g, tvs[..n], tags);
    }
  }

  method GroupAll(k: Keys, tvs: seq<TagsValue>) returns (grouped: map<Tags, seq<TagsValue>>)
    ensures GroupedBy(k.Grouping(), tvs, grouped)
  {
    grouped := map[];
    for i := 0 to |tvs|
      invariant GroupedBy(k.Grouping(), tvs[..i], grouped)
    {
      assert tvs[..i + 1] == tvs[..i] + [tvs[i]];
      var tags := TagsFor(k, tvs[i]);
      GroupedMore(k.Grouping(), tvs[..i], tvs[i], grouped);
      if tags.Some? {
        var sofar := if tags.value in grouped then grouped[tags.value] else [];
        grouped := grouped[tags.value := sofar + [tvs[i]]];
      }
    }
    assert tvs[..|tvs|] == tvs;
  }

  /** `grouped` maps the tags of each group to its members. */
  ghost predicate GroupedBy(g: Grouper, tvs: seq<TagsValue>, grouped: map<Tags, seq<TagsValue>>) {
    && grouped.Keys == GroupTags(g, tvs)
    && (forall t :: t in grouped ==> grouped[t] == Group(g, tvs, t))
  }

  lemma GroupedMore(g: Grouper, tvs: seq<TagsValue>, tv: TagsValue, grouped: map<Tags, seq<TagsValue>>)
    requires GroupedBy(g, tvs, grouped)
    ensures match g(tv)
      case None => GroupedBy(g, tvs + [tv], grouped)
      case Some(tags) =>
        GroupedBy(g, tvs + [tv], grouped[tags := (if tags in grouped then grouped[tags] else []) + [tv]])
  {
    forall t ensures Group(g, tvs + [tv], t) == Group(g, tvs, t) + (if g(tv) == Some(t) then [tv] else []) {
      GroupSnoc(g, tvs, tv, t);
    }
    assert GroupTags(g, tvs + [tv]) == GroupTags(g, tvs) + (if g(tv).Some? then {g(tv).value} else {}) by {
      GroupSnoc(g, tvs, tv, map[]);
    }
    if g(tv).Some? && g(tv).value !in grouped { NoGroup(g, tvs, g(tv).value); }
  }

  /** Hash order: any order of the groups. */
  method HashOrder(groups: set<Tags>) returns (order: seq<Tags>)
    ensures OrderOf(order, groups)
  {
    order := [];
    var pending := groups;
    while pending != {}
      invariant pending <= groups
      invariant forall t :: t in order <==> t in groups && t !in pending
      invariant Distinct(order)
      decreases |pending|
    {
      var tags :| tags in pending;
      pending := pending - {tags};
      order := order + [tags];
    }
  }

  method ApplyToGroups(rx: Regex, k: Keys, v: ValueExpr, tvs: seq<TagsValue>, merge: bool)
    returns (results: seq<TagsValue>)
    ensures exists order ::
      OrderOf(order, GroupTags(k.Grouping(), tvs)) && results == Results(rx, k.Grouping(), v, tvs, order, merge)
  {
    var grouped := GroupAll(k, tvs);
    var visits := HashOrder(grouped.Keys);
    forall t | t in visits ensures t in grouped && grouped[t] == Group(k.Grouping(), tvs, t) {
      assert t in grouped.Keys;
    }
    results := ApplyInOrder(rx, k.Grouping(), v, tvs, grouped, visits, merge);
  }

  method ApplyInOrder(
    rx: Regex, ghost g: Grouper, v: ValueExpr, ghost tvs: seq<TagsValue>, grouped: map<Tags, seq<TagsValue>>,
    visits: seq<Tags>, merge: bool)
    returns (results: seq<TagsValue>)
    requires forall t :: t in visits ==> t in grouped && grouped[t] == Group(g, tvs, t)
    ensures results == Results(rx, g, v, tvs, visits, merge)
  {
    results := [];
    for i := 0 to |visits|
      invariant results == Results(rx, g, v, tvs, visits[..i], merge)
    {
      assert visits[i] in visits;
      var one := ApplyToGroup(rx, v, visits[i], grouped[visits[i]], merge);
      ResultsSnoc(rx, g, v, tvs, visits[..i], visits[i], merge);
      assert visits[..i + 1] == visits[..i] + [visits[i]];
      results := results + one;
    }
    assert visits[..|visits|] == visits;
  }

  method ApplyToGroup(rx: Regex, v: ValueExpr, tags: Tags, group: seq<TagsValue>, merge: bool)
    returns (one: seq<TagsValue>)
    ensures one == Result(Evaluated(rx, v, group), tags, merge)
  {
    var r := Apply(rx, v, group);
    if r.value.NaN? { return []; }
    one := [Simple(if merge then tags + AllTags(r) else tags, r.value)];
  }

  // ----- Conservation -----

  /** Re-aggregating results with the same kind; counts are added. */
  function FoldValues(kind: Aggregate, results: seq<TagsValue>): Double {
    if results == [] then NaN
    else Combine(kind, FoldValues(kind, results[..|results| - 1]), results[|results| - 1].value)
  }

  lemma {:induction false} FoldValuesConcat(kind: Aggregate, a: seq<TagsValue>, b: seq<TagsValue>)
    ensures FoldValues(kind, a + b) == Combine(kind, FoldValues(kind, a), FoldValues(kind, b))
    decreases |b|
  {
    if b == [] {
      assert a + b == a;
    } else {
      var n := |b| - 1;
      assert (a + b)[..|a + b| - 1] == a + b[..n];
      FoldValuesConcat(kind, a, b[..n]);
      CombineLaws(kind, FoldValues(kind, a), FoldValues(kind, b[..n]), b[n].value);
    }
  }

  /** Fold of the groups' folds, in the given order. */
  function FoldGroups(
    rx: Regex, kind: Aggregate, filter: Query, g: Grouper, tvs: seq<TagsValue>, order: seq<Tags>): Double
  {
    if order == [] then NaN
    else Combine(kind, FoldGroups(rx, kind, filter, g, tvs, order[..|order| - 1]),
                 Fold(rx, kind, filter, Group(g, tvs, order[|order| - 1])))
  }

  lemma {:induction false} ResultsFoldGroups(
    rx: Regex, kind: Aggregate, filter: Query, g: Grouper, tvs: seq<TagsValue>, order: seq<Tags>, merge: bool)
    requires kind != AVG
    ensures FoldValues(kind, Results(rx, g, Aggregated(kind, filter), tvs, order, merge)) ==
      FoldGroups(rx, kind, filter, g, tvs, order)
  {
    if order != [] {
      var n := |order| - 1;
      ResultsFoldGroups(rx, kind, filter, g, tvs, order[..n], merge);
      var before := Results(rx, g, Aggregated(kind, filter), tvs, order[..n], merge);
      var r := Evaluated(rx, Aggregated(kind, filter), Group(g, tvs, order[n]));
      FoldResult(kind, before, r, order[n], merge);
    }
  }

  lemma FoldResult(kind: Aggregate, before: seq<TagsValue>, r: TagsValue, tags: Tags, merge: bool)
    ensures FoldValues(kind, before + Result(r, tags, merge)) == Combine(kind, FoldValues(kind, before), r.value)
  {
    var one := Result(r, tags, merge);
    if one == [] {
      assert before + one == before;
    } else {
      assert (before + one)[..|before|] == before;
    }
  }

  lemma FoldSnoc(rx: Regex, kind: Aggregate, filter: Query, tvs: seq<TagsValue>, tv: TagsValue)
    ensures Fold(rx, kind, filter, tvs + [tv]) ==
      Combine(kind, Fold(rx, kind, filter, tvs), Contribution(rx, kind, filter, tv))
  {
    assert (tvs + [tv])[..|tvs|] == tvs;
  }

  /** What `tv` adds to its own group, and to no other. */
  function Share(rx: Regex, kind: Aggregate, filter: Query, mine: bool, tv: TagsValue): Double {
    if mine then Contribution(rx, kind, filter, tv) else NaN
  }

  lemma FoldGroupSnoc(
    rx: Regex, kind: Aggregate, filter: Query, g: Grouper, tvs: seq<TagsValue>, tv: TagsValue, tags: Tags)
    ensures Fold(rx, kind, filter, Group(g, tvs + [tv], tags)) ==
      Combine(kind, Fold(rx, kind, filter, Group(g, tvs, tags)), Share(rx, kind, filter, g(tv) == Some(tags), tv))
  {
    GroupSnoc(g, tvs, tv, tags);
    var group := Group(g, tvs, tags);
    if g(tv) == Some(tags) {
      FoldSnoc(rx, kind, filter, group, tv);
    } else {
      assert group + [] == group;
      CombineLaws(kind, Fold(rx, kind, filter, group), NaN, NaN);
    }
  }

  lemma ShareMoves(kind: Aggregate, x: Double, y: Double, c: Double)
    ensures Combine(kind, Combine(kind, x, c), Combine(kind, y, NaN)) == Combine(kind, Combine(kind, x, y), c)
    ensures Combine(kind, Combine(kind, x, NaN), Combine(kind, y, c)) == Combine(kind, Combine(kind, x, y), c)
  {
    CombineLaws(kind, y, c, c); CombineLaws(kind, x, c, y); CombineLaws(kind, x, y, c);
  }

  predicate InOrder(g: Grouper, tv: TagsValue, order: seq<Tags>) { g(tv).Some? && g(tv).value in order }

  /** One more measurement enters the fold of exactly its own group. */
  lemma {:induction false} FoldGroupsSnoc(
    rx: Regex, kind: Aggregate, filter: Query, g: Grouper, tvs: seq<TagsValue>, tv: TagsValue, order: seq<Tags>)
    requires Distinct(order)
    ensures FoldGroups(rx, kind, filter, g, tvs + [tv], order) ==
      Combine(kind, FoldGroups(rx, kind, filter, g, tvs, order), Share(rx, kind, filter, InOrder(g, tv, order), tv))
  {
    if order != [] {
      var n := |order| - 1;
      var before, tags := order[..n], order[n];
      FoldGroupsSnoc(rx, kind, filter, g, tvs, tv, before);
      FoldGroupSnoc(rx, kind, filter, g, tvs, tv, tags);
      InOrderSnoc(g, tv, order);
      ShareMoves(kind, FoldGroups(rx, kind, filter, g, tvs, before), Fold(rx, kind, filter, Group(g, tvs, tags)),
                 Share(rx, kind, filter, InOrder(g, tv, order), tv));
    }
  }

  lemma InOrderSnoc(g: Grouper, tv: TagsValue, order: seq<Tags>)
    requires order != [] && Distinct(order)
    ensures var before, tags := order[..|order| - 1], order[|order| - 1];
      && (InOrder(g, tv, order) <==> InOrder(g, tv, before) || g(tv) == Some(tags))
      && !(InOrder(g, tv, before) && g(tv) == Some(tags))
  {
    assert order == order[..|order| - 1] + [order[|order| - 1]];
  }

  lemma {:induction false} EmptyGroups(rx: Regex, kind: Aggregate, filter: Query, g: Grouper, order: seq<Tags>)
    ensures FoldGroups(rx, kind, filter, g, [], order) == NaN
  {
    if order != [] { EmptyGroups(rx, kind, filter, g, order[..|order| - 1]); }
  }

  lemma RetainedSnoc(g: Grouper, tvs: seq<TagsValue>, tv: TagsValue)
    ensures Retained(g, tvs + [tv]) == Retained(g, tvs) + (if g(tv).Some? then [tv] else [])
  {
    assert (tvs + [tv])[..|tvs|] == tvs;
  }

  lemma {:induction false} GroupsFoldRetained(
    rx: Regex, kind: Aggregate, filter: Query, g: Grouper, tvs: seq<TagsValue>, order: seq<Tags>)
    requires Distinct(order)
    requires GroupTags(g, tvs) <= set t | t in order
    ensures FoldGroups(rx, kind, filter, g, tvs, order) == Fold(rx, kind, filter, Retained(g, tvs))
    decreases |tvs|
  {
    if tvs == [] {
      EmptyGroups(rx, kind, filter, g, order);
    } else {
      var n := |tvs| - 1;
      var before, last := tvs[..n], tvs[n];
      assert tvs == before + [last];
      GroupSnoc(g, before, last, map[]);
      GroupsFoldRetained(rx, kind, filter, g, before, order);
      FoldGroupsSnoc(rx, kind, filter, g, before, last, order);
      RetainedSnoc(g, before, last);
      FoldRetainedSnoc(rx, kind, filter, g, before, last);
      assert g(last).Some? ==> g(last).value in GroupTags(g, tvs);
    }
  }

  lemma FoldRetainedSnoc(rx: Regex, kind: Aggregate, filter: Query, g: Grouper, tvs: seq<TagsValue>, tv: TagsValue)
    ensures Fold(rx, kind, filter, Retained(g, tvs + [tv])) ==
      Combine(kind, Fold(rx, kind, filter, Retained(g, tvs)), Share(rx, kind, filter, g(tv).Some?, tv))
  {
    RetainedSnoc(g, tvs, tv);
    var kept := Retained(g, tvs);
    if g(tv).Some? {
      FoldSnoc(rx, kind, filter, kept, tv);
    } else {
      assert kept + [] == kept;
      CombineLaws(kind, Fold(rx, kind, filter, kept), NaN, NaN);
    }
  }

  /**
   * Grouping conserves sums, counts, minima and maxima: the grouped results, re-aggregated in any order of the groups,
   * equal the aggregate over every measurement that was grouped at all.
   */
  lemma GroupingConserves(
    rx: Regex, kind: Aggregate, filter: Query, g: Grouper, tvs: seq<TagsValue>, order: seq<Tags>, merge: bool)
    requires kind != AVG && OrderOf(order, GroupTags(g, tvs))
    ensures FoldValues(kind, Results(rx, g, Aggregated(kind, filter), tvs, order, merge)) ==
      AggregateOf(rx, kind, filter, Retained(g, tvs))
  {
    ResultsFoldGroups(rx, kind, filter, g, tvs, order, merge);
    GroupsFoldRetained(rx, kind, filter, g, tvs, order);
  }

  // ----- Partition -----

  function AllGroups(g: Grouper, tvs: seq<TagsValue>, order: seq<Tags>): seq<TagsValue> {
    if order == [] then [] else AllGroups(g, tvs, order[..|order| - 1]) + Group(g, tvs, order[|order| - 1])
  }

  lemma {:induction false} AllGroupsSnoc(g: Grouper, tvs: seq<TagsValue>, tv: TagsValue, order: seq<Tags>)
    requires Distinct(order)
    ensures multiset(AllGroups(g, tvs + [tv], order)) ==
      multiset(AllGroups(g, tvs, order)) + multiset(if InOrder(g, tv, order) then [tv] else [])
  {
    if order != [] {
      var n := |order| - 1;
      AllGroupsSnoc(g, tvs, tv, order[..n]);
      GroupSnoc(g, tvs, tv, order[n]);
      InOrderSnoc(g, tv, order);
    }
  }

  lemma {:induction false} NothingGrouped(g: Grouper, order: seq<Tags>)
    ensures AllGroups(g, [], order) == []
  {
    if order != [] { NothingGrouped(g, order[..|order| - 1]); }
  }

  /** Each measurement with all the keys is in exactly one group, the others in none. */
  lemma {:induction false} GroupsPartition(g: Grouper, tvs: seq<TagsValue>, order: seq<Tags>)
    requires Distinct(order)
    requires GroupTags(g, tvs) <= set t | t in order
    ensures multiset(AllGroups(g, tvs, order)) == multiset(Retained(g, tvs))
    decreases |tvs|
  {
    if tvs == [] {
      NothingGrouped(g, order);
    } else {
      var n := |tvs| - 1;
      assert tvs == tvs[..n] + [tvs[n]];
      GroupSnoc(g, tvs[..n], tvs[n], map[]);
      GroupsPartition(g, tvs[..n], order);
      AllGroupsSnoc(g, tvs[..n], tvs[n], order);
      RetainedSnoc(g, tvs[..n], tvs[n]);
      assert g(tvs[n]).Some? ==> g(tvs[n]).value in GroupTags(g, tvs);
    }
  }

  // ----- Result tags -----

  lemma {:induction false} FoldHasContributor(rx: Regex, kind: Aggregate, filter: Query, tvs: seq<TagsValue>)
    returns (tv: TagsValue)
    requires Fold(rx, kind, filter, tvs).Val?
    ensures tv in tvs && Selected(rx, filter, tv)
  {
    var n := |tvs| - 1;
    if Contribution(rx, kind, filter, tvs[n]).Val? {
      tv := tvs[n];
    } else {
      tv := FoldHasContributor(rx, kind, filter, tvs[..n]);
    }
  }

  lemma {:induction false} GroupMembers(g: Grouper, tvs: seq<TagsValue>, tags: Tags)
    ensures forall tv :: tv in Group(g, tvs, tags) ==> tv in tvs && g(tv) == Some(tags)
  {
    if tvs != [] {
      var n := |tvs| - 1;
      assert tvs == tvs[..n] + [tvs[n]];
      GroupMembers(g, tvs[..n], tags);
    }
  }

  ghost predicate TagsHold(tags: Tags, tv: TagsValue) {
    forall k :: k in tags ==> k in AllTags(tv) && AllTags(tv)[k] == tags[k]
  }

  /** The tags of a group hold of its members, for every grouping. */
  lemma GroupTagsHold(k: Keys, tvs: seq<TagsValue>, tags: Tags, tv: TagsValue)
    requires tv in Group(k.Grouping(), tvs, tags)
    ensures TagsHold(tags, tv)
  {
    GroupMembers(k.Grouping(), tvs, tags);
    assert k.Grouping()(tv) == Some(tags);
    forall key ensures GetValue(tv, key) == Lookup(AllTags(tv), key) { GetValueIsLookup(tv, key); }
  }

  /** Adding the tags a filter implies keeps them true of what the filter selects. */
  lemma FilterTagsHold(rx: Regex, filter: Query, tags: Tags, tv: TagsValue)
    requires TagsHold(tags, tv) && MatchesValue(rx, filter, tv)
    ensures TagsHold(tags + QueryTags(filter), tv)
  {
    MatchesAgree(rx, filter, tv);
    QueryTagsHold(rx, filter, AllTags(tv));
  }

  /** The tags of a grouped result hold of every measurement that contributed to it. */
  lemma ResultTagsHold(rx: Regex, keys: seq<string>, filter: Query, tvs: seq<TagsValue>, tags: Tags, tv: TagsValue)
    requires tv in Group(ByKeys(keys), tvs, tags) && Selected(rx, filter, tv)
    ensures TagsHold(tags + QueryTags(filter), tv)
    ensures tags.Keys == KeySet(keys)
    ensures forall k :: k in tags ==> (tags + QueryTags(filter))[k] == tags[k]
  {
    GroupMembers(ByKeys(keys), tvs, tags);
    GroupTagsHold(By(keys), tvs, tags, tv);
    FilterTagsHold(rx, filter, tags, tv);
  }

  /** Two groups that both have a value get different result tags, although the filter's tags override. */
  lemma ResultTagsDistinct(
    rx: Regex, keys: seq<string>, kind: Aggregate, filter: Query, tvs: seq<TagsValue>, a: Tags, b: Tags)
    requires a != b
    requires AggregateOf(rx, kind, filter, Group(ByKeys(keys), tvs, a)).Val?
    requires AggregateOf(rx, kind, filter, Group(ByKeys(keys), tvs, b)).Val?
    ensures a + QueryTags(filter) != b + QueryTags(filter)
  {
    var k := if kind == AVG then SUM else kind;
    var x := FoldHasContributor(rx, k, filter, Group(ByKeys(keys), tvs, a));
    var y := FoldHasContributor(rx, k, filter, Group(ByKeys(keys), tvs, b));
    ResultTagsHold(rx, keys, filter, tvs, a, x);
    ResultTagsHold(rx, keys, filter, tvs, b, y);
    var key :| key in a && a[key] != b[key];
    assert (a + QueryTags(filter))[key] != (b + QueryTags(filter))[key];
  }

  lemma {:induction false} ResultFromGroup(
    rx: Regex, g: Grouper, kind: Aggregate, filter: Query, tvs: seq<TagsValue>, order: seq<Tags>, merge: bool,
    r: TagsValue)
    returns (tags: Tags)
    requires r in Results(rx, g, Aggregated(kind, filter), tvs, order, merge)
    ensures tags in order && AggregateOf(rx, kind, filter, Group(g, tvs, tags)).Val?
    ensures AllTags(r) == if merge then tags + QueryTags(filter) else tags
  {
    var n := |order| - 1;
    var before := Results(rx, g, Aggregated(kind, filter), tvs, order[..n], merge);
    if r in before {
      tags := ResultFromGroup(rx, g, kind, filter, tvs, order[..n], merge, r);
    } else {
      tags := order[n];
    }
  }

  /** Results of :by over an aggregation carry pairwise distinct tags. */
  lemma {:induction false} GroupByTagsDistinct(
    rx: Regex, keys: seq<string>, kind: Aggregate, filter: Query, tvs: seq<TagsValue>, order: seq<Tags>, i: nat, j: nat)
    requires Distinct(order)
    requires i < j < |Results(rx, ByKeys(keys), Aggregated(kind, filter), tvs, order, true)|
    ensures var rs := Results(rx, ByKeys(keys), Aggregated(kind, filter), tvs, order, true);
      AllTags(rs[i]) != AllTags(rs[j])
  {
    var n, g := |order| - 1, ByKeys(keys);
    var before := Results(rx, g, Aggregated(kind, filter), tvs, order[..n], true);
    if j < |before| {
      GroupByTagsDistinct(rx, keys, kind, filter, tvs, order[..n], i, j);
    } else {
      LastTagsDistinct(rx, keys, kind, filter, tvs, order, before[i]);
    }
  }

  /** The last group's result differs from every earlier one. */
  lemma LastTagsDistinct(
    rx: Regex, keys: seq<string>, kind: Aggregate, filter: Query, tvs: seq<TagsValue>, order: seq<Tags>, r: TagsValue)
    requires Distinct(order) && order != []
    requires AggregateOf(rx, kind, filter, Group(ByKeys(keys), tvs, order[|order| - 1])).Val?
    requires r in Results(rx, ByKeys(keys), Aggregated(kind, filter), tvs, order[..|order| - 1], true)
    ensures AllTags(r) != order[|order| - 1] + QueryTags(filter)
  {
    var n := |order| - 1;
    var tags := ResultFromGroup(rx, ByKeys(keys), kind, filter, tvs, order[..n], true, r);
    assert tags != order[n];
    ResultTagsDistinct(rx, keys, kind, filter, tvs, tags, order[n]);
  }

  /** So do the results of :keep-tags and :drop-tags, which carry the tags of their groups. */
  lemma {:induction false} KeepDropTagsDistinct(
    rx: Regex, g: Grouper, kind: Aggregate, filter: Query, tvs: seq<TagsValue>, order: seq<Tags>, i: nat, j: nat)
    requires Distinct(order)
    requires i < j < |Results(rx, g, Aggregated(kind, filter), tvs, order, false)|
    ensures var rs := Results(rx, g, Aggregated(kind, filter), tvs, order, false);
      AllTags(rs[i]) != AllTags(rs[j])
  {
    var n := |order| - 1;
    var before := Results(rx, g, Aggregated(kind, filter), tvs, order[..n], false);
    if j < |before| {
      KeepDropTagsDistinct(rx, g, kind, filter, tvs, order[..n], i, j);
    } else {
      var tags := ResultFromGroup(rx, g, kind, filter, tvs, order[..n], false, before[i]);
      assert tags != order[n];
    }
  }
}
