/**
 * From the text of an expression to aggregated measurements (evaluator.cc, all.cc and singleton_value_expr.cc in
 * interpreter/).
 */
module Evaluator {
  import opened Collections
  import opened Doubles
  import opened Queries
  import opened Tokenizer
  import opened Interpreter
  import opened Programs
  import opened Aggregation
  import opened Grouping

  // ----- What an expression on the stack yields -----

  function AllMatching(rx: Regex, q: Query, tvs: seq<TagsValue>): seq<TagsValue> {
    if q.True? then tvs else Chosen(rx, q, tvs)
  }

  function KeysOf(m: MultipleResults): Keys
    requires !m.All?
  {
    if m.GroupBy? || m.keep then By(m.keys) else Dropping(m.keys)
  }

  /** `results` is what `e` yields, for some visiting order of its groups. */
  ghost predicate Yields(rx: Regex, e: Expr, tvs: seq<TagsValue>, results: seq<TagsValue>) {
    match e
    case Value(v) => results == Result(Evaluated(rx, v, tvs), map[], true)
    case Multiple(All(q)) => results == AllMatching(rx, q, tvs)
    case Multiple(m) =>
      var g := KeysOf(m).Grouping();
      exists order ::
        OrderOf(order, GroupTags(g, tvs)) && results == Results(rx, g, m.expr, tvs, order, m.GroupBy?)
    case _ => results == []
  }

  /** The stack is emptied from the top, the results are put one after the other. */
  ghost predicate YieldsAll(rx: Regex, st: Stack, tvs: seq<TagsValue>, results: seq<TagsValue>) {
    if st == [] then results == []
    else exists k | 0 <= k <= |results| ::
      && Yields(rx, st[|st| - 1], tvs, results[..k])
      && YieldsAll(rx, st[..|st| - 1], tvs, results[k..])
  }

  /** :all yields everything for :true, and otherwise exactly the measurements with a value that match. */
  lemma AllExactly(rx: Regex, q: Query, tvs: seq<TagsValue>, tv: TagsValue)
    ensures multiset(AllMatching(rx, q, tvs))[tv] ==
      if q.True? || (tv.value.Val? && MatchesValue(rx, q, tv)) then multiset(tvs)[tv] else 0
  {
    ChosenExactly(rx, q, tvs, tv);
  }

  /** :keep-tags keeps exactly the measurements with a name and all the keys. */
  lemma KeepRetains(keys: seq<string>, tv: TagsValue)
    ensures KeysFor(KeepingWord, keys).Grouping()(tv).Some? <==>
      "name" in AllTags(tv) && forall k :: k in keys ==> k in AllTags(tv)
    ensures var t := KeysFor(KeepingWord, keys).Grouping()(tv);
      t.Some? ==> (forall k :: k in t.value <==> k == "name" || k in keys) && TagsHold(t.value, tv)
  {
    ByRetains(if NAME in keys then keys else keys + [NAME], tv);
  }

  // ----- The methods -----

  method ApplyAll(rx: Regex, q: Query, tvs: seq<TagsValue>) returns (results: seq<TagsValue>)
    ensures results == AllMatching(rx, q, tvs)
  {
    if q.True? { return tvs; }
    results := [];
    for i := 0 to |tvs|
      invariant results == AllMatching(rx, q, tvs[..i])
    {
      assert tvs[..i + 1][..i] == tvs[..i];
      if tvs[i].value.Val? && MatchesValue(rx, q, tvs[i]) {
        results := results + [tvs[i]];
      }
    }
    assert tvs[..|tvs|] == tvs;
  }

  method ApplyExpr(rx: Regex, e: Expr, tvs: seq<TagsValue>) returns (results: seq<TagsValue>)
    ensures Yields(rx, e, tvs, results)
  {
    match e
    case Value(v) => results := ApplyToGroup(rx, v, map[], tvs, true);
    case Multiple(All(q)) => results := ApplyAll(rx, q, tvs);
    case Multiple(m) => results := ApplyToGroups(rx, KeysOf(m), m.expr, tvs, m.GroupBy?);
    case _ => results := [];
  }

  /** None when an exception escapes the program. */
  method Eval(stod: Stod, rx: Regex, expression: string, tvs: seq<TagsValue>) returns (results: Option<seq<TagsValue>>)
    ensures var m := RunTokens(stod, Machine([], 0, Running), Tokens(expression));
      if tvs == [] then results == Some([])
      else if m.status == Thrown then results == None
      else results.Some? && YieldsAll(rx, m.stack, tvs, results.value)
  {
    if tvs == [] { return Some([]); }
    var context := new Context();
    var tokens := Split(expression);
    var status := DoProgram(context, stod, tokens);
    if status == Thrown { return None; }
    var all := EvalStack(context, rx, tvs);
    results := Some(all);
  }

  method EvalStack(context: Context, rx: Regex, tvs: seq<TagsValue>) returns (all: seq<TagsValue>)
    modifies context
    ensures YieldsAll(rx, old(context.stack), tvs, all) && context.stack == []
  {
    all := [];
    ghost var start := context.stack;
    assert forall rest: seq<TagsValue> :: all + rest == rest;
    while context.stack != []
      invariant context.stack <= start
      invariant forall rest :: YieldsAll(rx, context.stack, tvs, rest) ==> YieldsAll(rx, start, tvs, all + rest)
      decreases |context.stack|
    {
      ghost var before := context.stack;
      var e := context.PopExpression();
      var one := ApplyExpr(rx, e.value, tvs);
      forall rest | YieldsAll(rx, context.stack, tvs, rest) ensures YieldsAll(rx, start, tvs, all + one + rest) {
        YieldsPush(rx, before, tvs, one, rest);
        assert all + (one + rest) == all + one + rest;
      }
      all := all + one;
    }
    assert all + [] == all;
  }

  lemma YieldsPush(rx: Regex, st: Stack, tvs: seq<TagsValue>, one: seq<TagsValue>, rest: seq<TagsValue>)
    requires st != [] && Yields(rx, st[|st| - 1], tvs, one) && YieldsAll(rx, st[..|st| - 1], tvs, rest)
    ensures YieldsAll(rx, st, tvs, one + rest)
  {
    assert (one + rest)[..|one|] == one && (one + rest)[|one|..] == rest;
  }

  lemma {:induction false} YieldsOne(rx: Regex, e: Expr, tvs: seq<TagsValue>, results: seq<TagsValue>)
    requires YieldsAll(rx, [e], tvs, results)
    ensures Yields(rx, e, tvs, results)
  {
    assert [e][..0] == [];
    var k :| 0 <= k <= |results| && Yields(rx, e, tvs, results[..k]) && YieldsAll(rx, [e][..0], tvs, results[k..]);
    assert results[..k] == results;
  }

  /** Of two expressions on the stack the upper one's results come first. */
  lemma {:induction false} YieldsTwo(
    rx: Regex, lower: Expr, upper: Expr, tvs: seq<TagsValue>, results: seq<TagsValue>)
    returns (first: seq<TagsValue>, second: seq<TagsValue>)
    requires YieldsAll(rx, [lower, upper], tvs, results)
    ensures results == first + second && Yields(rx, upper, tvs, first) && Yields(rx, lower, tvs, second)
  {
    var k := FirstYield(rx, [lower, upper], tvs, results);
    first, second := results[..k], results[k..];
    assert [lower, upper][..1] == [lower];
    YieldsOne(rx, lower, tvs, second);
  }

  lemma {:induction false} FirstYield(rx: Regex, st: Stack, tvs: seq<TagsValue>, results: seq<TagsValue>)
    returns (k: nat)
    requires st != [] && YieldsAll(rx, st, tvs, results)
    ensures k <= |results| && Yields(rx, st[|st| - 1], tvs, results[..k])
    ensures YieldsAll(rx, st[..|st| - 1], tvs, results[k..])
  {
    k :| 0 <= k <= |results| && Yields(rx, st[|st| - 1], tvs, results[..k])
      && YieldsAll(rx, st[..|st| - 1], tvs, results[k..]);
  }

  /** A constant is the value of every group. */
  lemma {:induction false} ConstantGroups(
    rx: Regex, g: Grouper, c: real, tvs: seq<TagsValue>, order: seq<Tags>, merge: bool)
    ensures var rs := Results(rx, g, Constant(c), tvs, order, merge);
      |rs| == |order| && forall i :: 0 <= i < |rs| ==> rs[i] == Simple(order[i], Val(c))
  {
    if order != [] {
      var n := |order| - 1;
      ConstantGroups(rx, g, c, tvs, order[..n], merge);
      assert order[n] + map[] == order[n];
    }
  }

  // ----- End to end -----

  lemma SimplifiedMatchesValue(rx: Regex, q: Query, tv: TagsValue)
    ensures MatchesValue(rx, Simplified(q), tv) == MatchesValue(rx, q, tv)
  {
    MatchesAgree(rx, Simplified(q), tv);
    MatchesAgree(rx, q, tv);
    SimplifiedMatches(rx, q, AllTags(tv));
  }

  /** A simplified filter selects and aggregates alike. */
  lemma {:induction false} SimplifiedFold(rx: Regex, kind: Aggregate, q: Query, tvs: seq<TagsValue>)
    ensures Fold(rx, kind, Simplified(q), tvs) == Fold(rx, kind, q, tvs)
  {
    if tvs != [] {
      SimplifiedFold(rx, kind, q, tvs[..|tvs| - 1]);
      SimplifiedMatchesValue(rx, q, tvs[|tvs| - 1]);
    }
  }

  lemma SimplifiedAggregate(rx: Regex, kind: Aggregate, q: Query, tvs: seq<TagsValue>)
    ensures AggregateOf(rx, kind, Simplified(q), tvs) == AggregateOf(rx, kind, q, tvs)
  {
    SimplifiedFold(rx, kind, q, tvs); SimplifiedFold(rx, SUM, q, tvs); SimplifiedFold(rx, COUNT, q, tvs);
  }

  /** The keys a grouping word groups by. */
  function KeysFor(w: Grouped, keys: seq<string>): Keys {
    match w
    case ByWord => By(keys)
    case KeepingWord => By(if NAME in keys then keys else keys + [NAME])
    case DroppingWord => Dropping(keys)
  }

  /** The tags a grouping adds to those of each group: for :by, what the simplified filter implies. */
  function ImpliedTags(q: Query, w: Grouped): Tags { if w == ByWord then QueryTags(Simplified(q)) else map[] }

  /** `r` is the result of the group under `tags`: its members' aggregate, under tags true of all that contribute. */
  ghost predicate ResultOf(
    rx: Regex, q: Query, kind: Aggregate, g: Grouper, implied: Tags, tvs: seq<TagsValue>, tags: Tags, r: TagsValue)
  {
    && r == Simple(tags + implied, AggregateOf(rx, kind, q, Group(g, tvs, tags))) && r.value.Val?
    && (forall tv :: tv in Group(g, tvs, tags) && Selected(rx, q, tv) ==> TagsHold(r.tags, tv))
  }

  /** `groups` are, each once, those of `all` that have a value. */
  ghost predicate Valued(
    rx: Regex, q: Query, kind: Aggregate, g: Grouper, tvs: seq<TagsValue>, all: set<Tags>, groups: seq<Tags>)
  {
    && Distinct(groups)
    && (forall t :: t in groups <==> t in all && AggregateOf(rx, kind, q, Group(g, tvs, t)).Val?)
  }

  ghost predicate ResultsOf(
    rx: Regex, q: Query, kind: Aggregate, g: Grouper, implied: Tags, tvs: seq<TagsValue>, groups: seq<Tags>,
    results: seq<TagsValue>)
  {
    && |groups| == |results|
    && (forall i :: 0 <= i < |groups| ==> ResultOf(rx, q, kind, g, implied, tvs, groups[i], results[i]))
  }

  /** One result for each group that has a value, in some order of the groups. */
  ghost predicate OnePerGroup(
    rx: Regex, q: Query, kind: Aggregate, g: Grouper, implied: Tags, tvs: seq<TagsValue>, results: seq<TagsValue>)
  {
    exists groups: seq<Tags> ::
      && ResultsOf(rx, q, kind, g, implied, tvs, groups, results)
      && Valued(rx, q, kind, g, tvs, GroupTags(g, tvs), groups)
  }

  /**
   * What the results of a grouping promise: one for each group that has a value; re-aggregated, they give what the
   * aggregation gives for all the grouped measurements together, which for :drop-tags are all that have a name; and no
   * two carry the same tags.
   */
  ghost predicate Conserving(
    rx: Regex, q: Query, kind: Aggregate, keys: seq<string>, w: Grouped, tvs: seq<TagsValue>, results: seq<TagsValue>)
  {
    && OnePerGroup(rx, q, kind, KeysFor(w, keys).Grouping(), ImpliedTags(q, w), tvs, results)
    && (kind != AVG ==>
          FoldValues(kind, results) == AggregateOf(rx, kind, q, Retained(KeysFor(w, keys).Grouping(), tvs)))
    && (kind != AVG && w == DroppingWord && (forall tv :: tv in tvs ==> GetValue(tv, NAME).Some?) ==>
          FoldValues(kind, results) == AggregateOf(rx, kind, q, tvs))
    && (forall i, j :: 0 <= i < j < |results| ==> AllTags(results[i]) != AllTags(results[j]))
  }

  /** The text of a tree followed by `:all` yields the measurements that the tree itself selects. */
  method EvalAll(stod: Stod, rx: Regex, q: Query, tvs: seq<TagsValue>) returns (results: Option<seq<TagsValue>>)
    requires Legal(q) && CleanTree(q)
    ensures results == Some(if Simplified(q).True? then tvs else Chosen(rx, q, tvs))
  {
    var e := Multiple(All(Simplified(q)));
    CompileIsClean(q);
    AllCorrect(stod, [], q);
    ProgramOf(stod, Compile(q) + [":all"], e);
    results := Eval(stod, rx, Join(Compile(q) + [":all"]), tvs);
    SimplifiedChosen(rx, q, tvs);
    if tvs != [] { YieldsOne(rx, e, tvs, results.value); }
  }

  /** The text of an ungrouped aggregation yields its one value under the tags of its filter, or nothing. */
  method EvalAggregate(stod: Stod, rx: Regex, q: Query, kind: Aggregate, tvs: seq<TagsValue>)
    returns (results: Option<seq<TagsValue>>)
    requires Legal(q) && CleanTree(q)
    ensures var total := AggregateOf(rx, kind, q, tvs);
      results == Some(if total.NaN? then [] else [Simple(QueryTags(Simplified(q)), total)])
  {
    AggregateLeaves(stod, q, kind);
    results := Eval(stod, rx, Join(Compile(q) + [AggregateToken(kind)]), tvs);
    if tvs != [] { AggregateYields(rx, q, kind, tvs, results.value); }
  }

  lemma {:induction false} AggregateLeaves(stod: Stod, q: Query, kind: Aggregate)
    requires Legal(q) && CleanTree(q)
    ensures RunTokens(stod, Machine([], 0, Running), Tokens(Join(Compile(q) + [AggregateToken(kind)]))) ==
      Ready([Value(Aggregated(kind, Simplified(q)))])
  {
    CompileIsClean(q);
    RunData(stod, [], q, kind);
    ProgramOf(stod, Compile(q) + [AggregateToken(kind)], Value(Aggregated(kind, Simplified(q))));
  }

  lemma {:induction false} AggregateYields(
    rx: Regex, q: Query, kind: Aggregate, tvs: seq<TagsValue>, results: seq<TagsValue>)
    requires YieldsAll(rx, [Value(Aggregated(kind, Simplified(q)))], tvs, results)
    ensures var total := AggregateOf(rx, kind, q, tvs);
      results == if total.NaN? then [] else [Simple(QueryTags(Simplified(q)), total)]
  {
    SimplifiedAggregate(rx, kind, q, tvs);
    YieldsOne(rx, Value(Aggregated(kind, Simplified(q))), tvs, results);
    assert map[] + QueryTags(Simplified(q)) == QueryTags(Simplified(q));
  }

  lemma {:induction false} SimplifiedChosen(rx: Regex, q: Query, tvs: seq<TagsValue>)
    ensures Chosen(rx, Simplified(q), tvs) == Chosen(rx, q, tvs)
  {
    if tvs != [] {
      SimplifiedChosen(rx, q, tvs[..|tvs| - 1]);
      SimplifiedMatchesValue(rx, q, tvs[|tvs| - 1]);
    }
  }

  /** From text to numbers: evaluating the text of a grouping expression never fails, and conserves. */
  method EvalGrouped(
    stod: Stod, rx: Regex, q: Query, kind: Aggregate, keys: seq<string>, w: Grouped, tvs: seq<TagsValue>)
    returns (results: Option<seq<TagsValue>>)
    requires Legal(q) && CleanTree(q)
    requires Balanced(keys) && forall k :: k in keys ==> CleanToken(k)
    ensures results.Some? && Conserving(rx, q, kind, keys, w, tvs, results.value)
  {
    var program := Join(CompileGrouped(q, kind, keys, w));
    ProgramLeaves(stod, q, kind, keys, w);
    results := Eval(stod, rx, program, tvs);
    if tvs == [] {
      NothingResults(rx, q, kind, keys, w);
    } else {
      YieldsOne(rx, Multiple(GroupedExpr(w, keys, Aggregated(kind, Simplified(q)))), tvs, results.value);
      GroupedResults(rx, q, kind, keys, w, tvs, results.value);
    }
  }

  lemma NothingResults(rx: Regex, q: Query, kind: Aggregate, keys: seq<string>, w: Grouped)
    ensures Conserving(rx, q, kind, keys, w, [], [])
  {
    NothingYields(rx, GroupedExpr(w, keys, Aggregated(kind, Simplified(q))));
    GroupedResults(rx, q, kind, keys, w, [], []);
  }

  lemma NothingYields(rx: Regex, m: MultipleResults)
    requires !m.All?
    ensures Yields(rx, Multiple(m), [], [])
  {
    assert OrderOf([], GroupTags(KeysOf(m).Grouping(), []));
  }

  /** The results over `order`, group by group, in terms of the unsimplified query. */
  lemma {:induction false} ResultsInOrder(
    rx: Regex, q: Query, kind: Aggregate, k: Keys, merge: bool, tvs: seq<TagsValue>, order: seq<Tags>)
    returns (groups: seq<Tags>)
    requires Distinct(order)
    ensures Valued(rx, q, kind, k.Grouping(), tvs, Elements(order), groups)
    ensures ResultsOf(rx, q, kind, k.Grouping(), if merge then QueryTags(Simplified(q)) else map[], tvs, groups,
                      Results(rx, k.Grouping(), Aggregated(kind, Simplified(q)), tvs, order, merge))
  {
    groups := [];
    if order != [] {
      var n := |order| - 1;
      var before := ResultsInOrder(rx, q, kind, k, merge, tvs, order[..n]);
      assert order == order[..n] + [order[n]];
      groups := OneMoreGroup(rx, q, kind, k, merge, tvs, order[..n], order[n], before);
    }
  }

  lemma OneMoreGroup(
    rx: Regex, q: Query, kind: Aggregate, k: Keys, merge: bool, tvs: seq<TagsValue>, order: seq<Tags>, tags: Tags,
    before: seq<Tags>)
    returns (groups: seq<Tags>)
    requires tags !in order && Valued(rx, q, kind, k.Grouping(), tvs, Elements(order), before)
    requires ResultsOf(rx, q, kind, k.Grouping(), if merge then QueryTags(Simplified(q)) else map[], tvs, before,
                       Results(rx, k.Grouping(), Aggregated(kind, Simplified(q)), tvs, order, merge))
    ensures Valued(rx, q, kind, k.Grouping(), tvs, Elements(order + [tags]), groups)
    ensures ResultsOf(rx, q, kind, k.Grouping(), if merge then QueryTags(Simplified(q)) else map[], tvs, groups,
                      Results(rx, k.Grouping(), Aggregated(kind, Simplified(q)), tvs, order + [tags], merge))
  {
    var g, v := k.Grouping(), Aggregated(kind, Simplified(q));
    var implied := if merge then QueryTags(Simplified(q)) else map[];
    var rs := Results(rx, g, v, tvs, order, merge);
    ResultsSnoc(rx, g, v, tvs, order, tags, merge);
    groups := ValuedSnoc(rx, q, kind, g, tvs, order, tags, before);
    var one := LastResult(rx, q, kind, k, merge, tvs, tags);
    if one == [] {
      assert rs + one == rs;
    } else {
      assert rs + one == rs + [one[0]];
      ResultsOfSnoc(rx, q, kind, g, implied, tvs, before, rs, tags, one[0]);
    }
  }

  function Elements(order: seq<Tags>): set<Tags> { set t | t in order }

  lemma ValuedSnoc(
    rx: Regex, q: Query, kind: Aggregate, g: Grouper, tvs: seq<TagsValue>, order: seq<Tags>, tags: Tags,
    groups: seq<Tags>)
    returns (r: seq<Tags>)
    requires Valued(rx, q, kind, g, tvs, Elements(order), groups) && tags !in order
    ensures Valued(rx, q, kind, g, tvs, Elements(order + [tags]), r)
    ensures r == if AggregateOf(rx, kind, q, Group(g, tvs, tags)).Val? then groups + [tags] else groups
  {
    r := if AggregateOf(rx, kind, q, Group(g, tvs, tags)).Val? then groups + [tags] else groups;
    assert Elements(order + [tags]) == Elements(order) + {tags};
  }

  lemma ResultsOfSnoc(
    rx: Regex, q: Query, kind: Aggregate, g: Grouper, implied: Tags, tvs: seq<TagsValue>, groups: seq<Tags>,
    results: seq<TagsValue>, tags: Tags, r: TagsValue)
    requires ResultsOf(rx, q, kind, g, implied, tvs, groups, results)
    requires ResultOf(rx, q, kind, g, implied, tvs, tags, r)
    ensures ResultsOf(rx, q, kind, g, implied, tvs, groups + [tags], results + [r])
  {
  }

  /** What a group adds to the results. */
  lemma LastResult(rx: Regex, q: Query, kind: Aggregate, k: Keys, merge: bool, tvs: seq<TagsValue>, tags: Tags)
    returns (one: seq<TagsValue>)
    ensures one == Result(Evaluated(rx, Aggregated(kind, Simplified(q)), Group(k.Grouping(), tvs, tags)), tags, merge)
    ensures var implied := if merge then QueryTags(Simplified(q)) else map[];
      if AggregateOf(rx, kind, q, Group(k.Grouping(), tvs, tags)).Val?
      then |one| == 1 && ResultOf(rx, q, kind, k.Grouping(), implied, tvs, tags, one[0])
      else one == []
  {
    var group := Group(k.Grouping(), tvs, tags);
    SimplifiedAggregate(rx, kind, q, group);
    one := Result(Evaluated(rx, Aggregated(kind, Simplified(q)), group), tags, merge);
    if AggregateOf(rx, kind, q, group).Val? {
      TaggedResult(rx, q, kind, k, merge, tvs, tags);
    }
  }

  lemma TaggedResult(rx: Regex, q: Query, kind: Aggregate, k: Keys, merge: bool, tvs: seq<TagsValue>, tags: Tags)
    requires AggregateOf(rx, kind, q, Group(k.Grouping(), tvs, tags)).Val?
    ensures var implied := if merge then QueryTags(Simplified(q)) else map[];
      var r := Simple(if merge then tags + implied else tags, AggregateOf(rx, kind, q, Group(k.Grouping(), tvs, tags)));
      ResultOf(rx, q, kind, k.Grouping(), implied, tvs, tags, r)
  {
    assert tags + map[] == tags;
    forall tv | tv in Group(k.Grouping(), tvs, tags) && Selected(rx, q, tv)
      ensures TagsHold(tags, tv) && TagsHold(tags + QueryTags(Simplified(q)), tv)
    {
      GroupTagsHold(k, tvs, tags, tv);
      SimplifiedMatchesValue(rx, q, tv);
      FilterTagsHold(rx, Simplified(q), tags, tv);
    }
  }

  lemma ResultsPerGroup(
    rx: Regex, q: Query, kind: Aggregate, k: Keys, merge: bool, tvs: seq<TagsValue>, order: seq<Tags>)
    requires OrderOf(order, GroupTags(k.Grouping(), tvs))
    ensures OnePerGroup(rx, q, kind, k.Grouping(), if merge then QueryTags(Simplified(q)) else map[], tvs,
                        Results(rx, k.Grouping(), Aggregated(kind, Simplified(q)), tvs, order, merge))
  {
    var groups := ResultsInOrder(rx, q, kind, k, merge, tvs, order);
    assert Elements(order) == GroupTags(k.Grouping(), tvs);
  }

  lemma GroupedResults(
    rx: Regex, q: Query, kind: Aggregate, keys: seq<string>, w: Grouped, tvs: seq<TagsValue>, results: seq<TagsValue>)
    requires Yields(rx, Multiple(GroupedExpr(w, keys, Aggregated(kind, Simplified(q)))), tvs, results)
    ensures Conserving(rx, q, kind, keys, w, tvs, results)
  {
    var order := YieldedOrder(rx, Aggregated(kind, Simplified(q)), keys, w, tvs, results);
    ResultsPerGroup(rx, q, kind, KeysFor(w, keys), w.ByWord?, tvs, order);
    GroupedTagsDistinct(rx, kind, Simplified(q), keys, w, tvs, order);
    GroupedTotals(rx, q, kind, keys, w, tvs, order);
  }

  lemma YieldedOrder(
    rx: Regex, v: ValueExpr, keys: seq<string>, w: Grouped, tvs: seq<TagsValue>, results: seq<TagsValue>)
    returns (order: seq<Tags>)
    requires Yields(rx, Multiple(GroupedExpr(w, keys, v)), tvs, results)
    ensures var g := KeysFor(w, keys).Grouping();
      OrderOf(order, GroupTags(g, tvs)) && results == Results(rx, g, v, tvs, order, w.ByWord?)
  {
    var g := KeysFor(w, keys).Grouping();
    assert KeysOf(GroupedExpr(w, keys, v)) == KeysFor(w, keys);
    order :| OrderOf(order, GroupTags(g, tvs)) && results == Results(rx, g, v, tvs, order, w.ByWord?);
  }

  lemma GroupedTotals(
    rx: Regex, q: Query, kind: Aggregate, keys: seq<string>, w: Grouped, tvs: seq<TagsValue>, order: seq<Tags>)
    requires OrderOf(order, GroupTags(KeysFor(w, keys).Grouping(), tvs))
    ensures var g := KeysFor(w, keys).Grouping();
      var total := FoldValues(kind, Results(rx, g, Aggregated(kind, Simplified(q)), tvs, order, w.ByWord?));
      kind != AVG ==>
        && total == AggregateOf(rx, kind, q, Retained(g, tvs))
        && (w == DroppingWord && (forall tv :: tv in tvs ==> GetValue(tv, NAME).Some?) ==>
              total == AggregateOf(rx, kind, q, tvs))
  {
    var g := KeysFor(w, keys).Grouping();
    if kind != AVG {
      GroupingConserves(rx, kind, Simplified(q), g, tvs, order, w.ByWord?);
      SimplifiedFold(rx, kind, q, Retained(g, tvs));
      if w == DroppingWord && forall tv :: tv in tvs ==> GetValue(tv, NAME).Some? {
        DropRetainsAll(keys, tvs);
      }
    }
  }

  lemma GroupedTagsDistinct(
    rx: Regex, kind: Aggregate, filter: Query, keys: seq<string>, w: Grouped, tvs: seq<TagsValue>, order: seq<Tags>)
    requires Distinct(order)
    ensures var rs := Results(rx, KeysFor(w, keys).Grouping(), Aggregated(kind, filter), tvs, order, w.ByWord?);
      forall i, j :: 0 <= i < j < |rs| ==> AllTags(rs[i]) != AllTags(rs[j])
  {
    var g := KeysFor(w, keys).Grouping();
    var rs := Results(rx, g, Aggregated(kind, filter), tvs, order, w.ByWord?);
    forall i, j | 0 <= i < j < |rs| ensures AllTags(rs[i]) != AllTags(rs[j]) {
      if w == ByWord {
        GroupByTagsDistinct(rx, keys, kind, filter, tvs, order, i, j);
      } else {
        KeepDropTagsDistinct(rx, g, kind, filter, tvs, order, i, j);
      }
    }
  }

  /** :drop-tags loses no measurement that comes from an id, so its results add up to the whole. */
  lemma DropRetainsAll(dropped: seq<string>, tvs: seq<TagsValue>)
    requires forall tv :: tv in tvs ==> GetValue(tv, NAME).Some?
    ensures Retained(ByDropping(dropped), tvs) == tvs
  {
    forall tv | tv in tvs ensures ByDropping(dropped)(tv).Some? { DropRetainsNamed(dropped, tv); }
    RetainedAll(ByDropping(dropped), tvs);
  }

  lemma {:induction false} RetainedAll(g: Grouper, tvs: seq<TagsValue>)
    requires forall tv :: tv in tvs ==> g(tv).Some?
    ensures Retained(g, tvs) == tvs
  {
    if tvs != [] {
      var n := |tvs| - 1;
      assert tvs == tvs[..n] + [tvs[n]];
      RetainedAll(g, tvs[..n]);
      RetainedSnoc(g, tvs[..n], tvs[n]);
    }
  }
}
