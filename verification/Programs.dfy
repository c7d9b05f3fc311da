/** The postfix form of a query tree, and what the interpreter makes of it. */
module Programs {
  import opened Collections
  import opened Queries
  import opened Tokenizer
  import opened Interpreter

  function RelopToken(op: RelOp): string {
    match op
    case EQ => ":eq"
    case GT => ":gt"
    case GE => ":ge"
    case LT => ":lt"
    case LE => ":le"
  }

  /** Operands first, then the word; the values of :in in parentheses. */
  function Compile(q: Query): seq<string> {
    match q
    case HasKey(k) => [k, ":has"]
    case Relop(k, v, op) => [k, v, RelopToken(op)]
    case RegexQuery(k, p, ic) => [k, p, if ic then ":reic" else ":re"]
    case In(k, vs) => [k, "("] + vs + [")", ":in"]
    case True => [":true"]
    case False => [":false"]
    case Not(x) => Compile(x) + [":not"]
    case Or(a, b) => Compile(a) + Compile(b) + [":or"]
    case And(a, b) => Compile(a) + Compile(b) + [":and"]
  }

  predicate NoParenthesis(s: string) { s != "(" && s != ")" }

  /** A token that stands for itself outside lists. */
  predicate Plain(s: string) { NoParenthesis(s) && !IsWord(s) }

  /** Opening parentheses less closing ones. */
  function Depth(ts: seq<string>): int {
    if ts == [] then 0
    else
      var last := ts[|ts| - 1];
      Depth(ts[..|ts| - 1]) + (if last == "(" then 1 else if last == ")" then -1 else 0)
  }

  /** No prefix closes more than it opens. */
  predicate NeverNegative(ts: seq<string>) {
    ts == [] || (NeverNegative(ts[..|ts| - 1]) && Depth(ts) >= 0)
  }

  /** What may stand in a list: parentheses may nest. */
  predicate Balanced(ts: seq<string>) { NeverNegative(ts) && Depth(ts) == 0 }

  predicate Legal(q: Query) {
    match q
    case HasKey(k) => Plain(k)
    case Relop(k, v, _) => Plain(k) && Plain(v)
    case RegexQuery(k, p, _) => Plain(k) && Plain(p)
    case In(k, vs) => Plain(k) && Balanced(vs)
    case True => true
    case False => true
    case Not(x) => Legal(x)
    case Or(a, b) => Legal(a) && Legal(b)
    case And(a, b) => Legal(a) && Legal(b)
  }

  /** The tree with each connective applied by its smart constructor. */
  function Simplified(q: Query): Query {
    match q
    case Not(x) => NotQ(Simplified(x))
    case Or(a, b) => OrQ(Simplified(a), Simplified(b))
    case And(a, b) => AndQ(Simplified(a), Simplified(b))
    case _ => q
  }

  lemma {:induction false} SimplifiedMatches(rx: Regex, q: Query, tags: Tags)
    ensures Matches(rx, Simplified(q), tags) == Matches(rx, q, tags)
  {
    match q
    case Not(x) =>
      SimplifiedMatches(rx, x, tags);
      SmartConstructors(rx, Simplified(x), Simplified(x), tags);
    case Or(a, b) =>
      SimplifiedMatches(rx, a, tags); SimplifiedMatches(rx, b, tags);
      SmartConstructors(rx, Simplified(a), Simplified(b), tags);
    case And(a, b) =>
      SimplifiedMatches(rx, a, tags); SimplifiedMatches(rx, b, tags);
      SmartConstructors(rx, Simplified(a), Simplified(b), tags);
    case _ =>
  }

  /** Outside lists, ready for the next token. */
  function Ready(st: Stack): Machine { Machine(st, 0, Running) }

  lemma RunSnoc(stod: Stod, m: Machine, tokens: seq<string>, t: string)
    ensures RunTokens(stod, m, tokens + [t]) == StepToken(stod, RunTokens(stod, m, tokens), t)
  {
    assert (tokens + [t])[..|tokens|] == tokens;
  }

  lemma RunOne(stod: Stod, m: Machine, t: string)
    ensures RunTokens(stod, m, [t]) == StepToken(stod, m, t)
  {
    RunSnoc(stod, m, [], t);
    assert [] + [t] == [t];
  }

  lemma RunTwo(stod: Stod, m: Machine, s: string, t: string)
    ensures RunTokens(stod, m, [s, t]) == StepToken(stod, StepToken(stod, m, s), t)
  {
    RunOne(stod, m, s);
    RunSnoc(stod, m, [s], t);
    assert [s] + [t] == [s, t];
  }

  lemma RunThree(stod: Stod, m: Machine, s: string, t: string, u: string)
    ensures RunTokens(stod, m, [s, t, u]) == StepToken(stod, StepToken(stod, StepToken(stod, m, s), t), u)
  {
    RunTwo(stod, m, s, t);
    RunSnoc(stod, m, [s, t], u);
    assert [s, t] + [u] == [s, t, u];
  }

  /** Inside a list, tokens are collected as they are, parentheses included as long as the list stays open. */
  lemma {:induction false} RunItems(stod: Stod, st: Stack, items: seq<string>, vs: seq<string>)
    requires NeverNegative(vs)
    ensures RunTokens(stod, Machine(st + [List(items)], 1, Running), vs) ==
      Machine(st + [List(items + vs)], 1 + Depth(vs), Running)
    decreases |vs|
  {
    if vs == [] {
      assert items + vs == items;
    } else {
      var n := |vs| - 1;
      RunItems(stod, st, items, vs[..n]);
      assert NeverNegative(vs[..n]) && Depth(vs) >= 0;
      PrefixDepth(vs[..n]);
      assert items + vs == items + vs[..n] + [vs[n]];
      assert (st + [List(items + vs[..n])])[|st| := List(items + vs)] == st + [List(items + vs)];
    }
  }

  lemma PrefixDepth(vs: seq<string>)
    requires NeverNegative(vs)
    ensures Depth(vs) >= 0
  {
  }

  /** "(", the values, ")" leave one list, inner parentheses being values like any other. */
  lemma RunList(stod: Stod, st: Stack, vs: seq<string>)
    requires Balanced(vs)
    ensures RunTokens(stod, Ready(st), ["("] + vs + [")"]) == Ready(st + [List(vs)])
  {
    RunOne(stod, Ready(st), "(");
    RunConcat(stod, Ready(st), ["("], vs);
    RunItems(stod, st, [], vs);
    assert [] + vs == vs;
    RunSnoc(stod, Ready(st), ["("] + vs, ")");
  }

  /** A parenthesis that closes nothing stops the program, with the stack as it is. */
  lemma StrayParenthesis(stod: Stod, st: Stack, rest: seq<string>)
    ensures RunTokens(stod, Ready(st), [")"] + rest) == Machine(st, -1, Unbalanced)
  {
    var all := [")"] + rest;
    RunOne(stod, Ready(st), ")");
    assert all[..1] == [")"];
    RunStops(stod, Ready(st), all, 1);
  }

  lemma {:induction false} NoneNested(ts: seq<string>)
    requires forall t :: t in ts ==> NoParenthesis(t)
    ensures Balanced(ts)
  {
    if ts != [] {
      NoneNested(ts[..|ts| - 1]);
      assert ts[|ts| - 1] in ts;
    }
  }

  lemma RunIn(stod: Stod, st: Stack, k: string, vs: seq<string>)
    requires Legal(In(k, vs))
    ensures RunTokens(stod, Ready(st), Compile(In(k, vs))) == Ready(st + [QueryExpr(In(k, vs))])
  {
    var list := ["("] + vs + [")"];
    RunKeyList(stod, st, k, vs);
    RunSnoc(stod, Ready(st), [k] + list, ":in");
    assert [k, "("] + vs + [")", ":in"] == [k] + list + [":in"];
    InOnTop(stod, st, k, vs);
  }

  lemma RunKeyList(stod: Stod, st: Stack, k: string, vs: seq<string>)
    requires Legal(In(k, vs))
    ensures RunTokens(stod, Ready(st), [k] + (["("] + vs + [")"])) == Ready(st + [Literal(k)] + [List(vs)])
  {
    RunOne(stod, Ready(st), k);
    RunConcat(stod, Ready(st), [k], ["("] + vs + [")"]);
    RunList(stod, st + [Literal(k)], vs);
  }

  lemma InOnTop(stod: Stod, st: Stack, k: string, vs: seq<string>)
    ensures StepToken(stod, Ready(st + [Literal(k)] + [List(vs)]), ":in") == Ready(st + [QueryExpr(In(k, vs))])
  {
    var full := st + [Literal(k)] + [List(vs)];
    assert full[..|full| - 1] == st + [Literal(k)];
    assert (st + [Literal(k)])[..|st|] == st;
    assert ":in"[1..] == "in";
  }

  lemma RunKeyValue(stod: Stod, st: Stack, k: string, v: string)
    requires Plain(k) && Plain(v)
    ensures var m := StepToken(stod, StepToken(stod, Ready(st), k), v);
      m == Ready(st + [Literal(k)] + [Literal(v)]) && PopTwo(m.stack) == (Some((k, v)), st)
  {
    var full := st + [Literal(k)] + [Literal(v)];
    assert full[..|full| - 1] == st + [Literal(k)];
    assert (st + [Literal(k)])[..|st|] == st;
  }

  lemma RunRelop(stod: Stod, st: Stack, k: string, v: string, op: RelOp)
    requires Plain(k) && Plain(v)
    ensures RunTokens(stod, Ready(st), [k, v, RelopToken(op)]) == Ready(st + [QueryExpr(Relop(k, v, op))])
  {
    RunThree(stod, Ready(st), k, v, RelopToken(op));
    RunKeyValue(stod, st, k, v);
    RelopInVocabulary(op);
  }

  lemma RelopInVocabulary(op: RelOp)
    ensures var t := RelopToken(op);
      && NoParenthesis(t) && IsWord(t) && t[1..] in VOCABULARY && VOCABULARY[t[1..]] == RelopWord(op)
  {
    match op
    case EQ => assert ":eq"[1..] == "eq";
    case GT => assert ":gt"[1..] == "gt";
    case GE => assert ":ge"[1..] == "ge";
    case LT => assert ":lt"[1..] == "lt";
    case LE => assert ":le"[1..] == "le";
  }

  lemma RunRegex(stod: Stod, st: Stack, k: string, p: string, ic: bool)
    requires Plain(k) && Plain(p)
    ensures RunTokens(stod, Ready(st), Compile(RegexQuery(k, p, ic))) == Ready(st + [QueryExpr(RegexQuery(k, p, ic))])
  {
    var word := if ic then ":reic" else ":re";
    RunThree(stod, Ready(st), k, p, word);
    RunKeyValue(stod, st, k, p);
    assert ":reic"[1..] == "reic" && ":re"[1..] == "re";
    assert VOCABULARY[word[1..]] == RegexWord(ic);
  }

  lemma RunHas(stod: Stod, st: Stack, k: string)
    requires Plain(k)
    ensures RunTokens(stod, Ready(st), [k, ":has"]) == Ready(st + [QueryExpr(HasKey(k))])
  {
    RunTwo(stod, Ready(st), k, ":has");
    assert (st + [Literal(k)])[..|st|] == st;
    assert ":has"[1..] == "has";
  }

  lemma RunConnectives(stod: Stod, st: Stack, a: Query, b: Query)
    ensures StepToken(stod, Ready(st + [QueryExpr(a)]), ":not") == Ready(st + [QueryExpr(NotQ(a))])
    ensures StepToken(stod, Ready(st + [QueryExpr(a)] + [QueryExpr(b)]), ":and") == Ready(st + [QueryExpr(AndQ(a, b))])
    ensures StepToken(stod, Ready(st + [QueryExpr(a)] + [QueryExpr(b)]), ":or") == Ready(st + [QueryExpr(OrQ(a, b))])
  {
    var two := st + [QueryExpr(a)] + [QueryExpr(b)];
    assert (st + [QueryExpr(a)])[..|st|] == st && two[..|two| - 2] == st;
    assert ":not"[1..] == "not" && ":and"[1..] == "and" && ":or"[1..] == "or";
  }

  lemma RunConstants(stod: Stod, st: Stack)
    ensures StepToken(stod, Ready(st), ":true") == Ready(st + [QueryExpr(True)])
    ensures StepToken(stod, Ready(st), ":false") == Ready(st + [QueryExpr(False)])
  {
    assert ":true"[1..] == "true" && ":false"[1..] == "false";
  }

  /** On any stack, the postfix form of a tree leaves that stack plus the tree, simplified. */
  lemma {:induction false} CompileCorrect(stod: Stod, st: Stack, q: Query)
    requires Legal(q)
    ensures RunTokens(stod, Ready(st), Compile(q)) == Ready(st + [QueryExpr(Simplified(q))])
    decreases q
  {
    match q
    case HasKey(k) => RunHas(stod, st, k);
    case Relop(k, v, op) => RunRelop(stod, st, k, v, op);
    case RegexQuery(k, p, ic) => RunRegex(stod, st, k, p, ic);
    case In(k, vs) => RunIn(stod, st, k, vs);
    case True => RunOne(stod, Ready(st), ":true"); RunConstants(stod, st);
    case False => RunOne(stod, Ready(st), ":false"); RunConstants(stod, st);
    case Not(x) =>
      CompileCorrect(stod, st, x);
      RunSnoc(stod, Ready(st), Compile(x), ":not");
      RunConnectives(stod, st, Simplified(x), Simplified(x));
    case Or(a, b) =>
      CompileCorrect(stod, st, a);
      CompileCorrect(stod, st + [QueryExpr(Simplified(a))], b);
      RunConcat(stod, Ready(st), Compile(a), Compile(b));
      RunSnoc(stod, Ready(st), Compile(a) + Compile(b), ":or");
      RunConnectives(stod, st, Simplified(a), Simplified(b));
    case And(a, b) =>
      CompileCorrect(stod, st, a);
      CompileCorrect(stod, st + [QueryExpr(Simplified(a))], b);
      RunConcat(stod, Ready(st), Compile(a), Compile(b));
      RunSnoc(stod, Ready(st), Compile(a) + Compile(b), ":and");
      RunConnectives(stod, st, Simplified(a), Simplified(b));
  }

  // ----- Programs as text -----

  /** Every operand survives being written between commas. */
  predicate CleanTree(q: Query) {
    match q
    case HasKey(k) => CleanToken(k)
    case Relop(k, v, _) => CleanToken(k) && CleanToken(v)
    case RegexQuery(k, p, _) => CleanToken(k) && CleanToken(p)
    case In(k, vs) => CleanToken(k) && forall v | v in vs :: CleanToken(v)
    case True => true
    case False => true
    case Not(x) => CleanTree(x)
    case Or(a, b) => CleanTree(a) && CleanTree(b)
    case And(a, b) => CleanTree(a) && CleanTree(b)
  }

  lemma {:induction false} CompileIsClean(q: Query)
    requires CleanTree(q)
    ensures forall t :: t in Compile(q) ==> CleanToken(t)
  {
    match q
    case Not(x) => CompileIsClean(x);
    case Or(a, b) => CompileIsClean(a); CompileIsClean(b);
    case And(a, b) => CompileIsClean(a); CompileIsClean(b);
    case _ =>
  }

  /** Reading back the text of a tree gives a query that matches exactly what the tree matches. */
  method ReadBack(stod: Stod, rx: Regex, q: Query, tags: Tags) returns (read: Option<Query>)
    requires Legal(q) && CleanTree(q)
    ensures read == Some(Simplified(q))
    ensures Matches(rx, read.value, tags) == Matches(rx, q, tags)
  {
    CompileIsClean(q);
    SplitUndoesJoin(Compile(q));
    CompileCorrect(stod, [], q);
    read := GetQuery(stod, Join(Compile(q)));
    SimplifiedMatches(rx, q, tags);
  }

  /** The tokens of an aggregation word. */
  function AggregateToken(kind: Aggregate): string {
    match kind
    case COUNT => ":count"
    case SUM => ":sum"
    case MAX => ":max"
    case MIN => ":min"
    case AVG => ":avg"
  }

  /** The words that group a data expression by a list of keys. */
  datatype Grouped = ByWord | KeepingWord | DroppingWord

  function GroupedToken(w: Grouped): string {
    match w
    case ByWord => ":by"
    case KeepingWord => ":keep-tags"
    case DroppingWord => ":drop-tags"
  }

  function GroupedExpr(w: Grouped, keys: seq<string>, v: ValueExpr): MultipleResults {
    match w
    case ByWord => GroupBy(keys, v)
    case KeepingWord => KeepOrDropTags(keys, v, true)
    case DroppingWord => KeepOrDropTags(keys, v, false)
  }

  /** A data expression: a tree, an aggregation, and a grouping of it by keys. */
  function CompileGrouped(q: Query, kind: Aggregate, keys: seq<string>, w: Grouped): seq<string> {
    Compile(q) + [AggregateToken(kind)] + (["("] + keys + [")"]) + [GroupedToken(w)]
  }

  lemma RunAggregate(stod: Stod, st: Stack, q: Query, kind: Aggregate)
    ensures StepToken(stod, Ready(st + [QueryExpr(q)]), AggregateToken(kind)) ==
      Ready(st + [Value(Aggregated(kind, q))])
  {
    assert (st + [QueryExpr(q)])[..|st|] == st;
    assert ":count"[1..] == "count" && ":sum"[1..] == "sum" && ":max"[1..] == "max";
    assert ":min"[1..] == "min" && ":avg"[1..] == "avg";
    assert VOCABULARY[AggregateToken(kind)[1..]] == AggregateWord(kind);
  }

  lemma GroupedInVocabulary(w: Grouped)
    ensures var t := GroupedToken(w);
      && NoParenthesis(t) && IsWord(t) && t[1..] in VOCABULARY
      && VOCABULARY[t[1..]] == if w.ByWord? then GroupByWord else DropKeepTagsWord(w.KeepingWord?)
  {
    assert ":by"[1..] == "by" && ":keep-tags"[1..] == "keep-tags" && ":drop-tags"[1..] == "drop-tags";
  }

  lemma GroupedEffect(stod: Stod, st: Stack, v: ValueExpr, keys: seq<string>, w: Grouped)
    ensures var word := if w.ByWord? then GroupByWord else DropKeepTagsWord(w.KeepingWord?);
      Effect(stod, word, st + [Value(v)] + [List(keys)]) == Outcome(st + [Multiple(GroupedExpr(w, keys, v))], false)
  {
    var two := st + [Value(v)] + [List(keys)];
    assert two[..|two| - 2] == st;
  }

  lemma RunGrouped(stod: Stod, st: Stack, v: ValueExpr, keys: seq<string>, w: Grouped)
    ensures StepToken(stod, Ready(st + [Value(v)] + [List(keys)]), GroupedToken(w)) ==
      Ready(st + [Multiple(GroupedExpr(w, keys, v))])
  {
    GroupedInVocabulary(w);
    GroupedEffect(stod, st, v, keys, w);
  }

  /** A grouping expression leaves one grouping of the simplified tree. */
  lemma GroupedCorrect(stod: Stod, st: Stack, q: Query, kind: Aggregate, keys: seq<string>, w: Grouped)
    requires Legal(q) && Balanced(keys)
    ensures RunTokens(stod, Ready(st), CompileGrouped(q, kind, keys, w)) ==
      Ready(st + [Multiple(GroupedExpr(w, keys, Aggregated(kind, Simplified(q))))])
  {
    var list := ["("] + keys + [")"];
    var v := Aggregated(kind, Simplified(q));
    var data := Compile(q) + [AggregateToken(kind)];
    RunData(stod, st, q, kind);
    RunConcat(stod, Ready(st), data, list);
    RunList(stod, st + [Value(v)], keys);
    RunSnoc(stod, Ready(st), data + list, GroupedToken(w));
    RunGrouped(stod, st, v, keys, w);
  }

  lemma RunData(stod: Stod, st: Stack, q: Query, kind: Aggregate)
    requires Legal(q)
    ensures RunTokens(stod, Ready(st), Compile(q) + [AggregateToken(kind)]) ==
      Ready(st + [Value(Aggregated(kind, Simplified(q)))])
  {
    CompileCorrect(stod, st, q);
    RunSnoc(stod, Ready(st), Compile(q), AggregateToken(kind));
    RunAggregate(stod, st, Simplified(q), kind);
  }

  lemma GroupedIsClean(q: Query, kind: Aggregate, keys: seq<string>, w: Grouped)
    requires CleanTree(q) && forall k :: k in keys ==> CleanToken(k)
    ensures forall t :: t in CompileGrouped(q, kind, keys, w) ==> CleanToken(t)
  {
    CompileIsClean(q);
  }

  // ----- The words as they are spelled -----

  lemma SpelledUpward(stod: Stod, st: Stack, k: string, v: string)
    requires Plain(k) && Plain(v)
    ensures RunTokens(stod, Ready(st), [k, v, ":gt"]) == Ready(st + [QueryExpr(Relop(k, v, GT))])
    ensures RunTokens(stod, Ready(st), [k, v, ":ge"]) == Ready(st + [QueryExpr(Relop(k, v, GE))])
  {
    RunRelop(stod, st, k, v, GT); RunRelop(stod, st, k, v, GE);
  }

  lemma SpelledDownward(stod: Stod, st: Stack, k: string, v: string)
    requires Plain(k) && Plain(v)
    ensures RunTokens(stod, Ready(st), [k, v, ":lt"]) == Ready(st + [QueryExpr(Relop(k, v, LT))])
    ensures RunTokens(stod, Ready(st), [k, v, ":le"]) == Ready(st + [QueryExpr(Relop(k, v, LE))])
  {
    RunRelop(stod, st, k, v, LT); RunRelop(stod, st, k, v, LE);
  }

  lemma SpelledEqual(stod: Stod, st: Stack, k: string, v: string)
    requires Plain(k) && Plain(v)
    ensures RunTokens(stod, Ready(st), [k, v, ":eq"]) == Ready(st + [QueryExpr(Relop(k, v, EQ))])
  {
    RunRelop(stod, st, k, v, EQ);
  }

  lemma SpelledAggregates(stod: Stod, st: Stack, q: Query)
    ensures StepToken(stod, Ready(st + [QueryExpr(q)]), ":sum") == Ready(st + [Value(Aggregated(SUM, q))])
    ensures StepToken(stod, Ready(st + [QueryExpr(q)]), ":count") == Ready(st + [Value(Aggregated(COUNT, q))])
    ensures StepToken(stod, Ready(st + [QueryExpr(q)]), ":min") == Ready(st + [Value(Aggregated(MIN, q))])
    ensures StepToken(stod, Ready(st + [QueryExpr(q)]), ":max") == Ready(st + [Value(Aggregated(MAX, q))])
    ensures StepToken(stod, Ready(st + [QueryExpr(q)]), ":avg") == Ready(st + [Value(Aggregated(AVG, q))])
  {
    RunAggregate(stod, st, q, SUM); RunAggregate(stod, st, q, COUNT); RunAggregate(stod, st, q, AVG);
    RunAggregate(stod, st, q, MIN); RunAggregate(stod, st, q, MAX);
  }

  /** A tree followed by `:all` selects by the simplified tree. */
  lemma AllCorrect(stod: Stod, st: Stack, q: Query)
    requires Legal(q)
    ensures RunTokens(stod, Ready(st), Compile(q) + [":all"]) == Ready(st + [Multiple(All(Simplified(q)))])
  {
    CompileCorrect(stod, st, q);
    RunSnoc(stod, Ready(st), Compile(q), ":all");
    assert (st + [QueryExpr(Simplified(q))])[..|st|] == st;
    assert ":all"[1..] == "all";
  }

  // ----- Grouping something else than an aggregation -----

  /** A list and a grouping word, after something to group. */
  function GroupingTokens(keys: seq<string>, w: Grouped): seq<string> { ["("] + keys + [")"] + [GroupedToken(w)] }

  lemma RunGrouping(stod: Stod, st: Stack, e: Expr, before: seq<string>, keys: seq<string>, w: Grouped)
    requires Balanced(keys) && RunTokens(stod, Ready(st), before) == Ready(st + [e])
    ensures RunTokens(stod, Ready(st), before + GroupingTokens(keys, w)) ==
      StepToken(stod, Ready(st + [e] + [List(keys)]), GroupedToken(w))
  {
    var list := ["("] + keys + [")"];
    RunConcat(stod, Ready(st), before, GroupingTokens(keys, w));
    RunList(stod, st + [e], keys);
    RunSnoc(stod, Ready(st + [e]), list, GroupedToken(w));
  }

  lemma GroupedElse(stod: Stod, st: Stack, e: Expr, keys: seq<string>, w: Grouped)
    requires !e.Value?
    ensures StepToken(stod, Ready(st + [e] + [List(keys)]), GroupedToken(w)) ==
      match e
      case QueryExpr(q) => StepToken(stod, Ready(st + [Value(Aggregated(SUM, q))] + [List(keys)]), GroupedToken(w))
      case Literal(s) =>
        if stod(s).Some? then Ready(st + [Multiple(GroupedExpr(w, keys, Constant(stod(s).value)))])
        else Machine(st, 0, Thrown)
      case _ => Ready(st)
  {
    GroupedInVocabulary(w);
    var two := st + [e] + [List(keys)];
    assert two[..|two| - 2] == st;
    if e.QueryExpr? {
      var other := st + [Value(Aggregated(SUM, e.q))] + [List(keys)];
      assert other[..|other| - 2] == st;
    }
  }

  /** A bare tree is summed: it groups as it would with `:sum` written after it. */
  lemma BareIsSummed(stod: Stod, st: Stack, q: Query, keys: seq<string>, w: Grouped)
    requires Legal(q) && Balanced(keys)
    ensures RunTokens(stod, Ready(st), Compile(q) + GroupingTokens(keys, w)) ==
      RunTokens(stod, Ready(st), Compile(q) + [":sum"] + GroupingTokens(keys, w))
  {
    CompileCorrect(stod, st, q);
    RunGrouping(stod, st, QueryExpr(Simplified(q)), Compile(q), keys, w);
    GroupedElse(stod, st, QueryExpr(Simplified(q)), keys, w);
    RunData(stod, st, q, SUM);
    RunGrouping(stod, st, Value(Aggregated(SUM, Simplified(q))), Compile(q) + [":sum"], keys, w);
  }

  /** A literal is read as a number and grouped as a constant; one that is not a number throws. */
  lemma LiteralIsConstant(stod: Stod, st: Stack, text: string, keys: seq<string>, w: Grouped)
    requires Plain(text) && Balanced(keys)
    ensures RunTokens(stod, Ready(st), [text] + GroupingTokens(keys, w)) ==
      if stod(text).Some? then Ready(st + [Multiple(GroupedExpr(w, keys, Constant(stod(text).value)))])
      else Machine(st, 0, Thrown)
  {
    RunOne(stod, Ready(st), text);
    RunGrouping(stod, st, Literal(text), [text], keys, w);
    GroupedElse(stod, st, Literal(text), keys, w);
  }

  /** Written out as text, clean tokens run as they are. */
  lemma {:induction false} ProgramOf(stod: Stod, tokens: seq<string>, e: Expr)
    requires forall t :: t in tokens ==> CleanToken(t)
    requires RunTokens(stod, Ready([]), tokens) == Ready([] + [e])
    ensures RunTokens(stod, Machine([], 0, Running), Tokens(Join(tokens))) == Ready([e])
  {
    SplitUndoesJoin(tokens);
    assert [] + [e] == [e];
  }

  /** The text of a grouping leaves exactly that grouping on the stack. */
  lemma ProgramLeaves(stod: Stod, q: Query, kind: Aggregate, keys: seq<string>, w: Grouped)
    requires Legal(q) && CleanTree(q)
    requires Balanced(keys) && forall k :: k in keys ==> CleanToken(k)
    ensures RunTokens(stod, Machine([], 0, Running), Tokens(Join(CompileGrouped(q, kind, keys, w)))) ==
      Ready([Multiple(GroupedExpr(w, keys, Aggregated(kind, Simplified(q))))])
  {
    GroupedIsClean(q, kind, keys, w);
    GroupedCorrect(stod, [], q, kind, keys, w);
    ProgramOf(stod, CompileGrouped(q, kind, keys, w), Multiple(GroupedExpr(w, keys, Aggregated(kind, Simplified(q)))));
  }

  /** The query read back from the text of a grouping is that of its tree. */
  method ReadBackGrouped(stod: Stod, q: Query, kind: Aggregate, keys: seq<string>, w: Grouped)
    returns (read: Option<Query>)
    requires Legal(q) && CleanTree(q) && Balanced(keys) && forall k :: k in keys ==> CleanToken(k)
    ensures read == Some(Simplified(q))
  {
    ProgramLeaves(stod, q, kind, keys, w);
    read := GetQuery(stod, Join(CompileGrouped(q, kind, keys, w)));
  }

  // ----- Operands that are not there -----

  /** How many operands a word takes. */
  function Arity(w: Word): nat {
    match w
    case FalseWord => 0
    case TrueWord => 0
    case HasWord => 1
    case NotWord => 1
    case AggregateWord(_) => 1
    case AllWord => 1
    case _ => 2
  }

  /** No word reaches below its operands, and at most one expression is left in their place. */
  lemma WordsTouchOperands(stod: Stod, w: Word, st: Stack)
    requires |st| >= Arity(w)
    ensures var n, after := |st| - Arity(w), Effect(stod, w, st).stack;
      n <= |after| <= n + 1 && after[..n] == st[..n]
  {
  }

  /** When a word throws: too few operands for all but the comparisons, or one that is not a string, or not a number. */
  lemma ThrowsIff(stod: Stod, w: Word, st: Stack)
    ensures var n := |st|;
      Effect(stod, w, st).thrown <==>
        match w
        case RelopWord(_) => false
        case HasWord => n == 0 || !st[n - 1].Literal?
        case RegexWord(_) => n < 2 || !st[n - 1].Literal? || !st[n - 2].Literal?
        case InWord => n == 0 || (st[n - 1].List? && (n == 1 || !st[n - 2].Literal?))
        case GroupByWord => n < 2 || (st[n - 2].Literal? && stod(st[n - 2].s).None?)
        case DropKeepTagsWord(_) => n < 2 || (st[n - 2].Literal? && stod(st[n - 2].s).None?)
        case _ => n < Arity(w)
  {
  }

  predicate TwoStrings(st: Stack) { |st| >= 2 && st[|st| - 1].Literal? && st[|st| - 2].Literal? }

  /** How many operands a word that wants two strings pops when it does not find them. */
  function Lost(st: Stack): (n: nat)
    ensures n <= |st|
  {
    if |st| >= 2 && st[|st| - 1].Literal? then 2 else if st == [] then 0 else 1
  }

  /**
   * The catch in the comparison words loses operands silently: unless the top two are strings, what was popped is gone,
   * nothing is pushed and the program goes on, where the regex words throw.
   */
  lemma RelopSwallows(stod: Stod, st: Stack, op: RelOp, ic: bool)
    ensures !Effect(stod, RelopWord(op), st).thrown
    ensures Effect(stod, RegexWord(ic), st).thrown <==> !TwoStrings(st)
    ensures var n := |st|;
      Effect(stod, RelopWord(op), st).stack ==
        if TwoStrings(st) then st[..n - 2] + [QueryExpr(Relop(st[n - 2].s, st[n - 1].s, op))]
        else st[..n - Lost(st)]
    ensures var n := |st|;
      Effect(stod, RegexWord(ic), st).stack ==
        if TwoStrings(st) then st[..n - 2] + [QueryExpr(RegexQuery(st[n - 2].s, st[n - 1].s, ic))]
        else st[..n - Lost(st)]
  {
    PoppedTwo(st);
  }

  lemma PoppedTwo(st: Stack)
    ensures PopTwo(st) ==
      if TwoStrings(st) then (Some((st[|st| - 2].s, st[|st| - 1].s)), st[..|st| - 2]) else (None, st[..|st| - Lost(st)])
  {
    if |st| >= 2 { assert st[..|st| - 1][..|st| - 2] == st[..|st| - 2]; }
  }
}
