/** The stack machine that builds expressions (interpreter.cc, context.cc and vocabulary.cc in interpreter/). */
module Interpreter {
  import opened Collections
  import opened Queries
  import opened Tokenizer

  // ----- Expressions -----

  datatype Aggregate = COUNT | SUM | MAX | MIN | AVG

  datatype ValueExpr = Aggregated(kind: Aggregate, filter: Query) | Constant(value: real)

  datatype MultipleResults =
    | All(q: Query)
    | GroupBy(keys: seq<string>, expr: ValueExpr)
    | KeepOrDrop(keys: seq<string>, expr: ValueExpr, keep: bool)

  /** Lists hold only tokens. */
  datatype Expr =
    | Literal(s: string)
    | List(items: seq<string>)
    | QueryExpr(q: Query)
    | Value(v: ValueExpr)
    | Multiple(m: MultipleResults)

  type Stack = seq<Expr>

  const NAME := "name"

  /** Kept keys always include the name. */
  function KeepOrDropTags(keys: seq<string>, expr: ValueExpr, keep: bool): MultipleResults {
    KeepOrDrop(if keep && NAME !in keys then keys + [NAME] else keys, expr, keep)
  }

  // ----- Words -----

  datatype Word =
    | HasWord | RelopWord(op: RelOp) | InWord | RegexWord(ignoreCase: bool)
    | NotWord | AndWord | OrWord | FalseWord | TrueWord
    | AggregateWord(kind: Aggregate) | GroupByWord | DropKeepTagsWord(keep: bool) | AllWord

  const VOCABULARY: map<string, Word> := map[
    "has" := HasWord, "eq" := RelopWord(EQ), "gt" := RelopWord(GT), "ge" := RelopWord(GE), "lt" := RelopWord(LT),
    "le" := RelopWord(LE), "in" := InWord, "re" := RegexWord(false), "reic" := RegexWord(true), "not" := NotWord,
    "and" := AndWord, "or" := OrWord, "false" := FalseWord, "true" := TrueWord, "count" := AggregateWord(COUNT),
    "sum" := AggregateWord(SUM), "min" := AggregateWord(MIN), "max" := AggregateWord(MAX),
    "avg" := AggregateWord(AVG), "by" := GroupByWord, "keep-tags" := DropKeepTagsWord(true),
    "drop-tags" := DropKeepTagsWord(false), "all" := AllWord]

  /** How a literal reads as a number; None when std::stod throws. */
  type Stod = string -> Option<real>

  /** The stack a word leaves, and whether it threw. A returned error message is dropped by the caller. */
  datatype Outcome = Outcome(stack: Stack, thrown: bool)

  /** The string popped, if it was one. Nothing is popped from an empty stack; a non-string is lost. */
  function PopString(st: Stack): (Option<string>, Stack) {
    if st == [] then (None, st)
    else (if st[|st| - 1].Literal? then Some(st[|st| - 1].s) else None, st[..|st| - 1])
  }

  /** Two strings popped, the second one deeper. */
  function PopTwo(st: Stack): (Option<(string, string)>, Stack) {
    var (v, st1) := PopString(st);
    if v.None? then (None, st1)
    else
      var (k, st2) := PopString(st1);
      (if k.None? then None else Some((k.value, v.value)), st2)
  }

  /** A data expression from a constant, a query (summed) or itself; throws on a literal that is not a number. */
  function ValueExprFrom(stod: Stod, e: Expr): (Option<ValueExpr>, bool) {
    match e
    case Literal(s) => (if stod(s).Some? then Some(Constant(stod(s).value)) else None, stod(s).None?)
    case QueryExpr(q) => (Some(Aggregated(SUM, q)), false)
    case Value(v) => (Some(v), false)
    case _ => (None, false)
  }

  function Effect(stod: Stod, w: Word, st: Stack): Outcome {
    match w
    case FalseWord => Outcome(st + [QueryExpr(False)], false)
    case TrueWord => Outcome(st + [QueryExpr(True)], false)
    case HasWord =>
      var (k, st1) := PopString(st);
      if k.None? then Outcome(st1, true) else Outcome(st1 + [QueryExpr(HasKey(k.value))], false)
    case RelopWord(op) =>
      // exceptions are caught here and turned into an error message
      var (kv, st1) := PopTwo(st);
      Outcome(if kv.None? then st1 else st1 + [QueryExpr(Relop(kv.value.0, kv.value.1, op))], false)
    case RegexWord(ic) =>
      var (kv, st1) := PopTwo(st);
      if kv.None? then Outcome(st1, true)
      else Outcome(st1 + [QueryExpr(RegexQuery(kv.value.0, kv.value.1, ic))], false)
    case InWord =>
      if st == [] then Outcome(st, true)
      else
        var list, st1 := st[|st| - 1], st[..|st| - 1];
        if !list.List? then Outcome(st1, false)
        else
          var (k, st2) := PopString(st1);
          if k.None? then Outcome(st2, true) else Outcome(st2 + [QueryExpr(In(k.value, list.items))], false)
    case NotWord => OnQuery(st, (q: Query) => QueryExpr(NotQ(q)))
    case AggregateWord(kind) => OnQuery(st, (q: Query) => Value(Aggregated(kind, q)))
    case AllWord => OnQuery(st, (q: Query) => Multiple(All(q)))
    case AndWord => OnTwoQueries(st, AndQ)
    case OrWord => OnTwoQueries(st, OrQ)
    case GroupByWord => OnListAndValue(stod, st, (keys: seq<string>, v: ValueExpr) => GroupBy(keys, v))
    case DropKeepTagsWord(keep) =>
      OnListAndValue(stod, st, (keys: seq<string>, v: ValueExpr) => KeepOrDropTags(keys, v, keep))
  }

  /** Replace the query on top; anything else on top is lost. */
  function OnQuery(st: Stack, f: Query -> Expr): Outcome {
    if st == [] then Outcome(st, true)
    else
      var top, rest := st[|st| - 1], st[..|st| - 1];
      Outcome(if top.QueryExpr? then rest + [f(top.q)] else rest, false)
  }

  function OnTwoQueries(st: Stack, f: (Query, Query) -> Query): Outcome {
    if |st| < 2 then Outcome([], true)
    else
      var e1, e2, rest := st[|st| - 2], st[|st| - 1], st[..|st| - 2];
      Outcome(if e1.QueryExpr? && e2.QueryExpr? then rest + [QueryExpr(f(e1.q, e2.q))] else rest, false)
  }

  function OnListAndValue(stod: Stod, st: Stack, f: (seq<string>, ValueExpr) -> MultipleResults): Outcome {
    if |st| < 2 then Outcome([], true)
    else
      var e, list, rest := st[|st| - 2], st[|st| - 1], st[..|st| - 2];
      var (v, thrown) := ValueExprFrom(stod, e);
      if thrown then Outcome(rest, true)
      else Outcome(if list.List? && v.Some? then rest + [Multiple(f(list.items, v.value))] else rest, false)
  }

  // ----- Programs -----

  predicate IsWord(token: string) { token != [] && token[0] == ':' }

  datatype Status = Running | Unbalanced | Thrown

  /** The stack, how many lists are open, and whether the program goes on. */
  datatype Machine = Machine(stack: Stack, depth: int, status: Status)

  function PushToList(m: Machine, token: string): Machine {
    if m.stack == [] || !m.stack[|m.stack| - 1].List? then m.(status := Thrown)
    else
      var n := |m.stack| - 1;
      m.(stack := m.stack[n := List(m.stack[n].items + [token])])
  }

  function Execute(stod: Stod, m: Machine, word: string): Machine {
    if word !in VOCABULARY then m  // unknown word: an error message, dropped
    else
      var o := Effect(stod, VOCABULARY[word], m.stack);
      m.(stack := o.stack, status := if o.thrown then Thrown else Running)
  }

  function StepToken(stod: Stod, m: Machine, token: string): Machine {
    if m.status != Running then m
    else if token == "(" then
      if m.depth + 1 == 1 then m.(depth := 1, stack := m.stack + [List([])])
      else PushToList(m.(depth := m.depth + 1), token)
    else if token == ")" then
      if m.depth - 1 > 0 then PushToList(m.(depth := m.depth - 1), token)
      else if m.depth - 1 < 0 then m.(depth := m.depth - 1, status := Unbalanced)
      else m.(depth := m.depth - 1)
    else if m.depth != 0 then PushToList(m, token)
    else if IsWord(token) then Execute(stod, m, token[1..])
    else m.(stack := m.stack + [Literal(token)])
  }

  function RunTokens(stod: Stod, m: Machine, tokens: seq<string>): Machine {
    if tokens == [] then m else StepToken(stod, RunTokens(stod, m, tokens[..|tokens| - 1]), tokens[|tokens| - 1])
  }

  /** Programs compose by concatenation. */
  lemma {:induction false} RunConcat(stod: Stod, m: Machine, a: seq<string>, b: seq<string>)
    ensures RunTokens(stod, m, a + b) == RunTokens(stod, RunTokens(stod, m, a), b)
    decreases |b|
  {
    if b == [] {
      assert a + b == a;
    } else {
      assert (a + b)[..|a + b| - 1] == a + b[..|b| - 1];
      RunConcat(stod, m, a, b[..|b| - 1]);
    }
  }

  // ----- What a program means as a query -----

  function ValueQuery(v: ValueExpr): Query {
    match v
    case Aggregated(_, q) => q
    case Constant(_) => False
  }

  function QueryOf(e: Expr): Query {
    match e
    case QueryExpr(q) => q
    case Value(v) => ValueQuery(v)
    case Multiple(All(q)) => q
    case Multiple(GroupBy(_, v)) => ValueQuery(v)
    case Multiple(KeepOrDrop(_, v, _)) => ValueQuery(v)
    case _ => False
  }

  // ----- The objects -----

  class Context {
    var stack: Stack

    constructor ()
      ensures stack == []
    {
      stack := [];
    }

    method Push(e: Expr)
      modifies this
      ensures stack == old(stack) + [e]
    {
      stack := stack + [e];
    }

    /** None is the underflow exception. */
    method PopExpression() returns (e: Option<Expr>)
      modifies this
      ensures old(stack) == [] ==> e == None && stack == []
      ensures old(stack) != [] ==> e == Some(old(stack)[|old(stack)| - 1]) && stack == old(stack)[..|old(stack)| - 1]
    {
      if stack == [] { return None; }
      e := Some(stack[|stack| - 1]);
      stack := stack[..|stack| - 1];
    }

    /** None is an exception: underflow, or not a string. */
    method PopStr() returns (s: Option<string>)
      modifies this
      ensures (s, stack) == PopString(old(stack))
    {
      var e := PopExpression();
      s := match e
        case Some(Literal(t)) => Some(t)
        case _ => None;
    }

    method PopKeyValue() returns (kv: Option<(string, string)>)
      modifies this
      ensures (kv, stack) == PopTwo(old(stack))
    {
      var v := PopStr();
      if v.None? { return None; }
      var k := PopStr();
      kv := if k.None? then None else Some((k.value, v.value));
    }

    method AddToList(token: string) returns (ok: bool)
      modifies this
      ensures ok == (old(stack) != [] && old(stack)[|old(stack)| - 1].List?)
      ensures !ok ==> stack == old(stack)
      ensures ok ==> stack == old(stack)[|old(stack)| - 1 := List(old(stack)[|old(stack)| - 1].items + [token])]
    {
      ok := stack != [] && stack[|stack| - 1].List?;
      if ok {
        stack := stack[|stack| - 1 := List(stack[|stack| - 1].items + [token])];
      }
    }

    /** Words that take one query. */
    method QueryWord(f: Query -> Expr) returns (thrown: bool)
      modifies this
      ensures Outcome(stack, thrown) == OnQuery(old(stack), f)
    {
      var e := PopExpression();
      if e.None? { return true; }
      if e.value.QueryExpr? { Push(f(e.value.q)); }
      return false;
    }

    /** :and and :or. */
    method TwoQueriesWord(f: (Query, Query) -> Query) returns (thrown: bool)
      modifies this
      ensures Outcome(stack, thrown) == OnTwoQueries(old(stack), f)
    {
      var e2 := PopExpression();
      if e2.None? { return true; }
      var e1 := PopExpression();
      if e1.None? { return true; }
      if e1.value.QueryExpr? && e2.value.QueryExpr? {
        Push(QueryExpr(f(e1.value.q, e2.value.q)));
      }
      return false;
    }

    /** :by, :keep-tags and :drop-tags. */
    method ListWord(stod: Stod, f: (seq<string>, ValueExpr) -> MultipleResults) returns (thrown: bool)
      modifies this
      ensures Outcome(stack, thrown) == OnListAndValue(stod, old(stack), f)
    {
      var k := PopExpression();
      if k.None? { return true; }
      var e := PopExpression();
      if e.None? { return true; }
      var (v, threw) := ValueExprFrom(stod, e.value);
      if threw { return true; }
      if k.value.List? && v.Some? {
        Push(Multiple(f(k.value.items, v.value)));
      }
      return false;
    }

    method InWordOn() returns (thrown: bool)
      modifies this
      ensures forall stod: Stod :: Outcome(stack, thrown) == Effect(stod, InWord, old(stack))
    {
      var list := PopExpression();
      if list.None? { return true; }
      if !list.value.List? { return false; }
      var k := PopStr();
      if k.None? { return true; }
      Push(QueryExpr(In(k.value, list.value.items)));
      return false;
    }

    method ExecuteWord(stod: Stod, w: Word) returns (thrown: bool)
      modifies this
      ensures Outcome(stack, thrown) == Effect(stod, w, old(stack))
    {
      thrown := false;
      match w
      case FalseWord => Push(QueryExpr(False));
      case TrueWord => Push(QueryExpr(True));
      case HasWord =>
        var k := PopStr();
        if k.None? { return true; }
        Push(QueryExpr(HasKey(k.value)));
      case RelopWord(op) =>
        var kv := PopKeyValue();
        if kv.Some? { Push(QueryExpr(Relop(kv.value.0, kv.value.1, op))); }
      case RegexWord(ic) =>
        var kv := PopKeyValue();
        if kv.None? { return true; }
        Push(QueryExpr(RegexQuery(kv.value.0, kv.value.1, ic)));
      case InWord => thrown := InWordOn();
      case NotWord => thrown := QueryWord((q: Query) => QueryExpr(NotQ(q)));
      case AggregateWord(kind) => thrown := QueryWord((q: Query) => Value(Aggregated(kind, q)));
      case AllWord => thrown := QueryWord((q: Query) => Multiple(All(q)));
      case AndWord => thrown := TwoQueriesWord(AndQ);
      case OrWord => thrown := TwoQueriesWord(OrQ);
      case GroupByWord => thrown := ListWord(stod, (keys: seq<string>, v: ValueExpr) => GroupBy(keys, v));
      case DropKeepTagsWord(keep) =>
        thrown := ListWord(stod, (keys: seq<string>, v: ValueExpr) => KeepOrDropTags(keys, v, keep));
    }
  }

  /** do_program from depth 0. */
  method DoProgram(context: Context, stod: Stod, tokens: seq<string>) returns (status: Status)
    modifies context
    ensures var m := RunTokens(stod, Machine(old(context.stack), 0, Running), tokens);
      context.stack == m.stack && status == m.status
  {
    status := Running;
    var listDepth := 0;
    ghost var start := Machine(context.stack, 0, Running);
    for i := 0 to |tokens|
      invariant status == Running
      invariant RunTokens(stod, start, tokens[..i]) == Machine(context.stack, listDepth, Running)
    {
      assert tokens[..i + 1][..i] == tokens[..i];
      var token := tokens[i];
      var ok := true;
      if token == "(" {
        listDepth := listDepth + 1;
        if listDepth == 1 { context.Push(List([])); } else { ok := context.AddToList(token); }
      } else if token == ")" {
        listDepth := listDepth - 1;
        if listDepth > 0 {
          ok := context.AddToList(token);
        } else if listDepth < 0 {
          status := Unbalanced;
        }
      } else if listDepth != 0 {
        ok := context.AddToList(token);
      } else if IsWord(token) {
        if token[1..] in VOCABULARY {
          var thrown := context.ExecuteWord(stod, VOCABULARY[token[1..]]);
          ok := !thrown;
        }
      } else {
        context.Push(Literal(token));
      }
      if !ok { status := Thrown; }
      if status != Running {
        RunStops(stod, start, tokens, i + 1);
        return;
      }
    }
    assert tokens[..|tokens|] == tokens;
  }

  /** Once a program has stopped, the rest of it does nothing. */
  lemma {:induction false} RunStops(stod: Stod, m: Machine, tokens: seq<string>, i: nat)
    requires i <= |tokens| && RunTokens(stod, m, tokens[..i]).status != Running
    ensures RunTokens(stod, m, tokens) == RunTokens(stod, m, tokens[..i])
    decreases |tokens|
  {
    if i == |tokens| {
      assert tokens[..i] == tokens;
    } else {
      var before := tokens[..|tokens| - 1];
      assert before[..i] == tokens[..i];
      RunStops(stod, m, before, i);
    }
  }

  /** The query of a program's one result, false if there is not exactly one; None when an exception escapes. */
  method GetQuery(stod: Stod, program: string) returns (q: Option<Query>)
    ensures var m := RunTokens(stod, Machine([], 0, Running), Tokens(program));
      q == if m.status == Thrown then None
           else if |m.stack| != 1 then Some(False)
           else Some(QueryOf(m.stack[0]))
  {
    var context := new Context();
    var tokens := Split(program);
    var status := DoProgram(context, stod, tokens);
    if status == Thrown { return None; }
    if |context.stack| != 1 { return Some(False); }
    var top := context.PopExpression();
    q := Some(QueryOf(top.value));
  }
}
