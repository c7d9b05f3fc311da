/** Splitting a query into a list of clauses to be OR-ed together (query::dnf_list in interpreter/query.cc). */
module Dnf {
  import opened Collections
  import opened Queries

  /** Termination measure: doubling under Not pays for pushing the negation down to both operands. */
  function Measure(q: Query): nat {
    match q
    case Not(x) => 2 * Measure(x)
    case Or(a, b) => 1 + Measure(a) + Measure(b)
    case And(a, b) => 1 + Measure(a) + Measure(b)
    case _ => 1
  }

  lemma {:induction false} MeasurePositive(q: Query)
    ensures Measure(q) >= 1
  {
    match q
    case Not(x) => MeasurePositive(x);
    case _ =>
  }

  /** Each query dnf_list recurses into under a Not is smaller than the negation it came from. */
  lemma MeasureNegated(a: Query, b: Query)
    ensures Measure(NotQ(a)) < Measure(Not(And(a, b))) && Measure(NotQ(b)) < Measure(Not(And(a, b)))
    ensures Measure(AndQ(NotQ(a), NotQ(b))) < Measure(Not(Or(a, b)))
  {
    MeasurePositive(a); MeasurePositive(b);
    MeasurePositive(NotQ(a)); MeasurePositive(NotQ(b));
    assert Measure(NotQ(a)) <= 2 * Measure(a);
    assert Measure(NotQ(b)) <= 2 * Measure(b);
    assert Measure(AndQ(NotQ(a), NotQ(b))) <= 1 + Measure(NotQ(a)) + Measure(NotQ(b));
    assert Measure(And(a, b)) == Measure(Or(a, b)) == 1 + Measure(a) + Measure(b);
  }

  function DnfList(q: Query): seq<Query>
    decreases Measure(q)
  {
    match q
    case And(a, b) => CrossProduct(DnfList(a), DnfList(b), AndQ)
    case Or(a, b) => DnfList(a) + DnfList(b)
    case Not(And(a, b)) =>
      MeasureNegated(a, b);
      DnfList(NotQ(a)) + DnfList(NotQ(b))
    case Not(Or(a, b)) =>
      MeasureNegated(a, b);
      DnfList(AndQ(NotQ(a), NotQ(b)))
    case Not(Not(x)) => [x]
    case _ => [q]
  }

  ghost predicate AnyMatches(rx: Regex, qs: seq<Query>, tags: Tags) {
    exists q :: q in qs && Matches(rx, q, tags)
  }

  lemma AnyMatchesConcat(rx: Regex, xs: seq<Query>, ys: seq<Query>, tags: Tags)
    ensures AnyMatches(rx, xs + ys, tags) <==> AnyMatches(rx, xs, tags) || AnyMatches(rx, ys, tags)
  {
    forall q | q in xs || q in ys ensures q in xs + ys {}
  }

  lemma AnyMatchesCross(rx: Regex, xs: seq<Query>, ys: seq<Query>, tags: Tags)
    ensures AnyMatches(rx, CrossProduct(xs, ys, AndQ), tags) <==> AnyMatches(rx, xs, tags) && AnyMatches(rx, ys, tags)
  {
    CrossProductElements(xs, ys, AndQ);
    forall x, y | x in xs && y in ys
      ensures AndQ(x, y) in CrossProduct(xs, ys, AndQ)
      ensures Matches(rx, AndQ(x, y), tags) <==> Matches(rx, x, tags) && Matches(rx, y, tags)
    {
      SmartConstructors(rx, x, y, tags);
    }
  }

  /** The clauses, OR-ed together, match exactly what the query matches, nested negations included. */
  lemma {:induction false} DnfListMatches(rx: Regex, q: Query, tags: Tags)
    ensures AnyMatches(rx, DnfList(q), tags) <==> Matches(rx, q, tags)
    decreases Measure(q)
  {
    match q
    case And(a, b) =>
      DnfListMatches(rx, a, tags); DnfListMatches(rx, b, tags);
      AnyMatchesCross(rx, DnfList(a), DnfList(b), tags);
    case Or(a, b) =>
      DnfListMatches(rx, a, tags); DnfListMatches(rx, b, tags);
      AnyMatchesConcat(rx, DnfList(a), DnfList(b), tags);
    case Not(And(a, b)) =>
      MeasureNegated(a, b);
      DnfListMatches(rx, NotQ(a), tags); DnfListMatches(rx, NotQ(b), tags);
      AnyMatchesConcat(rx, DnfList(NotQ(a)), DnfList(NotQ(b)), tags);
      SmartConstructors(rx, a, b, tags); SmartConstructors(rx, b, a, tags);
    case Not(Or(a, b)) =>
      MeasureNegated(a, b);
      DnfListMatches(rx, AndQ(NotQ(a), NotQ(b)), tags);
      SmartConstructors(rx, a, b, tags); SmartConstructors(rx, b, a, tags);
      SmartConstructors(rx, NotQ(a), NotQ(b), tags);
    case Not(Not(x)) => SingleMatches(rx, x, tags);
    case _ => SingleMatches(rx, q, tags);
  }

  lemma SingleMatches(rx: Regex, q: Query, tags: Tags)
    ensures AnyMatches(rx, [q], tags) <==> Matches(rx, q, tags)
  {
    assert q in [q];
  }

  // ----- When every clause is a conjunction of literals -----

  predicate IsLiteral(q: Query) {
    match q
    case And(_, _) => false
    case Or(_, _) => false
    case Not(x) => !x.And? && !x.Or? && !x.Not?
    case _ => true
  }

  predicate IsConjunction(q: Query) {
    match q
    case And(a, b) => IsConjunction(a) && IsConjunction(b)
    case _ => IsLiteral(q)
  }

  ghost predicate AllConjunctions(qs: seq<Query>) { forall q :: q in qs ==> IsConjunction(q) }

  ghost predicate AllFalse(qs: seq<Query>) { forall q :: q in qs ==> q.False? }

  /** A syntactic check: every clause of the (negated, if `neg`) query collapses to False. */
  predicate Collapses(q: Query, neg: bool) {
    match q
    case True => neg
    case False => !neg
    case And(a, b) =>
      if neg then Collapses(a, true) && Collapses(b, true) else Collapses(a, false) || Collapses(b, false)
    case Or(a, b) =>
      if neg then Collapses(a, true) || Collapses(b, true) else Collapses(a, false) && Collapses(b, false)
    case Not(x) =>
      if neg then x.False?
      else match x {
        case And(_, _) => Collapses(x, true)
        case Or(_, _) => Collapses(x, true)
        case Not(y) => y.False?
        case _ => false
      }
    case _ => false
  }

  /** A syntactic check: a double negation guards only conjunctions of literals, except beside a collapsing factor. */
  predicate Clean(q: Query, neg: bool) {
    match q
    case And(a, b) =>
      if neg then Clean(a, true) && Clean(b, true)
      else (Clean(a, false) && Clean(b, false)) || Collapses(a, false) || Collapses(b, false)
    case Or(a, b) =>
      if neg then (Clean(a, true) && Clean(b, true)) || Collapses(a, true) || Collapses(b, true)
      else Clean(a, false) && Clean(b, false)
    case Not(x) =>
      if neg then IsConjunction(x)
      else match x {
        case And(_, _) => Clean(x, true)
        case Or(_, _) => Clean(x, true)
        case Not(y) => IsConjunction(y)
        case _ => true
      }
    case _ => true
  }

  ghost predicate SameShape(a: Query, b: Query) {
    && IsConjunction(a) == IsConjunction(b)
    && Collapses(a, true) == Collapses(b, true) && Collapses(a, false) == Collapses(b, false)
    && Clean(a, true) == Clean(b, true) && Clean(a, false) == Clean(b, false)
  }

  lemma {:induction false} EqualsShape(a: Query, b: Query)
    requires Equals(a, b)
    ensures SameShape(a, b)
    decreases Size(a) + Size(b)
  {
    match a
    case Not(x) =>
      EqualsShape(x, b.q);
      if x.Not? { EqualsShape(x.q, b.q.q); }
      NegationsShape(x, b.q);
    case Or(x, y) => OperandsShape(x, y, b.q1, b.q2);
    case And(x, y) => OperandsShape(x, y, b.q1, b.q2);
    case _ =>
  }

  lemma NegationsShape(x: Query, y: Query)
    requires Equals(x, y) && SameShape(x, y)
    requires x.Not? ==> IsConjunction(x.q) == IsConjunction(y.q)
    ensures SameShape(Not(x), Not(y))
  {
  }

  lemma {:induction false} OperandsShape(x: Query, y: Query, p: Query, q: Query)
    requires PairEquals(x, y, p, q)
    ensures SameShape(Or(x, y), Or(p, q)) && SameShape(And(x, y), And(p, q))
    decreases Size(x) + Size(y) + Size(p) + Size(q)
  {
    if Equals(p, x) && Equals(q, y) {
      EqualsShape(p, x); EqualsShape(q, y);
      OrShape(x, y, p, q); AndShape(x, y, p, q);
    } else {
      EqualsShape(p, y); EqualsShape(q, x);
      OrShape(x, y, q, p); AndShape(x, y, q, p);
      OrSwaps(p, q); AndSwaps(p, q);
    }
  }

  lemma OrShape(x: Query, y: Query, p: Query, q: Query)
    requires SameShape(p, x) && SameShape(q, y)
    ensures SameShape(Or(x, y), Or(p, q))
  {
  }

  lemma AndShape(x: Query, y: Query, p: Query, q: Query)
    requires SameShape(p, x) && SameShape(q, y)
    ensures SameShape(And(x, y), And(p, q))
  {
  }

  lemma OrSwaps(p: Query, q: Query)
    ensures SameShape(Or(q, p), Or(p, q))
  {
  }

  lemma AndSwaps(p: Query, q: Query)
    ensures SameShape(And(q, p), And(p, q))
  {
  }

  lemma {:induction false} CollapsingIsClean(q: Query, neg: bool)
    requires Collapses(q, neg)
    ensures Clean(q, neg)
  {
    match q
    case And(a, b) => if neg { CollapsingIsClean(a, neg); CollapsingIsClean(b, neg); }
    case Or(a, b) => if !neg { CollapsingIsClean(a, neg); CollapsingIsClean(b, neg); }
    case Not(x) => if !neg && (x.And? || x.Or?) { CollapsingIsClean(x, true); }
    case _ =>
  }

  /** Smart constructors only simplify; they keep both checks. */
  lemma SmartShape(a: Query, b: Query)
    ensures Collapses(NotQ(a), false) == Collapses(a, true) && Clean(NotQ(a), false) == Clean(a, true)
    ensures Collapses(AndQ(a, b), false) == (Collapses(a, false) || Collapses(b, false))
    ensures Clean(AndQ(a, b), false) ==
      ((Clean(a, false) && Clean(b, false)) || Collapses(a, false) || Collapses(b, false))
  {
    NotQShape(a);
    AndQCollapses(a, b);
    AndQClean(a, b);
  }

  lemma NotQShape(a: Query)
    ensures Collapses(NotQ(a), false) == Collapses(a, true) && Clean(NotQ(a), false) == Clean(a, true)
  {
  }

  lemma AndQCollapses(a: Query, b: Query)
    ensures Collapses(AndQ(a, b), false) == (Collapses(a, false) || Collapses(b, false))
  {
    if Equals(a, b) { EqualsShape(a, b); }
  }

  lemma AndQClean(a: Query, b: Query)
    ensures Clean(AndQ(a, b), false) ==
      ((Clean(a, false) && Clean(b, false)) || Collapses(a, false) || Collapses(b, false))
  {
    if Equals(a, b) { EqualsShape(a, b); }
    if Collapses(a, false) { CollapsingIsClean(a, false); }
    if Collapses(b, false) { CollapsingIsClean(b, false); }
  }

  lemma AndQShape(a: Query, b: Query)
    ensures AndQ(a, b).False? <==> a.False? || b.False?
    ensures IsConjunction(AndQ(a, b)) <==> (IsConjunction(a) && IsConjunction(b)) || a.False? || b.False?
  {
    if Equals(a, b) { EqualsShape(a, b); }
  }

  lemma {:induction false} DnfListNonempty(q: Query)
    ensures DnfList(q) != []
    decreases Measure(q)
  {
    match q
    case And(a, b) =>
      DnfListNonempty(a); DnfListNonempty(b);
      CrossProductElements(DnfList(a), DnfList(b), AndQ);
    case Or(a, b) => DnfListNonempty(a);
    case Not(And(a, b)) => MeasureNegated(a, b); DnfListNonempty(NotQ(a));
    case Not(Or(a, b)) =>
      MeasureNegated(a, b);
      DnfListNonempty(AndQ(NotQ(a), NotQ(b)));
    case _ =>
  }

  lemma CrossShape(xs: seq<Query>, ys: seq<Query>)
    requires xs != [] && ys != []
    ensures AllFalse(CrossProduct(xs, ys, AndQ)) <==> AllFalse(xs) || AllFalse(ys)
    ensures AllConjunctions(CrossProduct(xs, ys, AndQ)) <==>
      (AllConjunctions(xs) && AllConjunctions(ys)) || AllFalse(xs) || AllFalse(ys)
  {
    var zs := CrossProduct(xs, ys, AndQ);
    CrossProductElements(xs, ys, AndQ);
    forall x, y | x in xs && y in ys
      ensures AndQ(x, y) in zs
      ensures AndQ(x, y).False? <==> x.False? || y.False?
      ensures IsConjunction(AndQ(x, y)) <==> (IsConjunction(x) && IsConjunction(y)) || x.False? || y.False?
    {
      AndQShape(x, y);
    }
    if !AllFalse(xs) && !AllFalse(ys) {
      var x0 :| x0 in xs && !x0.False?;
      var y0 :| y0 in ys && !y0.False?;
      assert AndQ(x0, y0) in zs;
      forall x | x in xs && !IsConjunction(x) ensures !AllConjunctions(zs) { assert AndQ(x, y0) in zs; }
      forall y | y in ys && !IsConjunction(y) ensures !AllConjunctions(zs) { assert AndQ(x0, y) in zs; }
    }
  }

  /** Exactly when dnf_list yields conjunctions of literals only. */
  lemma {:induction false} CleanIffConjunctions(q: Query)
    ensures AllFalse(DnfList(q)) <==> Collapses(q, false)
    ensures AllConjunctions(DnfList(q)) <==> Clean(q, false)
    decreases Measure(q)
  {
    match q
    case And(a, b) =>
      CleanIffConjunctions(a); CleanIffConjunctions(b);
      DnfListNonempty(a); DnfListNonempty(b);
      CrossShape(DnfList(a), DnfList(b));
    case Or(a, b) =>
      CleanIffConjunctions(a); CleanIffConjunctions(b);
      ConcatShape(DnfList(a), DnfList(b));
    case Not(And(a, b)) =>
      MeasureNegated(a, b);
      CleanIffConjunctions(NotQ(a)); CleanIffConjunctions(NotQ(b));
      SmartShape(a, b); SmartShape(b, a);
      ConcatShape(DnfList(NotQ(a)), DnfList(NotQ(b)));
    case Not(Or(a, b)) =>
      MeasureNegated(a, b);
      CleanIffConjunctions(AndQ(NotQ(a), NotQ(b)));
      SmartShape(a, b); SmartShape(b, a); SmartShape(NotQ(a), NotQ(b));
    case Not(Not(x)) => SingleShape(x);
    case _ => SingleShape(q);
  }

  lemma ConcatShape(xs: seq<Query>, ys: seq<Query>)
    ensures AllFalse(xs + ys) <==> AllFalse(xs) && AllFalse(ys)
    ensures AllConjunctions(xs + ys) <==> AllConjunctions(xs) && AllConjunctions(ys)
  {
    forall q | q in xs || q in ys ensures q in xs + ys {}
  }

  lemma SingleShape(q: Query)
    ensures AllFalse([q]) <==> q.False?
    ensures AllConjunctions([q]) <==> IsConjunction(q)
  {
    assert q in [q];
  }

  predicate NotFree(q: Query) {
    match q
    case Not(_) => false
    case Or(a, b) => NotFree(a) && NotFree(b)
    case And(a, b) => NotFree(a) && NotFree(b)
    case _ => true
  }

  /** No Not occurs beneath another Not. */
  predicate NoNestedNot(q: Query) {
    match q
    case Not(x) => NotFree(x)
    case Or(a, b) => NoNestedNot(a) && NoNestedNot(b)
    case And(a, b) => NoNestedNot(a) && NoNestedNot(b)
    case _ => true
  }

  lemma {:induction false} NotFreeIsClean(q: Query, neg: bool)
    requires NotFree(q)
    ensures Clean(q, neg)
  {
    match q
    case And(a, b) => NotFreeIsClean(a, neg); NotFreeIsClean(b, neg);
    case Or(a, b) => NotFreeIsClean(a, neg); NotFreeIsClean(b, neg);
    case _ =>
  }

  lemma {:induction false} NoNestedNotIsClean(q: Query)
    requires NoNestedNot(q)
    ensures Clean(q, false)
  {
    match q
    case Not(x) => NotFreeIsClean(x, true);
    case Or(a, b) => NoNestedNotIsClean(a); NoNestedNotIsClean(b);
    case And(a, b) => NoNestedNotIsClean(a); NoNestedNotIsClean(b);
    case _ =>
  }

  /** Without nested negation, dnf_list is a full disjunctive normal form. */
  lemma FullDnf(q: Query)
    requires NoNestedNot(q)
    ensures AllConjunctions(DnfList(q))
  {
    NoNestedNotIsClean(q);
    CleanIffConjunctions(q);
  }

  /** A double negation is stripped but not split: the single clause is the disjunction itself. */
  lemma NestedNotEscapes(a: string, b: string)
    ensures var q := Not(Not(Or(HasKey(a), HasKey(b))));
      DnfList(q) == [Or(HasKey(a), HasKey(b))] && !AllConjunctions(DnfList(q)) && !Clean(q, false)
  {
    var o := Or(HasKey(a), HasKey(b));
    assert o in DnfList(Not(Not(o)));
  }
}
