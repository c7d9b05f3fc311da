/** Query trees over tags (interpreter/query.h, interpreter/query.cc). */
module Queries {
  import opened Collections

  type Tags = map<string, string>

  /** Whether an anchored pattern (with its ignore-case flag) accepts a value. */
  type Regex = (string, bool, string) -> bool

  /** Hash functions for interned strings and for pattern text. */
  datatype Hashers = Hashers(ref: string -> bv64, text: string -> bv64)

  datatype RelOp = GT | LT | GE | LE | EQ

  datatype Query =
    | HasKey(key: string)
    | Relop(key: string, value: string, op: RelOp)
    | RegexQuery(key: string, pattern: string, ignoreCase: bool)
    | In(key: string, vs: seq<string>)
    | True
    | False
    | Not(q: Query)
    | Or(q1: Query, q2: Query)
    | And(q1: Query, q2: Query)

  function Size(q: Query): nat {
    match q
    case Not(x) => 1 + Size(x)
    case Or(a, b) => 1 + Size(a) + Size(b)
    case And(a, b) => 1 + Size(a) + Size(b)
    case _ => 1
  }

  function Lookup(tags: Tags, key: string): Option<string> {
    if key in tags then Some(tags[key]) else None
  }

  // ----- Matching -----

  /** strcmp(a, b) < 0 */
  predicate StrLess(a: string, b: string) {
    if b == [] then false
    else if a == [] then true
    else a[0] < b[0] || (a[0] == b[0] && StrLess(a[1..], b[1..]))
  }

  predicate Compare(current: Option<string>, value: string, op: RelOp) {
    match current
    case None => false
    case Some(c) =>
      match op
      case EQ => c == value
      case LE => !StrLess(value, c)
      case LT => StrLess(c, value)
      case GE => !StrLess(c, value)
      case GT => StrLess(value, c)
  }

  predicate Matches(rx: Regex, q: Query, tags: Tags) {
    match q
    case HasKey(k) => k in tags
    case Relop(k, v, op) => Compare(Lookup(tags, k), v, op)
    case RegexQuery(k, p, ic) => var v := Lookup(tags, k); v.Some? && rx(p, ic, v.value)
    case In(k, vs) => var v := Lookup(tags, k); v.Some? && v.value in vs
    case True => true
    case False => false
    case Not(x) => !Matches(rx, x, tags)
    case Or(a, b) => Matches(rx, a, tags) || Matches(rx, b, tags)
    case And(a, b) => Matches(rx, a, tags) && Matches(rx, b, tags)
  }

  // ----- What the leaves match -----

  /** At place `i` the string `a` ends, or has the smaller character, and up to there both agree. */
  ghost predicate BeforeAt(a: string, b: string, i: int) {
    0 <= i < |b| && i <= |a| && a[..i] == b[..i] && (i == |a| || a[i] < b[i])
  }

  /** Dictionary order. */
  ghost predicate Before(a: string, b: string) { exists i :: BeforeAt(a, b, i) }

  lemma {:induction false} StrLessIsBefore(a: string, b: string)
    ensures StrLess(a, b) <==> Before(a, b)
  {
    forall i | BeforeAt(a, b, i) && i > 0 ensures a[0] == b[0] { assert a[..i][0] == a[0] && b[..i][0] == b[0]; }
    if a != [] && b != [] && a[0] == b[0] {
      StrLessIsBefore(a[1..], b[1..]);
      if i :| BeforeAt(a[1..], b[1..], i) {
        assert a[..i + 1] == [a[0]] + a[1..][..i] && b[..i + 1] == [b[0]] + b[1..][..i];
        assert BeforeAt(a, b, i + 1);
      }
      if i :| BeforeAt(a, b, i) {
        assert a[1..][..i - 1] == a[..i][1..] && b[1..][..i - 1] == b[..i][1..];
        assert BeforeAt(a[1..], b[1..], i - 1);
      }
    } else if StrLess(a, b) {
      assert BeforeAt(a, b, 0);
    }
  }

  lemma {:induction false} StrLessTotal(a: string, b: string)
    ensures StrLess(a, b) || a == b || StrLess(b, a)
    ensures !(StrLess(a, b) && StrLess(b, a)) && !StrLess(a, a)
  {
    if a != [] {
      StrLessTotal(a[1..], a[1..]);
      if b != [] && a[0] == b[0] {
        StrLessTotal(a[1..], b[1..]);
        assert a == [a[0]] + a[1..] && b == [b[0]] + b[1..];
      }
    }
  }

  /** :lt and :gt select by dictionary order, :eq by equality; :le and :ge are either. */
  lemma ComparisonsSelect(rx: Regex, k: string, v: string, tags: Tags)
    ensures Matches(rx, Relop(k, v, EQ), tags) <==> k in tags && tags[k] == v
    ensures Matches(rx, Relop(k, v, LT), tags) <==>
      k in tags && exists i ::
        0 <= i < |v| && i <= |tags[k]| && tags[k][..i] == v[..i] && (i == |tags[k]| || tags[k][i] < v[i])
    ensures Matches(rx, Relop(k, v, GT), tags) <==>
      k in tags && exists i ::
        0 <= i < |tags[k]| && i <= |v| && v[..i] == tags[k][..i] && (i == |v| || v[i] < tags[k][i])
    ensures Matches(rx, Relop(k, v, LE), tags) <==>
      Matches(rx, Relop(k, v, LT), tags) || Matches(rx, Relop(k, v, EQ), tags)
    ensures Matches(rx, Relop(k, v, GE), tags) <==>
      Matches(rx, Relop(k, v, GT), tags) || Matches(rx, Relop(k, v, EQ), tags)
  {
    if k in tags {
      StrLessIsBefore(tags[k], v); StrLessIsBefore(v, tags[k]);
      StrLessTotal(tags[k], v);
      forall i ensures BeforeAt(tags[k], v, i) <==>
        0 <= i < |v| && i <= |tags[k]| && tags[k][..i] == v[..i] && (i == |tags[k]| || tags[k][i] < v[i]) {}
      forall i ensures BeforeAt(v, tags[k], i) <==>
        0 <= i < |tags[k]| && i <= |v| && v[..i] == tags[k][..i] && (i == |v| || v[i] < tags[k][i]) {}
    }
  }

  /** The other leaves ask for some value of the key: any, one of a list, one the pattern accepts. */
  lemma LeavesSelect(rx: Regex, k: string, vs: seq<string>, p: string, ic: bool, tags: Tags)
    ensures Matches(rx, HasKey(k), tags) <==> exists v :: Matches(rx, Relop(k, v, EQ), tags)
    ensures Matches(rx, In(k, vs), tags) <==> exists v :: v in vs && Matches(rx, Relop(k, v, EQ), tags)
    ensures Matches(rx, RegexQuery(k, p, ic), tags) <==>
      exists v :: Matches(rx, Relop(k, v, EQ), tags) && rx(p, ic, v)
  {
    forall v ensures Matches(rx, Relop(k, v, EQ), tags) <==> k in tags && tags[k] == v {
      ComparisonsSelect(rx, k, v, tags);
    }
    if k in tags { assert Matches(rx, Relop(k, tags[k], EQ), tags); }
  }

  // ----- Equality and hashing -----

  /** Structural equality that also accepts swapped operands of And and Or. */
  predicate Equals(a: Query, b: Query)
    decreases Size(a) + Size(b)
  {
    match a
    case Not(x) => b.Not? && Equals(x, b.q)
    case Or(x, y) => b.Or? && ((Equals(b.q1, x) && Equals(b.q2, y)) || (Equals(b.q2, x) && Equals(b.q1, y)))
    case And(x, y) => b.And? && ((Equals(b.q1, x) && Equals(b.q2, y)) || (Equals(b.q1, y) && Equals(b.q2, x)))
    case _ => a == b
  }

  function TypeIndex(q: Query): bv64 {
    match q
    case HasKey(_) => 0
    case Relop(_, _, _) => 1
    case RegexQuery(_, _, _) => 2
    case In(_, _) => 3
    case True => 4
    case False => 5
    case Not(_) => 6
    case Or(_, _) => 7
    case And(_, _) => 8
  }

  function XorAll(h: string -> bv64, vs: seq<string>, acc: bv64): bv64 {
    if vs == [] then acc else XorAll(h, vs[1..], acc ^ h(vs[0]))
  }

  function Mix(a: bv64, b: bv64, t: bv64): (m: bv64)
    ensures m == b ^ a ^ t
  {
    a ^ b ^ t
  }

  function Leaf(t: bv64, a: bv64, b: bv64): bv64 { (t << 16) ^ a ^ b }

  /** 64-bit wrap-around arithmetic, as size_t. */
  function Hash(h: Hashers, q: Query): bv64 {
    match q
    case HasKey(k) => Leaf(TypeIndex(q), h.ref(k), 0)
    case Relop(k, v, _) => Leaf(TypeIndex(q), h.ref(k), h.ref(v))
    case RegexQuery(k, p, _) => Leaf(TypeIndex(q), h.ref(k), h.text(p))
    case In(k, vs) => XorAll(h.ref, vs, (TypeIndex(q) << 16) ^ h.ref(k))
    case True => TypeIndex(q)
    case False => TypeIndex(q)
    case Not(x) => Hash(h, x) - 1
    case Or(a, b) => Mix(Hash(h, a), Hash(h, b), TypeIndex(q))
    case And(a, b) => Mix(Hash(h, a), Hash(h, b), TypeIndex(q))
  }

  lemma {:induction false} EqualsReflexive(a: Query)
    ensures Equals(a, a)
  {
    match a
    case Not(x) => EqualsReflexive(x);
    case Or(x, y) => EqualsReflexive(x); EqualsReflexive(y);
    case And(x, y) => EqualsReflexive(x); EqualsReflexive(y);
    case _ =>
  }

  /** Equality sees through the order of operands, at every level; leaves are equal only to themselves. */
  lemma EqualsCongruent(a: Query, b: Query, x: Query, y: Query)
    requires Equals(a, x) && Equals(b, y)
    ensures Equals(And(a, b), And(x, y)) && Equals(And(a, b), And(y, x))
    ensures Equals(Or(a, b), Or(x, y)) && Equals(Or(a, b), Or(y, x))
    ensures Equals(Not(a), Not(x))
    ensures !Equals(And(a, b), Or(x, y)) && !Equals(Or(a, b), And(x, y))
    ensures !(a.Not? || a.And? || a.Or?) ==> a == x
  {
    EqualsSymmetric(a, x); EqualsSymmetric(b, y);
  }

  lemma {:induction false} EqualsSymmetric(a: Query, b: Query)
    ensures Equals(a, b) == Equals(b, a)
    decreases Size(a)
  {
    match a
    case Not(x) =>
      if b.Not? { EqualsSymmetric(x, b.q); }
    case Or(x, y) =>
      if b.Or? {
        EqualsSymmetric(x, b.q1); EqualsSymmetric(x, b.q2); EqualsSymmetric(y, b.q1); EqualsSymmetric(y, b.q2);
      }
    case And(x, y) =>
      if b.And? {
        EqualsSymmetric(x, b.q1); EqualsSymmetric(x, b.q2); EqualsSymmetric(y, b.q1); EqualsSymmetric(y, b.q2);
      }
    case _ =>
  }

  lemma {:induction false} EqualsTransitive(a: Query, b: Query, c: Query)
    requires Equals(a, b) && Equals(b, c)
    ensures Equals(a, c)
    decreases Size(b), 0
  {
    match b
    case Not(y) => EqualsTransitive(a.q, y, c.q);
    case Or(y1, y2) => PairTransitive(a.q1, a.q2, y1, y2, c.q1, c.q2);
    case And(y1, y2) => PairTransitive(a.q1, a.q2, y1, y2, c.q1, c.q2);
    case _ =>
  }

  /** Equal up to order, for two pairs of operands. */
  predicate PairEquals(a1: Query, a2: Query, b1: Query, b2: Query) {
    (Equals(b1, a1) && Equals(b2, a2)) || (Equals(b1, a2) && Equals(b2, a1))
  }

  lemma {:induction false} PairTransitive(a1: Query, a2: Query, b1: Query, b2: Query, c1: Query, c2: Query)
    requires PairEquals(a1, a2, b1, b2) && PairEquals(b1, b2, c1, c2)
    ensures PairEquals(a1, a2, c1, c2)
    decreases Size(b1) + Size(b2), 2
  {
    var i1 := if Equals(b1, a1) && Equals(b2, a2) then a1 else a2;
    var i2 := if Equals(b1, a1) && Equals(b2, a2) then a2 else a1;
    JoinThrough(c1, b1, i1); JoinThrough(c2, b1, i1);
    JoinThrough(c1, b2, i2); JoinThrough(c2, b2, i2);
  }

  lemma {:induction false} JoinThrough(c: Query, b: Query, a: Query)
    ensures Equals(c, b) && Equals(b, a) ==> Equals(c, a)
    decreases Size(b), 1
  {
    if Equals(c, b) && Equals(b, a) { EqualsTransitive(c, b, a); }
  }

  /** Equal queries hash alike, so hashed containers keyed by queries behave as containers modulo Equals. */
  lemma {:induction false} EqualsHash(h: Hashers, a: Query, b: Query)
    requires Equals(a, b)
    ensures Hash(h, a) == Hash(h, b)
    decreases Size(a) + Size(b)
  {
    match a
    case Not(x) => EqualsHash(h, x, b.q);
    case Or(x, y) => PairHash(h, x, y, b.q1, b.q2);
    case And(x, y) => PairHash(h, x, y, b.q1, b.q2);
    case _ =>
  }

  lemma {:induction false} PairHash(h: Hashers, x: Query, y: Query, p: Query, q: Query)
    requires PairEquals(x, y, p, q)
    ensures forall t :: Mix(Hash(h, x), Hash(h, y), t) == Mix(Hash(h, p), Hash(h, q), t)
    decreases Size(x) + Size(y) + Size(p) + Size(q)
  {
    if Equals(p, x) && Equals(q, y) {
      EqualsHash(h, p, x); EqualsHash(h, q, y);
    } else {
      EqualsHash(h, p, y); EqualsHash(h, q, x);
    }
  }

  lemma {:induction false} LeafCancels(t: bv64, a: bv64, b: bv64, c: bv64)
    ensures Leaf(t, a, b) == Leaf(t, a, c) ==> b == c
    ensures Leaf(t, b, a) == Leaf(t, c, a) ==> b == c
  {
  }

  lemma {:induction false} MixCancels(a: bv64, b: bv64, c: bv64, t: bv64)
    ensures Mix(a, b, t) == Mix(a, c, t) ==> b == c
  {
  }

  lemma {:induction false} MinusCancels(a: bv64, b: bv64)
    ensures a - 1 == b - 1 <==> a == b
  {
  }

  /** Every part of a leaf but its operator and its ignore-case flag enters its hash. */
  lemma {:induction false} HasSeparates(h: Hashers, k: string, l: string)
    requires Hash(h, HasKey(k)) == Hash(h, HasKey(l))
    ensures h.ref(k) == h.ref(l)
  {
    LeafCancels(TypeIndex(HasKey(k)), 0, h.ref(k), h.ref(l));
  }

  lemma {:induction false} RelopKeySeparates(h: Hashers, k: string, l: string, v: string, op: RelOp)
    requires Hash(h, Relop(k, v, op)) == Hash(h, Relop(l, v, op))
    ensures h.ref(k) == h.ref(l)
  {
    LeafCancels(TypeIndex(Relop(k, v, op)), h.ref(v), h.ref(k), h.ref(l));
  }

  lemma {:induction false} RelopValueSeparates(h: Hashers, k: string, v: string, w: string, op: RelOp)
    requires Hash(h, Relop(k, v, op)) == Hash(h, Relop(k, w, op))
    ensures h.ref(v) == h.ref(w)
  {
    LeafCancels(TypeIndex(Relop(k, v, op)), h.ref(k), h.ref(v), h.ref(w));
  }

  lemma {:induction false} PatternSeparates(h: Hashers, k: string, v: string, w: string, ic: bool)
    requires Hash(h, RegexQuery(k, v, ic)) == Hash(h, RegexQuery(k, w, ic))
    ensures h.text(v) == h.text(w)
  {
    LeafCancels(TypeIndex(RegexQuery(k, v, ic)), h.ref(k), h.text(v), h.text(w));
  }

  lemma {:induction false} NotSeparates(h: Hashers, a: Query, b: Query)
    requires Hash(h, Not(a)) == Hash(h, Not(b))
    ensures Hash(h, a) == Hash(h, b)
  {
    MinusCancels(Hash(h, a), Hash(h, b));
  }

  lemma {:induction false} OrSeparates(h: Hashers, a: Query, b: Query, c: Query)
    requires Hash(h, Or(a, b)) == Hash(h, Or(a, c))
    ensures Hash(h, b) == Hash(h, c)
  {
    MixCancels(Hash(h, a), Hash(h, b), Hash(h, c), TypeIndex(Or(a, b)));
  }

  lemma {:induction false} AndSeparates(h: Hashers, a: Query, b: Query, c: Query)
    requires Hash(h, And(a, b)) == Hash(h, And(a, c))
    ensures Hash(h, b) == Hash(h, c)
  {
    MixCancels(Hash(h, a), Hash(h, b), Hash(h, c), TypeIndex(And(a, b)));
  }

  lemma {:induction false} EqualsMatches(rx: Regex, a: Query, b: Query, tags: Tags)
    requires Equals(a, b)
    ensures Matches(rx, a, tags) == Matches(rx, b, tags)
    decreases Size(a) + Size(b)
  {
    match a
    case Not(x) => EqualsMatches(rx, x, b.q, tags);
    case Or(x, y) =>
      if Equals(b.q1, x) && Equals(b.q2, y) {
        EqualsMatches(rx, b.q1, x, tags); EqualsMatches(rx, b.q2, y, tags);
      } else {
        EqualsMatches(rx, b.q2, x, tags); EqualsMatches(rx, b.q1, y, tags);
      }
    case And(x, y) =>
      if Equals(b.q1, x) && Equals(b.q2, y) {
        EqualsMatches(rx, b.q1, x, tags); EqualsMatches(rx, b.q2, y, tags);
      } else {
        EqualsMatches(rx, b.q1, y, tags); EqualsMatches(rx, b.q2, x, tags);
      }
    case _ =>
  }

  // ----- Smart constructors -----

  predicate Expensive(q: Query) { q.RegexQuery? || q.And? || q.Or? }

  function NotQ(q: Query): Query {
    if q.False? then True else if q.True? then False else Not(q)
  }

  function OrQ(q1: Query, q2: Query): Query {
    if q1.True? then q1
    else if q2.True? then q2
    else if q1.False? then q2
    else if q2.False? then q1
    else if Equals(q1, q2) then q1
    else if Expensive(q1) then Or(q2, q1)
    else Or(q1, q2)
  }

  function AndQ(q1: Query, q2: Query): Query {
    if q1.False? then q1
    else if q2.False? then q2
    else if q1.True? then q2
    else if q2.True? then q1
    else if Equals(q1, q2) then q1
    else if Expensive(q1) then And(q2, q1)
    else And(q1, q2)
  }

  function AndFrom(acc: Query, qs: seq<Query>): Query
    decreases |qs|
  {
    if qs == [] then acc else AndFrom(AndQ(acc, qs[0]), qs[1..])
  }

  function AndQueries(qs: seq<Query>): Query { AndFrom(True, qs) }

  lemma SmartConstructors(rx: Regex, a: Query, b: Query, tags: Tags)
    ensures Matches(rx, NotQ(a), tags) == !Matches(rx, a, tags)
    ensures Matches(rx, OrQ(a, b), tags) == (Matches(rx, a, tags) || Matches(rx, b, tags))
    ensures Matches(rx, AndQ(a, b), tags) == (Matches(rx, a, tags) && Matches(rx, b, tags))
  {
    OrQMatches(rx, a, b, tags);
    AndQMatches(rx, a, b, tags);
  }

  lemma OrQMatches(rx: Regex, a: Query, b: Query, tags: Tags)
    ensures Matches(rx, OrQ(a, b), tags) == (Matches(rx, a, tags) || Matches(rx, b, tags))
  {
    if Equals(a, b) { EqualsMatches(rx, a, b, tags); }
  }

  lemma AndQMatches(rx: Regex, a: Query, b: Query, tags: Tags)
    ensures Matches(rx, AndQ(a, b), tags) == (Matches(rx, a, tags) && Matches(rx, b, tags))
  {
    if Equals(a, b) { EqualsMatches(rx, a, b, tags); }
  }

  /** What the constructors leave out: constants, doubled operands, and an expensive operand before a cheap one. */
  lemma SmartOperands(a: Query, b: Query)
    ensures var q := AndQ(a, b);
      q == And(a, b) || q == And(b, a) || q == a || q == b
    ensures var q := OrQ(a, b);
      q == Or(a, b) || q == Or(b, a) || q == a || q == b
    ensures AndQ(a, b) != a && AndQ(a, b) != b ==> Lean(a, b, AndQ(a, b).q1, AndQ(a, b).q2)
    ensures OrQ(a, b) != a && OrQ(a, b) != b ==> Lean(a, b, OrQ(a, b).q1, OrQ(a, b).q2)
  {
  }

  ghost predicate Lean(a: Query, b: Query, first: Query, second: Query) {
    && !a.True? && !a.False? && !b.True? && !b.False? && !Equals(a, b)
    && (first.RegexQuery? || first.And? || first.Or? ==> second.RegexQuery? || second.And? || second.Or?)
  }

  lemma {:induction false} AndFromMatches(rx: Regex, acc: Query, qs: seq<Query>, tags: Tags)
    ensures Matches(rx, AndFrom(acc, qs), tags) <==>
      Matches(rx, acc, tags) && forall q :: q in qs ==> Matches(rx, q, tags)
    decreases |qs|
  {
    if qs != [] {
      SmartConstructors(rx, acc, qs[0], tags);
      AndFromMatches(rx, AndQ(acc, qs[0]), qs[1..], tags);
      assert qs == [qs[0]] + qs[1..];
    }
  }

  /** What and_queries promises: the conjunction of the list, true for the empty list. */
  lemma AndQueriesMatches(rx: Regex, qs: seq<Query>, tags: Tags)
    ensures Matches(rx, AndQueries(qs), tags) <==> forall q :: q in qs ==> Matches(rx, q, tags)
  {
    AndFromMatches(rx, True, qs, tags);
  }

  // ----- Tags implied by a query -----

  function QueryTags(q: Query): Tags {
    match q
    case Relop(k, v, EQ) => map[k := v]
    case And(a, b) => QueryTags(a) + QueryTags(b)
    case _ => map[]
  }

  /** Every tag a query reports is carried by whatever the query matches. */
  lemma {:induction false} QueryTagsHold(rx: Regex, q: Query, tags: Tags)
    requires Matches(rx, q, tags)
    ensures forall k :: k in QueryTags(q) ==> k in tags && tags[k] == QueryTags(q)[k]
  {
    match q
    case And(a, b) => QueryTagsHold(rx, a, tags); QueryTagsHold(rx, b, tags);
    case _ =>
  }
}
