/** The memoised query index (interpreter/query_index.h). */
module QueryIndex {
  import opened Collections
  import opened Queries
  import opened Dnf

  datatype Entry<T> = Entry(query: Query, value: T)

  /** An entry guarded by a set of :eq filters. */
  datatype Annotated<T> = Annotated(entry: Entry<T>, filters: set<Query>)

  /** A trie node: one child per filter, and the entries left when no filter remains. */
  datatype Index<T> = Index(indexes: map<Query, Index<T>>, entries: seq<Entry<T>>)

  type AnnotatedList<T> = seq<Annotated<T>>

  // ----- Splitting :in -----

  const MAX_IN_EXPANSION := 5

  function EqQueries(k: string, vs: seq<string>): seq<Query> {
    seq(|vs|, i requires 0 <= i < |vs| => Relop(k, vs[i], EQ))
  }

  function Split(q: Query): seq<Query> {
    match q
    case And(a, b) => CrossProduct(Split(a), Split(b), AndQ)
    case In(k, vs) => if |vs| < MAX_IN_EXPANSION then EqQueries(k, vs) else [q]
    case _ => [q]
  }

  lemma {:induction false} SplitMatches(rx: Regex, q: Query, tags: Tags)
    ensures AnyMatches(rx, Split(q), tags) <==> Matches(rx, q, tags)
  {
    match q
    case And(a, b) =>
      SplitMatches(rx, a, tags); SplitMatches(rx, b, tags);
      AnyMatchesCross(rx, Split(a), Split(b), tags);
    case In(k, vs) =>
      if |vs| < MAX_IN_EXPANSION {
        var qs := EqQueries(k, vs);
        if i :| 0 <= i < |vs| && k in tags && vs[i] == tags[k] {
          assert qs[i] in qs && Matches(rx, qs[i], tags);
        }
      } else {
        SingleMatches(rx, q, tags);
      }
    case _ => SingleMatches(rx, q, tags);
  }

  // ----- Annotating an entry with its :eq filters -----

  function ConjunctionList(q: Query): seq<Query> {
    match q
    case And(a, b) => ConjunctionList(a) + ConjunctionList(b)
    case _ => [q]
  }

  lemma {:induction false} ConjunctionListMatches(rx: Regex, q: Query, tags: Tags)
    ensures Matches(rx, q, tags) <==> forall c :: c in ConjunctionList(q) ==> Matches(rx, c, tags)
  {
    match q
    case And(a, b) =>
      ConjunctionListMatches(rx, a, tags); ConjunctionListMatches(rx, b, tags);
      forall c | c in ConjunctionList(a) || c in ConjunctionList(b) ensures c in ConjunctionList(q) {}
    case _ => assert q in ConjunctionList(q);
  }

  /** The tags a query reports are one value for each key of its :eq conjuncts, and for no other key. */
  lemma {:induction false} QueryTagsExactly(q: Query, k: string)
    ensures k in QueryTags(q) <==> exists v :: Relop(k, v, EQ) in ConjunctionList(q)
    ensures k in QueryTags(q) ==> Relop(k, QueryTags(q)[k], EQ) in ConjunctionList(q)
  {
    match q
    case And(a, b) =>
      QueryTagsExactly(a, k); QueryTagsExactly(b, k);
      forall c | c in ConjunctionList(a) || c in ConjunctionList(b) ensures c in ConjunctionList(q) {}
    case Relop(key, v, op) => assert q in ConjunctionList(q);
    case _ =>
  }

  /** No :in of fewer than five values is left among the conjuncts of a clause; one of five or more is left whole. */
  lemma {:induction false} SplitExpands(q: Query)
    ensures forall c, x :: c in Split(q) && x in ConjunctionList(c) && x.In? ==> |x.vs| >= 5
    ensures q.In? && |q.vs| >= 5 ==> Split(q) == [q]
  {
    match q
    case And(a, b) =>
      SplitExpands(a); SplitExpands(b);
      CrossProductElements(Split(a), Split(b), AndQ);
      forall c, x | c in Split(q) && x in ConjunctionList(c) && x.In? ensures |x.vs| >= 5 {
        var y, z :| y in Split(a) && z in Split(b) && AndQ(y, z) == c;
        SmartOperands(y, z);
        assert x in ConjunctionList(y) || x in ConjunctionList(z);
      }
    case _ =>
  }

  predicate IsEq(q: Query) { q.Relop? && q.op == EQ }

  ghost predicate AllMatch(rx: Regex, qs: set<Query>, tags: Tags) {
    forall q :: q in qs ==> Matches(rx, q, tags)
  }

  ghost predicate Apart(d: set<Query>) { forall q, r :: q in d && r in d && q != r ==> !Equals(q, r) }

  ghost predicate Represented(d: set<Query>, q: Query) { exists r :: r in d && Equals(r, q) }

  /** `d` holds one representative of each class of Equals among `qs`. */
  ghost predicate Representatives(d: set<Query>, qs: seq<Query>) {
    && (forall q :: q in d ==> q in qs)
    && (forall q :: q in qs ==> Represented(d, q))
    && Apart(d)
  }

  /** A hash set of queries: the first of several Equal queries is kept. */
  method Distinct(qs: seq<Query>) returns (d: set<Query>)
    ensures Representatives(d, qs)
  {
    d := {};
    for i := 0 to |qs|
      invariant Representatives(d, qs[..i])
    {
      assert qs[..i + 1] == qs[..i] + [qs[i]];
      if !exists r | r in d :: Equals(r, qs[i]) {
        NewRepresentative(d, qs[..i], qs[i]);
        d := d + {qs[i]};
      } else {
        assert Represented(d, qs[i]);
      }
    }
    assert qs[..|qs|] == qs;
  }

  lemma NewRepresentative(d: set<Query>, qs: seq<Query>, q: Query)
    requires Representatives(d, qs) && forall r :: r in d ==> !Equals(r, q)
    ensures Representatives(d + {q}, qs + [q])
  {
    StillApart(d, q);
    forall p | p in qs + [q] ensures Represented(d + {q}, p) {
      if p in qs {
        var r :| r in d && Equals(r, p);
        assert r in d + {q};
      } else {
        EqualsReflexive(q);
        assert q in d + {q};
      }
    }
  }

  lemma StillApart(d: set<Query>, q: Query)
    requires Apart(d) && forall r :: r in d ==> !Equals(r, q)
    ensures Apart(d + {q})
  {
    forall r | r in d ensures !Equals(q, r) { EqualsSymmetric(r, q); }
  }

  /** Whatever matches the entry matches all the filters and the remaining query, and conversely. */
  ghost predicate AnnotationOf<T>(e: Entry<T>, a: Annotated<T>) {
    && a.entry.value == e.value
    && (forall f :: f in a.filters ==> IsEq(f))
    && (forall rx: Regex, tags: Tags ::
          Matches(rx, e.query, tags) <==> AllMatch(rx, a.filters, tags) && Matches(rx, a.entry.query, tags))
  }

  /** The :eq queries, and the rest. */
  method Partition(distinct: set<Query>) returns (filters: set<Query>, remainder: seq<Query>)
    ensures forall q :: q in filters <==> q in distinct && IsEq(q)
    ensures forall q :: q in remainder <==> q in distinct && !IsEq(q)
  {
    filters, remainder := {}, [];
    var pending := distinct;
    while pending != {}
      invariant pending <= distinct
      invariant forall q :: q in filters <==> q in distinct && q !in pending && IsEq(q)
      invariant forall q :: q in remainder <==> q in distinct && q !in pending && !IsEq(q)
      decreases |pending|
    {
      // hash order: any pending query may come next
      var q :| q in pending;
      pending := pending - {q};
      if q.Relop? {
        if q.op == EQ {
          filters := filters + {q};
        } else {
          remainder := remainder + [q];
        }
      } else {
        remainder := remainder + [q];
      }
    }
  }

  method Annotate<T>(entry: Entry<T>) returns (a: Annotated<T>)
    ensures AnnotationOf(entry, a)
    ensures forall q :: q in a.filters <==> q in ConjunctionList(entry.query) && IsEq(q)
    ensures (forall q :: q in ConjunctionList(entry.query) ==> IsEq(q)) ==> a.entry.query == True
  {
    var queries := ConjunctionList(entry.query);
    var distinct := Distinct(queries);
    var filters, remainder := Partition(distinct);
    var remainderQuery := if remainder == [] then True else AndQueries(remainder);
    a := Annotated(Entry(remainderQuery, entry.value), filters);

    assert (forall q :: q in queries ==> IsEq(q)) ==> forall i :: 0 <= i < |remainder| ==> remainder[i] !in remainder;
    forall rx: Regex, tags: Tags
      ensures Matches(rx, entry.query, tags) <==> AllMatch(rx, filters, tags) && Matches(rx, remainderQuery, tags)
    {
      AndQueriesMatches(rx, remainder, tags);
      ConjunctionListMatches(rx, entry.query, tags);
      RepresentativesMatch(rx, distinct, queries, tags);
      assert AllMatch(rx, distinct, tags) <==> AllMatch(rx, filters, tags) && Matches(rx, remainderQuery, tags) by {
        assert forall q :: q in distinct <==> q in filters || q in remainder;
      }
    }
  }

  lemma RepresentativesMatch(rx: Regex, d: set<Query>, qs: seq<Query>, tags: Tags)
    requires Representatives(d, qs)
    ensures AllMatch(rx, d, tags) <==> forall q :: q in qs ==> Matches(rx, q, tags)
  {
    forall q, r | q in qs && r in d && Equals(r, q) ensures Matches(rx, r, tags) == Matches(rx, q, tags) {
      EqualsMatches(rx, r, q, tags);
    }
  }

  // ----- What a list of annotated entries stands for -----

  /** Values of the entries whose filters are among `available` and whose query matches. */
  function Expected<T(==)>(rx: Regex, list: AnnotatedList<T>, tags: Tags, available: set<Query>): set<T> {
    set a | a in list && a.filters <= available && Matches(rx, a.entry.query, tags) :: a.entry.value
  }

  /** Entries with no filter left, in order. */
  function Leaf<T>(list: AnnotatedList<T>): seq<Entry<T>> {
    if list == [] then []
    else (if list[0].filters == {} then [list[0].entry] else []) + Leaf(list[1..])
  }

  /** Entries that have filter `f`, each with `f` taken away, in order. */
  function Step<T>(list: AnnotatedList<T>, f: Query): AnnotatedList<T> {
    if list == [] then []
    else
      (if f in list[0].filters then [Annotated(list[0].entry, list[0].filters - {f})] else []) + Step(list[1..], f)
  }

  function AllFilters<T>(list: AnnotatedList<T>): set<Query> {
    if list == [] then {} else list[0].filters + AllFilters(list[1..])
  }

  function MaxFilters<T>(list: AnnotatedList<T>): nat {
    if list == [] then 0
    else var rest := MaxFilters(list[1..]); if |list[0].filters| > rest then |list[0].filters| else rest
  }

  lemma {:induction false} MaxFiltersStep<T>(list: AnnotatedList<T>, f: Query)
    ensures MaxFilters(Step(list, f)) <= MaxFilters(list)
    ensures f in AllFilters(list) ==> MaxFilters(Step(list, f)) < MaxFilters(list)
    ensures f !in AllFilters(list) ==> Step(list, f) == []
  {
    if list != [] {
      MaxFiltersStep(list[1..], f);
      var a := list[0];
      if f in a.filters {
        var b := Annotated(a.entry, a.filters - {f});
        assert |b.filters| == |a.filters| - 1;
        assert Step(list, f) == [b] + Step(list[1..], f);
      } else {
        assert Step(list, f) == Step(list[1..], f);
      }
    }
  }

  lemma {:induction false} StepElements<T>(list: AnnotatedList<T>, f: Query)
    ensures forall b :: b in Step(list, f) <==>
      exists a :: a in list && f in a.filters && b == Annotated(a.entry, a.filters - {f})
    ensures forall a :: a in list && f in a.filters ==> Annotated(a.entry, a.filters - {f}) in Step(list, f)
  {
    if list != [] {
      StepElements(list[1..], f);
      assert list == [list[0]] + list[1..];
    }
  }

  lemma {:induction false} LeafElements<T>(list: AnnotatedList<T>)
    ensures forall e :: e in Leaf(list) <==> Annotated(e, {}) in list
  {
    if list != [] {
      LeafElements(list[1..]);
      assert list == [list[0]] + list[1..];
    }
  }

  lemma {:induction false} AllFiltersElements<T>(list: AnnotatedList<T>)
    ensures forall f :: f in AllFilters(list) <==> exists a :: a in list && f in a.filters
  {
    if list != [] {
      AllFiltersElements(list[1..]);
      assert list == [list[0]] + list[1..];
    }
  }

  lemma {:induction false} ListSnoc<T>(list: AnnotatedList<T>, a: Annotated<T>, f: Query)
    ensures Leaf(list + [a]) == Leaf(list) + (if a.filters == {} then [a.entry] else [])
    ensures AllFilters(list + [a]) == AllFilters(list) + a.filters
    ensures Step(list + [a], f) ==
      Step(list, f) + (if f in a.filters then [Annotated(a.entry, a.filters - {f})] else [])
  {
    if list != [] {
      assert (list + [a])[1..] == list[1..] + [a];
      ListSnoc(list[1..], a, f);
    }
  }

  // ----- Equality of memo keys -----

  predicate EntryEquals<T(==)>(x: Entry<T>, y: Entry<T>) {
    Equals(x.query, y.query) && x.value == y.value
  }

  predicate AnnotatedEquals<T(==)>(x: Annotated<T>, y: Annotated<T>) {
    EntryEquals(x.entry, y.entry) && x.filters == y.filters
  }

  predicate EntriesEqual<T(==)>(xs: seq<Entry<T>>, ys: seq<Entry<T>>) {
    |xs| == |ys| && forall i | 0 <= i < |xs| :: EntryEquals(xs[i], ys[i])
  }

  predicate ListEquals<T(==)>(xs: AnnotatedList<T>, ys: AnnotatedList<T>) {
    |xs| == |ys| && forall i | 0 <= i < |xs| :: AnnotatedEquals(xs[i], ys[i])
  }

  lemma {:induction false} EqualLists<T>(xs: AnnotatedList<T>, ys: AnnotatedList<T>, f: Query)
    requires ListEquals(xs, ys)
    ensures EntriesEqual(Leaf(xs), Leaf(ys))
    ensures AllFilters(xs) == AllFilters(ys)
    ensures ListEquals(Step(xs, f), Step(ys, f))
  {
    if xs != [] {
      assert AnnotatedEquals(xs[0], ys[0]);
      EqualLists(xs[1..], ys[1..], f);
    }
  }

  // ----- The trie invariant -----

  /** Node `n` is a trie for `list`, up to Equals on the queries at its leaves. */
  ghost predicate Represents<T>(n: Index<T>, list: AnnotatedList<T>)
    decreases n
  {
    && EntriesEqual(n.entries, Leaf(list))
    && n.indexes.Keys == AllFilters(list)
    && forall f :: f in n.indexes ==> Represents(n.indexes[f], Step(list, f))
  }

  /** A node may be shared by any list that is Equal to the one it was built for. */
  lemma {:induction false} RepresentsEqual<T>(n: Index<T>, xs: AnnotatedList<T>, ys: AnnotatedList<T>)
    requires Represents(n, xs) && ListEquals(xs, ys)
    ensures Represents(n, ys)
    decreases n
  {
    EqualLists(xs, ys, True);
    EntriesTransitive(n.entries, Leaf(xs), Leaf(ys));
    forall f | f in n.indexes ensures Represents(n.indexes[f], Step(ys, f)) {
      EqualLists(xs, ys, f);
      RepresentsEqual(n.indexes[f], Step(xs, f), Step(ys, f));
    }
  }

  lemma EntriesTransitive<T>(xs: seq<Entry<T>>, ys: seq<Entry<T>>, zs: seq<Entry<T>>)
    requires EntriesEqual(xs, ys) && EntriesEqual(ys, zs)
    ensures EntriesEqual(xs, zs)
  {
    forall i | 0 <= i < |xs| ensures EntryEquals(xs[i], zs[i]) {
      assert EntryEquals(xs[i], ys[i]) && EntryEquals(ys[i], zs[i]);
      EqualsTransitive(xs[i].query, ys[i].query, zs[i].query);
    }
  }

  // ----- Walking the trie -----

  function SlowMatches<T(==)>(rx: Regex, n: Index<T>, tags: Tags): set<T> {
    set e | e in n.entries && Matches(rx, e.query, tags) :: e.value
  }

  function MatchingEntries<T(==)>(rx: Regex, n: Index<T>, tags: Tags, queries: seq<Query>): set<T>
    decreases |queries|, 0
  {
    if queries == [] then SlowMatches(rx, n, tags)
    else
      ChildMatches(rx, n, tags, queries[0], queries[1..])
      + SlowMatches(rx, n, tags)
      + MatchingEntries(rx, n, tags, queries[1..])
  }

  function ChildMatches<T(==)>(rx: Regex, n: Index<T>, tags: Tags, q: Query, rest: seq<Query>): set<T>
    decreases |rest|, 1
  {
    if q in n.indexes then MatchingEntries(rx, n.indexes[q], tags, rest) else {}
  }

  function Elements(queries: seq<Query>): set<Query> { set q | q in queries }

  lemma SlowMatchesLeaf<T>(rx: Regex, n: Index<T>, list: AnnotatedList<T>, tags: Tags)
    requires Represents(n, list)
    ensures SlowMatches(rx, n, tags) == Expected(rx, list, tags, {})
  {
    var leaf := Leaf(list);
    LeafElements(list);
    forall i | 0 <= i < |leaf|
      ensures leaf[i].value == n.entries[i].value
      ensures Matches(rx, n.entries[i].query, tags) == Matches(rx, leaf[i].query, tags)
    {
      assert EntryEquals(n.entries[i], leaf[i]);
      EqualsMatches(rx, n.entries[i].query, leaf[i].query, tags);
    }
    forall v | v in SlowMatches(rx, n, tags) ensures v in Expected(rx, list, tags, {}) {
      var e :| e in n.entries && Matches(rx, e.query, tags) && e.value == v;
      var i :| 0 <= i < |n.entries| && n.entries[i] == e;
      assert leaf[i] in leaf && Annotated(leaf[i], {}) in list;
    }
    forall v | v in Expected(rx, list, tags, {}) ensures v in SlowMatches(rx, n, tags) {
      var a :| a in list && a.filters <= {} && Matches(rx, a.entry.query, tags) && a.entry.value == v;
      assert a == Annotated(a.entry, {});
      var i :| 0 <= i < |leaf| && leaf[i] == a.entry;
      assert n.entries[i] in n.entries;
    }
  }

  lemma ExpectedSplit<T>(rx: Regex, list: AnnotatedList<T>, tags: Tags, q: Query, rest: set<Query>)
    ensures Expected(rx, list, tags, {q} + rest) ==
      Expected(rx, Step(list, q), tags, rest) + Expected(rx, list, tags, rest)
    ensures Expected(rx, list, tags, {}) <= Expected(rx, list, tags, rest)
  {
    StepElements(list, q);
    forall v | v in Expected(rx, list, tags, {q} + rest)
      ensures v in Expected(rx, Step(list, q), tags, rest) + Expected(rx, list, tags, rest)
    {
      var a :| a in list && a.filters <= {q} + rest && Matches(rx, a.entry.query, tags) && a.entry.value == v;
      if q in a.filters {
        var b := Annotated(a.entry, a.filters - {q});
        assert b in Step(list, q) && b.filters <= rest;
      }
    }
    forall v | v in Expected(rx, Step(list, q), tags, rest) ensures v in Expected(rx, list, tags, {q} + rest) {
      var b :| b in Step(list, q) && b.filters <= rest && Matches(rx, b.entry.query, tags) && b.entry.value == v;
      var a :| a in list && q in a.filters && b == Annotated(a.entry, a.filters - {q});
      assert a.filters <= {q} + rest;
    }
  }

  /** What a node yields for any remaining tag queries, in any order and with repetitions. */
  lemma {:induction false} MatchingEntriesCorrect<T>(
    rx: Regex, n: Index<T>, list: AnnotatedList<T>, tags: Tags, queries: seq<Query>)
    requires Represents(n, list)
    ensures MatchingEntries(rx, n, tags, queries) == Expected(rx, list, tags, Elements(queries))
    decreases |queries|, 1
  {
    SlowMatchesLeaf(rx, n, list, tags);
    if queries == [] {
      assert Elements(queries) == {};
    } else {
      var q, rest := queries[0], queries[1..];
      assert queries == [q] + rest;
      MatchingEntriesCorrect(rx, n, list, tags, rest);
      ChildCorrect(rx, n, list, tags, q, rest);
      ExpectedSplit(rx, list, tags, q, Elements(rest));
      ElementsCons(q, rest);
      JoinParts(ChildMatches(rx, n, tags, q, rest), SlowMatches(rx, n, tags), MatchingEntries(rx, n, tags, rest));
    }
  }

  lemma {:induction false} ChildCorrect<T>(
    rx: Regex, n: Index<T>, list: AnnotatedList<T>, tags: Tags, q: Query, rest: seq<Query>)
    requires Represents(n, list)
    ensures ChildMatches(rx, n, tags, q, rest) == Expected(rx, Step(list, q), tags, Elements(rest))
    decreases |rest| + 1, 0
  {
    if q in n.indexes {
      MatchingEntriesCorrect(rx, n.indexes[q], Step(list, q), tags, rest);
    } else {
      MaxFiltersStep(list, q);
    }
  }

  lemma JoinParts<T>(child: set<T>, slow: set<T>, rest: set<T>)
    requires slow <= rest
    ensures child + slow + rest == child + rest
  {
  }

  lemma ElementsCons(q: Query, rest: seq<Query>)
    ensures Elements([q] + rest) == {q} + Elements(rest)
  {
  }

  // ----- Building the trie -----

  /** The memo of built nodes. Its hash depends on set iteration order, so a lookup may miss a stored key. */
  class IndexMemo<T(==)> {
    var table: seq<(AnnotatedList<T>, Index<T>)>

    ghost predicate Valid()
      reads this
    {
      forall p :: p in table ==> Represents(p.1, p.0)
    }

    constructor ()
      ensures Valid() && table == []
    {
      table := [];
    }

    method Find(list: AnnotatedList<T>) returns (r: Option<Index<T>>)
      requires Valid()
      ensures r.Some? ==> Represents(r.value, list)
      ensures r.Some? ==> exists p :: p in table && ListEquals(p.0, list) && p.1 == r.value
    {
      var i := 0;
      while i < |table| {
        if * {
          // the probe sequence for this hash skips the slot
        } else if ListEquals(table[i].0, list) {
          assert table[i] in table;
          RepresentsEqual(table[i].1, table[i].0, list);
          return Some(table[i].1);
        }
        i := i + 1;
      }
      return None;
    }

    method Insert(list: AnnotatedList<T>, node: Index<T>)
      requires Valid() && Represents(node, list)
      modifies this
      ensures Valid()
      ensures table == old(table) + [(list, node)]
        || (table == old(table) && exists p :: p in table && ListEquals(p.0, list))
    {
      var found := Find(list);
      if found.None? {
        table := table + [(list, node)];
      }
    }
  }

  ghost function Firsts<T>(pairs: seq<(Query, Annotated<T>)>): set<Query> { set p | p in pairs :: p.0 }

  /** The pairs are one per filter in `visited`: the filter, and the entry without it. */
  ghost predicate PairsOf<T>(a: Annotated<T>, pairs: seq<(Query, Annotated<T>)>, visited: set<Query>) {
    && (forall p :: p in pairs ==> p.1 == Annotated(a.entry, a.filters - {p.0}))
    && Firsts(pairs) == visited
    && (forall i, j :: 0 <= i < j < |pairs| ==> pairs[i].0 != pairs[j].0)
  }

  method ToQueryAnnotatedList<T>(a: Annotated<T>) returns (res: seq<(Query, Annotated<T>)>)
    ensures PairsOf(a, res, a.filters)
  {
    res := [];
    var pending := a.filters;
    while pending != {}
      invariant pending <= a.filters
      invariant PairsOf(a, res, a.filters - pending)
      decreases |pending|
    {
      var f :| f in pending;
      var p := (f, Annotated(a.entry, a.filters - {f}));
      PairsSnoc(a, res, a.filters - pending, p);
      assert a.filters - (pending - {f}) == a.filters - pending + {f};
      res := res + [p];
      pending := pending - {f};
    }
    assert a.filters - pending == a.filters;
  }

  lemma PairsSnoc<T>(a: Annotated<T>, pairs: seq<(Query, Annotated<T>)>, visited: set<Query>, p: (Query, Annotated<T>))
    requires PairsOf(a, pairs, visited) && p.0 !in visited && p.1 == Annotated(a.entry, a.filters - {p.0})
    ensures PairsOf(a, pairs + [p], visited + {p.0})
  {
    assert forall q :: q in pairs ==> q.0 in Firsts(pairs);
    assert Firsts(pairs + [p]) == Firsts(pairs) + {p.0} by { assert p in pairs + [p]; }
  }

  /** `grouped` holds the groups of `done`, plus those of `a` for its `visited` filters. */
  ghost predicate GroupedSoFar<T>(
    grouped: map<Query, AnnotatedList<T>>, done: AnnotatedList<T>, a: Annotated<T>, visited: set<Query>)
  {
    && grouped.Keys == AllFilters(done) + visited
    && forall f :: f in grouped ==>
         grouped[f] == Step(done, f) + (if f in visited then [Annotated(a.entry, a.filters - {f})] else [])
  }

  method GroupOne<T>(start: map<Query, AnnotatedList<T>>, ghost done: AnnotatedList<T>, a: Annotated<T>)
    returns (grouped: map<Query, AnnotatedList<T>>)
    requires GroupedSoFar(start, done, a, {})
    ensures GroupedSoFar(grouped, done, a, a.filters)
  {
    grouped := start;
    var pairs := ToQueryAnnotatedList(a);
    for j := 0 to |pairs|
      invariant GroupedSoFar(grouped, done, a, Firsts(pairs[..j]))
    {
      var p := pairs[j];
      FirstsSnoc(a, pairs, j);
      AddToGroup(grouped, done, a, Firsts(pairs[..j]), p.0);
      grouped := grouped[p.0 := (if p.0 in grouped then grouped[p.0] else []) + [p.1]];
    }
    assert pairs[..|pairs|] == pairs;
  }

  lemma FirstsSnoc<T>(a: Annotated<T>, pairs: seq<(Query, Annotated<T>)>, j: nat)
    requires j < |pairs| && PairsOf(a, pairs, a.filters)
    ensures Firsts(pairs[..j + 1]) == Firsts(pairs[..j]) + {pairs[j].0}
    ensures pairs[j].0 !in Firsts(pairs[..j]) && pairs[j].0 in a.filters
    ensures pairs[j].1 == Annotated(a.entry, a.filters - {pairs[j].0})
  {
    assert pairs[..j + 1] == pairs[..j] + [pairs[j]];
    assert pairs[j] in pairs && pairs[j] in pairs[..j + 1];
    forall p | p in pairs[..j] ensures p.0 != pairs[j].0 {
      var i :| 0 <= i < j && pairs[i] == p;
    }
  }

  lemma AddToGroup<T>(
    grouped: map<Query, AnnotatedList<T>>, done: AnnotatedList<T>, a: Annotated<T>, visited: set<Query>, f: Query)
    requires GroupedSoFar(grouped, done, a, visited) && f !in visited
    ensures GroupedSoFar(
      grouped[f := (if f in grouped then grouped[f] else []) + [Annotated(a.entry, a.filters - {f})]],
      done, a, visited + {f})
  {
    MaxFiltersStep(done, f);
    var one := [Annotated(a.entry, a.filters - {f})];
    var sofar := if f in grouped then grouped[f] else [];
    assert sofar == Step(done, f);
    var after := grouped[f := sofar + one];
    assert after.Keys == AllFilters(done) + (visited + {f});
    forall g | g in after
      ensures after[g] == Step(done, g) + (if g in visited + {f} then [Annotated(a.entry, a.filters - {g})] else [])
    {
      if g != f { assert g in visited <==> g in visited + {f}; }
    }
  }

  /** Group the annotated entries by each of their filters. */
  method GroupByFilter<T>(children: AnnotatedList<T>) returns (grouped: map<Query, AnnotatedList<T>>)
    ensures grouped.Keys == AllFilters(children)
    ensures forall f :: f in grouped ==> grouped[f] == Step(children, f)
  {
    grouped := map[];
    for i := 0 to |children|
      invariant grouped.Keys == AllFilters(children[..i])
      invariant forall f :: f in grouped ==> grouped[f] == Step(children[..i], f)
    {
      grouped := GroupOne(grouped, children[..i], children[i]);
      assert children[..i + 1] == children[..i] + [children[i]];
      forall f ensures f in grouped ==> grouped[f] == Step(children[..i + 1], f) {
        ListSnoc(children[..i], children[i], f);
      }
      ListSnoc(children[..i], children[i], True);
    }
    assert children[..|children|] == children;
  }

  /** std::partition_copy on "has filters". */
  function Children<T>(list: AnnotatedList<T>): AnnotatedList<T> {
    if list == [] then []
    else (if list[0].filters != {} then [list[0]] else []) + Children(list[1..])
  }

  lemma {:induction false} ChildrenKeepFilters<T>(list: AnnotatedList<T>)
    ensures AllFilters(Children(list)) == AllFilters(list)
  {
    if list != [] {
      ChildrenKeepFilters(list[1..]);
      if list[0].filters != {} {
        assert Children(list) == [list[0]] + Children(list[1..]);
      } else {
        assert Children(list) == Children(list[1..]);
      }
    }
  }

  lemma {:induction false} ChildrenKeepSteps<T>(list: AnnotatedList<T>, f: Query)
    ensures Step(Children(list), f) == Step(list, f)
  {
    if list != [] {
      ChildrenKeepSteps(list[1..], f);
      if list[0].filters != {} {
        assert Children(list) == [list[0]] + Children(list[1..]);
      } else {
        assert Children(list) == Children(list[1..]);
      }
    }
  }

  method GroupChildren<T>(list: AnnotatedList<T>) returns (grouped: map<Query, AnnotatedList<T>>)
    ensures grouped.Keys == AllFilters(list)
    ensures forall f :: f in grouped ==> grouped[f] == Step(list, f)
  {
    grouped := GroupByFilter(Children(list));
    ChildrenKeepFilters(list);
    forall f ensures Step(Children(list), f) == Step(list, f) { ChildrenKeepSteps(list, f); }
  }

  method CreateImpl<T>(memo: IndexMemo<T>, list: AnnotatedList<T>) returns (node: Index<T>)
    requires memo.Valid()
    modifies memo
    ensures memo.Valid()
    ensures Represents(node, list)
    decreases MaxFilters(list)
  {
    var found := memo.Find(list);
    if found.Some? {
      return found.value;
    }
    var grouped := GroupChildren(list);
    var trees: map<Query, Index<T>> := map[];
    var pending := grouped.Keys;
    while pending != {}
      invariant memo.Valid()
      invariant pending <= grouped.Keys
      invariant trees.Keys == grouped.Keys - pending
      invariant forall f :: f in trees ==> Represents(trees[f], Step(list, f))
      decreases |pending|
    {
      var f :| f in pending;
      pending := pending - {f};
      MaxFiltersStep(list, f);
      var tree := CreateImpl(memo, grouped[f]);
      trees := trees[f := tree];
    }
    node := Index(trees, Leaf(list));
    NodeRepresents(node, list);
    memo.Insert(list, node);
  }

  lemma NodeRepresents<T>(n: Index<T>, list: AnnotatedList<T>)
    requires n.entries == Leaf(list) && n.indexes.Keys == AllFilters(list)
    requires forall f :: f in n.indexes ==> Represents(n.indexes[f], Step(list, f))
    ensures Represents(n, list)
  {
    var xs := n.entries;
    forall i | 0 <= i < |xs| ensures EntryEquals(xs[i], xs[i]) { EqualsReflexive(xs[i].query); }
  }

  // ----- End to end -----

  /** The specification: values of the entries whose query matches. */
  function MatchingValues<T(==)>(rx: Regex, entries: seq<Entry<T>>, tags: Tags): set<T> {
    set e | e in entries && Matches(rx, e.query, tags) :: e.value
  }

  /** One :eq query for each tag. */
  function TagQueries(tags: Tags): set<Query> {
    set k | k in tags :: Relop(k, tags[k], EQ)
  }

  lemma FiltersAmongTags(rx: Regex, filters: set<Query>, tags: Tags)
    requires forall f :: f in filters ==> IsEq(f)
    ensures filters <= TagQueries(tags) <==> AllMatch(rx, filters, tags)
  {
    forall f | f in filters ensures f in TagQueries(tags) <==> Matches(rx, f, tags) {
      if Matches(rx, f, tags) {
        assert f == Relop(f.key, tags[f.key], EQ);
      }
    }
  }

  /** The annotated clauses stand for the entries they were made from. */
  ghost predicate Covers<T>(annotated: AnnotatedList<T>, entries: seq<Entry<T>>) {
    forall rx: Regex, tags: Tags ::
      Expected(rx, annotated, tags, TagQueries(tags)) == MatchingValues(rx, entries, tags)
  }

  lemma CoversConcat<T>(l1: AnnotatedList<T>, e1: seq<Entry<T>>, l2: AnnotatedList<T>, e2: seq<Entry<T>>)
    requires Covers(l1, e1) && Covers(l2, e2)
    ensures Covers(l1 + l2, e1 + e2)
  {
    forall rx: Regex, tags: Tags
      ensures Expected(rx, l1 + l2, tags, TagQueries(tags)) == MatchingValues(rx, e1 + e2, tags)
    {
      var available := TagQueries(tags);
      assert Expected(rx, l1 + l2, tags, available) ==
        Expected(rx, l1, tags, available) + Expected(rx, l2, tags, available);
      assert MatchingValues(rx, e1 + e2, tags) == MatchingValues(rx, e1, tags) + MatchingValues(rx, e2, tags);
    }
  }

  lemma CoversOne<T>(e: Entry<T>, a: Annotated<T>)
    requires AnnotationOf(e, a)
    ensures Covers([a], [e])
  {
    forall rx: Regex, tags: Tags
      ensures Expected(rx, [a], tags, TagQueries(tags)) == MatchingValues(rx, [e], tags)
    {
      FiltersAmongTags(rx, a.filters, tags);
      assert Matches(rx, e.query, tags) <==> AllMatch(rx, a.filters, tags) && Matches(rx, a.entry.query, tags);
      assert a in [a] && e in [e];
    }
  }

  /** Entries for `qs`, all carrying the same value. */
  function WithValue<T>(qs: seq<Query>, value: T): seq<Entry<T>> {
    seq(|qs|, i requires 0 <= i < |qs| => Entry(qs[i], value))
  }

  lemma WithValueMatches<T>(rx: Regex, qs: seq<Query>, value: T, tags: Tags)
    ensures MatchingValues(rx, WithValue(qs, value), tags) == if AnyMatches(rx, qs, tags) then {value} else {}
  {
    var es := WithValue(qs, value);
    if q :| q in qs && Matches(rx, q, tags) {
      var i :| 0 <= i < |qs| && qs[i] == q;
      assert es[i] in es;
    }
  }

  lemma CoversSplit<T>(annotated: AnnotatedList<T>, q: Query, value: T)
    requires Covers(annotated, WithValue(Split(q), value))
    ensures Covers(annotated, [Entry(q, value)])
  {
    forall rx: Regex, tags: Tags
      ensures Expected(rx, annotated, tags, TagQueries(tags)) == MatchingValues(rx, [Entry(q, value)], tags)
    {
      WithValueMatches(rx, Split(q), value, tags);
      SplitMatches(rx, q, tags);
      assert Entry(q, value) in [Entry(q, value)];
    }
  }

  lemma CoversDnf<T>(annotated: AnnotatedList<T>, q: Query, value: T)
    requires Covers(annotated, WithValue(DnfList(q), value))
    ensures Covers(annotated, [Entry(q, value)])
  {
    forall rx: Regex, tags: Tags
      ensures Expected(rx, annotated, tags, TagQueries(tags)) == MatchingValues(rx, [Entry(q, value)], tags)
    {
      WithValueMatches(rx, DnfList(q), value, tags);
      DnfListMatches(rx, q, tags);
      assert Entry(q, value) in [Entry(q, value)];
    }
  }

  method AnnotateSplit<T(==)>(q: Query, value: T) returns (annotated: AnnotatedList<T>)
    ensures Covers(annotated, [Entry(q, value)])
  {
    var lst := Split(q);
    annotated := [];
    for i := 0 to |lst|
      invariant Covers(annotated, WithValue(lst[..i], value))
    {
      var a := Annotate(Entry(lst[i], value));
      CoversOne(Entry(lst[i], value), a);
      CoversConcat(annotated, WithValue(lst[..i], value), [a], [Entry(lst[i], value)]);
      annotated := annotated + [a];
      assert WithValue(lst[..i + 1], value) == WithValue(lst[..i], value) + [Entry(lst[i], value)];
    }
    assert lst[..|lst|] == lst;
    CoversSplit(annotated, q, value);
  }

  method AnnotateEntry<T(==)>(entry: Entry<T>) returns (annotated: AnnotatedList<T>)
    ensures Covers(annotated, [entry])
  {
    var clauses := DnfList(entry.query);
    annotated := [];
    for i := 0 to |clauses|
      invariant Covers(annotated, WithValue(clauses[..i], entry.value))
    {
      var part := AnnotateSplit(clauses[i], entry.value);
      CoversConcat(annotated, WithValue(clauses[..i], entry.value), part, [Entry(clauses[i], entry.value)]);
      annotated := annotated + part;
      assert WithValue(clauses[..i + 1], entry.value) ==
        WithValue(clauses[..i], entry.value) + [Entry(clauses[i], entry.value)];
    }
    assert clauses[..|clauses|] == clauses;
    CoversDnf(annotated, entry.query, entry.value);
  }

  /** `n` answers every lookup as the entries do, whatever order the tags are visited in. */
  ghost predicate Indexes<T>(n: Index<T>, entries: seq<Entry<T>>) {
    forall rx: Regex, tags: Tags, queries: seq<Query> ::
      Elements(queries) == TagQueries(tags) ==>
        MatchingEntries(rx, n, tags, queries) == MatchingValues(rx, entries, tags)
  }

  lemma CoveringTrieIndexes<T>(n: Index<T>, annotated: AnnotatedList<T>, entries: seq<Entry<T>>)
    requires Represents(n, annotated) && Covers(annotated, entries)
    ensures Indexes(n, entries)
  {
    forall rx: Regex, tags: Tags, queries: seq<Query> | Elements(queries) == TagQueries(tags)
      ensures MatchingEntries(rx, n, tags, queries) == MatchingValues(rx, entries, tags)
    {
      MatchingEntriesCorrect(rx, n, annotated, tags, queries);
    }
  }

  method Create<T(==)>(entries: seq<Entry<T>>) returns (node: Index<T>)
    ensures Indexes(node, entries)
  {
    var annotated: AnnotatedList<T> := [];
    for i := 0 to |entries|
      invariant Covers(annotated, entries[..i])
    {
      var part := AnnotateEntry(entries[i]);
      CoversConcat(annotated, entries[..i], part, [entries[i]]);
      annotated := annotated + part;
      assert entries[..i + 1] == entries[..i] + [entries[i]];
    }
    assert entries[..|entries|] == entries;
    var memo := new IndexMemo<T>();
    node := CreateImpl(memo, annotated);
    CoveringTrieIndexes(node, annotated, entries);
  }

  method MatchTags<T(==)>(rx: Regex, n: Index<T>, tags: Tags) returns (values: set<T>)
    ensures exists queries :: Elements(queries) == TagQueries(tags) && values == MatchingEntries(rx, n, tags, queries)
  {
    var qs: seq<Query> := [];
    var pending := tags.Keys;
    while pending != {}
      invariant pending <= tags.Keys
      invariant forall q :: q in qs <==> q in TagQueries(tags) && q.key !in pending
      decreases |pending|
    {
      var k :| k in pending;
      pending := pending - {k};
      qs := qs + [Relop(k, tags[k], EQ)];
    }
    values := MatchingEntries(rx, n, tags, qs);
    assert Elements(qs) == TagQueries(tags);
  }

  /** Build an index and query it: exactly the values of the matching entries, and Matches is non-emptiness. */
  method CreateAndMatch<T(==)>(rx: Regex, entries: seq<Entry<T>>, tags: Tags) returns (values: set<T>, matches: bool)
    ensures values == MatchingValues(rx, entries, tags)
    ensures matches <==> exists e :: e in entries && Matches(rx, e.query, tags)
  {
    var node := Create(entries);
    values := MatchTags(rx, node, tags);
    matches := values != {};
    forall e | e in entries && Matches(rx, e.query, tags) ensures e.value in values {}
    assert matches ==> exists v :: v in values;
  }
}
