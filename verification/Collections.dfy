/** Vector helpers (util/collections.h): each loop is proved against the sequence it denotes. */
module Collections {

  datatype Option<+T> = None | Some(value: T)

  /** `x` paired with every element of `v`, in order. */
  function Row<A, B, C>(x: A, v: seq<B>, f: (A, B) -> C): seq<C> {
    seq(|v|, i requires 0 <= i < |v| => f(x, v[i]))
  }

  /** Row-major cross product. */
  function CrossProduct<A, B, C>(v1: seq<A>, v2: seq<B>, f: (A, B) -> C): seq<C> {
    if v1 == [] then [] else Row(v1[0], v2, f) + CrossProduct(v1[1..], v2, f)
  }

  lemma {:induction false} CrossProductElements<A, B, C>(v1: seq<A>, v2: seq<B>, f: (A, B) -> C)
    ensures |CrossProduct(v1, v2, f)| == |v1| * |v2|
    ensures forall c :: c in CrossProduct(v1, v2, f) <==>
      exists x, y :: x in v1 && y in v2 && f(x, y) == c
  {
    if v1 != [] {
      CrossProductElements(v1[1..], v2, f);
      var row, rest := Row(v1[0], v2, f), CrossProduct(v1[1..], v2, f);
      assert v1 == [v1[0]] + v1[1..];
      forall c
        ensures c in row <==> exists y :: y in v2 && f(v1[0], y) == c
      {
        if c in row {
          var i :| 0 <= i < |row| && row[i] == c;
          assert v2[i] in v2 && f(v1[0], v2[i]) == c;
        }
        if y :| y in v2 && f(v1[0], y) == c {
          var i :| 0 <= i < |v2| && v2[i] == y;
          assert row[i] == c;
        }
      }
    }
  }

  lemma {:induction false} CrossProductSnoc<A, B, C>(v1: seq<A>, x: A, v2: seq<B>, f: (A, B) -> C)
    ensures CrossProduct(v1 + [x], v2, f) == CrossProduct(v1, v2, f) + Row(x, v2, f)
  {
    if v1 != [] {
      assert (v1 + [x])[1..] == v1[1..] + [x];
      CrossProductSnoc(v1[1..], x, v2, f);
    }
  }

  method VectorCrossProduct<A, B, C>(v1: seq<A>, v2: seq<B>, factory: (A, B) -> C) returns (result: seq<C>)
    ensures result == CrossProduct(v1, v2, factory)
  {
    result := [];
    for i := 0 to |v1|
      invariant result == CrossProduct(v1[..i], v2, factory)
    {
      CrossProductSnoc(v1[..i], v1[i], v2, factory);
      assert v1[..i + 1] == v1[..i] + [v1[i]];
      ghost var before := result;
      for j := 0 to |v2|
        invariant result == before + Row(v1[i], v2[..j], factory)
      {
        result := result + [factory(v1[i], v2[j])];
        assert Row(v1[i], v2[..j + 1], factory) == Row(v1[i], v2[..j], factory) + [factory(v1[i], v2[j])];
      }
      assert v2[..|v2|] == v2;
    }
    assert v1[..|v1|] == v1;
  }
}
