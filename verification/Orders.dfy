/** Least elements of finite sets. */
module Orders {

  ghost predicate TotalOn<T(!new)>(leq: (T, T) -> bool, items: set<T>) {
    forall a, b :: a in items && b in items ==> leq(a, b) || leq(b, a)
  }

  ghost predicate TransitiveOn<T(!new)>(leq: (T, T) -> bool, items: set<T>) {
    forall a, b, c :: a in items && b in items && c in items && leq(a, b) && leq(b, c) ==> leq(a, c)
  }

  predicate IsLeast<T(!new)>(leq: (T, T) -> bool, items: set<T>, least: T) {
    least in items && forall x :: x in items ==> leq(least, x)
  }

  /** A total and transitive order has a least element in every finite set that is not empty. */
  lemma {:induction false} LeastExists<T(!new)>(leq: (T, T) -> bool, items: set<T>)
    requires items != {} && TotalOn(leq, items) && TransitiveOn(leq, items)
    ensures exists least :: IsLeast(leq, items, least)
  {
    var one :| one in items;
    var rest := items - {one};
    if rest == {} {
      forall x | x in items ensures x == one {
        assert x !in rest;
      }
      assert IsLeast(leq, items, one);
    } else {
      LeastExists(leq, rest);
      var other :| IsLeast(leq, rest, other);
      assert IsLeast(leq, items, if leq(one, other) then one else other);
    }
  }
}
