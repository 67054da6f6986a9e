/** Facts about finite sets that the verifier needs spelled out. */
module Sets {

  /** Two sets with the same members are equal. */
  lemma Extensional<T>(a: set<T>, b: set<T>)
    requires forall x :: x in a <==> x in b
    ensures a == b
  {
    assert forall x :: x in a <==> x in b;
  }

  /** A set without members is empty. */
  lemma NoElementEmpty<T>(s: set<T>)
    requires forall x :: x !in s
    ensures s == {}
  {
    assert forall x :: x in s <==> x in {};
  }

  /** A member of a non-empty set. */
  lemma Pick<T>(s: set<T>) returns (x: T)
    requires s != {}
    ensures x in s
  {
    if forall y :: y !in s {
      NoElementEmpty(s);
      assert false;
    }
    x :| x in s;
  }

  /** A proper subset is strictly smaller. */
  lemma ProperSubsetCard<T>(a: set<T>, b: set<T>, x: T)
    requires a <= b && x in b && x !in a
    ensures |a| < |b|
  {
    var d := b - a;
    assert x in d;
    assert |d| != 0;
    assert forall y :: y in b <==> y in a + d;
    assert b == a + d;
    assert forall y :: y in a * d <==> y in {};
    assert a * d == {};
  }

  /** A subset as large as its superset is the superset. */
  lemma SubsetSameCardEqual<T>(a: set<T>, b: set<T>)
    requires a <= b && |a| == |b|
    ensures a == b
  {
    if exists x :: x in b && x !in a {
      var x :| x in b && x !in a;
      ProperSubsetCard(a, b, x);
      assert false;
    }
    Extensional(a, b);
  }
}
