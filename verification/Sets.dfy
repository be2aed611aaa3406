/** Finite sums over sets, and the members of non-empty sets. */
module Sets {
  lemma HasMember(s: set<int>)
    ensures s == {} || exists x :: x in s
  {
    if forall x :: x !in s {
      assert s == {};
    }
  }

  lemma DisjointSizes(a: set<int>, b: set<int>)
    requires a !! b
    ensures |a + b| == |a| + |b|
  {
  }

  lemma Fewer(a: set<int>, b: set<int>)
    requires a <= b
    ensures |a| <= |b|
  {
    DisjointSizes(a, b - a);
    assert a + (b - a) == b;
  }

  ghost function Pick(s: set<int>): (x: int)
    requires s != {}
    ensures x in s
  {
    HasMember(s);
    var x :| x in s; x
  }

  lemma {:induction false} LeastExists(s: set<int>) returns (least: int)
    requires s != {}
    ensures least in s && forall x :: x in s ==> least <= x
    decreases |s|
  {
    HasMember(s);
    least :| least in s;
    var rest := s - {least};
    if rest != {} {
      var other := LeastExists(rest);
      least := if other < least then other else least;
      assert forall x :: x in s ==> x in rest || x == least || other <= x;
    }
  }

  ghost function Sum(s: set<int>, f: int -> int): int {
    if s == {} then 0 else f(Pick(s)) + Sum(s - {Pick(s)}, f)
  }

  lemma {:induction false} SumMonotone(s: set<int>, f: int -> int, g: int -> int)
    requires forall x :: x in s ==> f(x) <= g(x)
    ensures Sum(s, f) <= Sum(s, g)
  {
    if s != {} {
      SumMonotone(s - {Pick(s)}, f, g);
    }
  }

  /** Pigeonhole: what is smaller in total is smaller somewhere. */
  lemma SmallerSomewhere(s: set<int>, f: int -> int, g: int -> int) returns (x: int)
    requires Sum(s, f) < Sum(s, g)
    ensures x in s && f(x) < g(x)
  {
    if forall y :: y in s ==> g(y) <= f(y) {
      SumMonotone(s, g, f);
    }
    x :| x in s && f(x) < g(x);
  }
}
