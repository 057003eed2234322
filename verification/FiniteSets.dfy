/** Choosing from finite sets of integers. */
module FiniteSets {

  lemma Witness<T>(s: set<T>) returns (x: T)
    requires s != {}
    ensures x in s
  {
    x :| x in s;
  }

  lemma Outsider<T>(a: set<T>, b: set<T>) returns (x: T)
    requires !(a <= b)
    ensures x in a && x !in b
  {
    x :| x in a && x !in b;
  }

  lemma SubsetByElements(a: set<int>, b: set<int>)
    requires forall x | x in a :: x in b
    ensures a <= b
  {
    if !(a <= b) {
      var x := Outsider(a, b);
      assert false;
    }
  }

  lemma SameByElements(a: set<int>, b: set<int>)
    requires forall x :: x in a <==> x in b
    ensures a == b
  {
    SubsetByElements(a, b);
    SubsetByElements(b, a);
  }

  lemma StrictSubsetIsSmaller<T>(a: set<T>, b: set<T>)
    requires a < b
    ensures |a| < |b|
  {
    assert b == a + (b - a);
  }

  ghost predicate IsLeast(x: int, s: set<int>) {
    x in s && forall y | y in s :: x <= y
  }

  ghost predicate IsGreatest(x: int, s: set<int>) {
    x in s && forall y | y in s :: y <= x
  }

  lemma {:induction false} FindLeast(s: set<int>) returns (x: int)
    requires s != {}
    ensures IsLeast(x, s)
    decreases s
  {
    var some := Witness(s);
    var below := set z | z in s && z < some;
    assert some !in below;
    x := some;
    if below != {} {
      x := FindLeast(below);
    }
    forall y | y in s ensures x <= y {
      if y < some {
        assert y in below;
      }
    }
  }

  lemma {:induction false} FindGreatest(s: set<int>) returns (x: int)
    requires s != {}
    ensures IsGreatest(x, s)
    decreases s
  {
    var some := Witness(s);
    var above := set z | z in s && z > some;
    assert some !in above;
    x := some;
    if above != {} {
      x := FindGreatest(above);
    }
    forall y | y in s ensures y <= x {
      if y > some {
        assert y in above;
      }
    }
  }

  ghost function Least(s: set<int>): (x: int)
    requires s != {}
    ensures IsLeast(x, s)
  {
    assert exists x :: IsLeast(x, s) by { var x := FindLeast(s); }
    var x :| IsLeast(x, s);
    x
  }

  ghost function Greatest(s: set<int>): (x: int)
    requires s != {}
    ensures IsGreatest(x, s)
  {
    assert exists x :: IsGreatest(x, s) by { var x := FindGreatest(s); }
    var x :| IsGreatest(x, s);
    x
  }
}
