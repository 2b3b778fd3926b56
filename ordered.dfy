/** Walking a std::set<int>: its elements come out in ascending order. */
module Ordered {

  predicate Increasing(s: seq<int>)
  {
    forall i, j :: 0 <= i < j < |s| ==> s[i] < s[j]
  }

  /** The least element of a non-empty set. */
  ghost function Least(s: set<int>): (m: int)
    requires s != {}
    ensures m in s && forall x :: x in s ==> m <= x
    decreases |s|
  {
    HasElement(s);
    var x :| x in s;
    if s == {x} then assert forall y :: y in s ==> y == x; x
    else
      var l := Least(s - {x});
      assert forall y :: y in s ==> y == x || y in s - {x};
      if x < l then x else l
  }

  lemma HasElement(s: set<int>)
    requires s != {}
    ensures exists x :: x in s
  {
    if forall x :: x !in s {
      assert false;
    }
  }

  /** The iteration order of a set: every element once, ascending. */
  method Elements(s: set<int>) returns (r: seq<int>)
    ensures Increasing(r)
    ensures forall x :: x in r <==> x in s
  {
    r := [];
    var rest := s;
    while rest != {}
      invariant rest <= s
      invariant forall x :: x in r <==> x in s && x !in rest
      invariant Increasing(r)
      invariant forall x, i :: x in rest && 0 <= i < |r| ==> r[i] < x
      decreases |rest|
    {
      ghost var least := Least(rest);
      var m :| m in rest && forall y :: y in rest ==> m <= y;
      r := r + [m];
      rest := rest - {m};
    }
  }
}
