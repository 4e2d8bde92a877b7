/** The order in which loops over `std::set<int>` and the keys of `std::map<int, T>` run. */
module Order {

  lemma HasElement(s: set<int>)
    ensures s != {} ==> exists x :: x in s
  {
    if forall x :: x !in s {
      assert s == {};
    }
  }

  lemma {:induction false} SubsetSize<T>(a: set<T>, b: set<T>)
    requires a <= b
    ensures |a| <= |b|
  {
    if a == {} {
    } else {
      var x :| x in a;
      SubsetSize(a - {x}, b - {x});
    }
  }

  predicate IsMin(m: int, s: set<int>) {
    m in s && forall x :: x in s ==> m <= x
  }

  lemma {:induction false} MinExists(s: set<int>)
    requires s != {}
    ensures exists m :: IsMin(m, s)
  {
    HasElement(s);
    var y :| y in s;
    var rest := s - {y};
    if rest == {} {
      assert s == {y};
      assert IsMin(y, s);
    } else {
      MinExists(rest);
      var m :| IsMin(m, rest);
      MinWith(s, y, m);
    }
  }

  lemma MinWith(s: set<int>, y: int, m: int)
    requires y in s && IsMin(m, s - {y})
    ensures IsMin(if m < y then m else y, s)
  {
    assert forall x :: x in s ==> x == y || x in s - {y};
  }

  function Min(s: set<int>): (m: int)
    requires s != {}
    ensures m in s && forall x :: x in s ==> m <= x
  {
    MinExists(s);
    var m :| IsMin(m, s);
    m
  }

  /** The order in which a loop over a `std::set` or the keys of a `std::map` visits them. */
  function Ascending(s: set<int>): (a: seq<int>)
    ensures forall x :: x in a <==> x in s
  {
    if s == {} then []
    else
      var m := Min(s);
      assert s == {m} + (s - {m});
      [m] + Ascending(s - {m})
  }
}
