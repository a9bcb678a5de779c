/** Picking a member of a set of descriptors or threads. */
module Sets {

  lemma Somebody(s: set<int>)
    requires s != {}
    ensures exists x :: x in s
  {
    assert (forall x :: x !in s) ==> s == {};
  }

  lemma {:induction false} Bounded(s: set<int>) returns (b: int)
    ensures forall x | x in s :: x < b
    decreases |s|
  {
    b := 0;
    if s != {} {
      Somebody(s);
      var x :| x in s;
      b := Bounded(s - {x});
      assert forall y | y in s :: y == x || y in s - {x};
      b := if b > x then b else x + 1;
    }
  }

  /** There is always another descriptor. */
  lemma Unused(s: set<int>)
    ensures exists x :: x !in s
  {
    var b := Bounded(s);
    assert b !in s;
  }
}
