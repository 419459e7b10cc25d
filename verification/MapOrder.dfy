/** Iterating over a Go map: any order is possible. */
module MapOrder {

  method Pick<T(==)>(s: set<T>) returns (x: T)
    requires s != {}
    ensures x in s
  {
    x :| x in s;
  }

  lemma {:induction false} Witness<T>(s: set<T>) returns (x: T)
    requires s != {}
    ensures x in s
  {
    x :| x in s;
  }

  ghost function Any<T>(s: set<T>): (x: T)
    requires s != {}
    ensures x in s
  {
    var x :| x in s;
    x
  }

  predicate NoDup<T(==)>(s: seq<T>) {
    forall i, j :: 0 <= i < j < |s| ==> s[i] != s[j]
  }

  function Elems<T>(s: seq<T>): set<T> {
    set x | x in s
  }

  lemma {:induction false} TakeNext<T>(s: seq<T>, i: nat)
    requires i < |s|
    ensures s[..i] + [s[i]] == s[..i + 1]
  {
  }

  lemma {:induction false} ElemsAppend<T>(s: seq<T>, x: T)
    ensures Elems(s + [x]) == Elems(s) + {x}
  {
    assert (s + [x])[|s|] == x;
  }

  /** The elements of a set in some order. */
  method InSomeOrder<T(==)>(s: set<T>) returns (order: seq<T>)
    ensures NoDup(order) && Elems(order) == s
  {
    var rest := s;
    order := [];
    while rest != {}
      invariant NoDup(order) && Elems(order) == s - rest && rest <= s
    {
      var x := Pick(rest);
      assert x !in Elems(order);
      ElemsAppend(order, x);
      order := order + [x];
      rest := rest - {x};
    }
  }
}
