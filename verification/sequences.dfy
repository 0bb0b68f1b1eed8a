/** Splitting and joining sequences, for loops that work through one. */
module Sequences {

  function Init<T>(s: seq<T>): seq<T> requires s != [] { s[..|s| - 1] }
  function Last<T>(s: seq<T>): T requires s != [] { s[|s| - 1] }

  lemma Snoc<T>(s: seq<T>, x: T)
    ensures s + [x] != [] && Init(s + [x]) == s && Last(s + [x]) == x
  {}

  /** The first `i + 1` elements are the first `i` and one more. */
  lemma Grow<T>(s: seq<T>, i: nat)
    requires i < |s|
    ensures s[..i + 1] != [] && Init(s[..i + 1]) == s[..i] && Last(s[..i + 1]) == s[i]
  {}

  /** What is left at index `i` is one element and what is left after it. */
  lemma Tail<T>(s: seq<T>, i: nat)
    requires i < |s|
    ensures s[i..] != [] && s[i..][0] == s[i] && s[i..][1..] == s[i + 1..]
  {}

  lemma Shift<T>(done: seq<T>, next: seq<T>, rest: seq<T>)
    ensures done + (next + rest) == (done + next) + rest
    ensures done + [] == done
  {}

  /** An order of a set's elements, as an iteration over a map gives one: each once. */
  ghost predicate Enumerates<T(!new)>(order: seq<T>, of: set<T>) {
    && (forall x :: x in order <==> x in of)
    && (forall i, j :: 0 <= i < j < |order| ==> order[i] != order[j])
  }

  lemma EnumeratesAppend<T(!new)>(order: seq<T>, of: set<T>, x: T)
    requires Enumerates(order, of) && x !in of
    ensures Enumerates(order + [x], of + {x})
  {
    assert forall y :: y in order + [x] <==> y in order || y == x;
  }

  lemma SomeOrder<T(!new)>(of: set<T>) returns (order: seq<T>)
    ensures Enumerates(order, of)
  {
    order := [];
    var left := of;
    while left != {}
      invariant left <= of && Enumerates(order, of - left)
    {
      var x :| x in left;
      EnumeratesAppend(order, of - left, x);
      assert of - (left - {x}) == (of - left) + {x};
      order, left := order + [x], left - {x};
    }
    assert of - {} == of;
  }
}
