/** Counting the elements of a sequence that satisfy a predicate, as `size` and `n_occupied` of khash do. */
module Counting {

  function Count<T>(p: T -> bool, s: seq<T>): (c: nat)
    ensures c <= |s|
  {
    if s == [] then 0 else Count(p, s[..|s| - 1]) + (if p(s[|s| - 1]) then 1 else 0)
  }

  lemma {:induction false} CountUpdate<T>(p: T -> bool, s: seq<T>, i: nat, x: T)
    requires i < |s|
    ensures Count(p, s[i := x]) == Count(p, s) - (if p(s[i]) then 1 else 0) + (if p(x) then 1 else 0)
  {
    var front := s[..|s| - 1];
    if i < |front| {
      assert s[i := x][..|s| - 1] == front[i := x];
      CountUpdate(p, front, i, x);
    } else {
      assert s[i := x][..|s| - 1] == front;
    }
  }

  lemma {:induction false} CountNone<T>(p: T -> bool, s: seq<T>)
    requires forall x :: x in s ==> !p(x)
    ensures Count(p, s) == 0
  {
    if s != [] {
      CountNone(p, s[..|s| - 1]);
    }
  }

  lemma {:induction false} CountAll<T>(p: T -> bool, s: seq<T>)
    requires forall i :: 0 <= i < |s| ==> p(s[i])
    ensures Count(p, s) == |s|
  {
    if s != [] {
      CountAll(p, s[..|s| - 1]);
    }
  }

  lemma {:induction false} CountMonotone<T>(p: T -> bool, q: T -> bool, s: seq<T>)
    requires forall x :: x in s && p(x) ==> q(x)
    ensures Count(p, s) <= Count(q, s)
    ensures Count(p, s) == Count(q, s) ==> forall x :: x in s && q(x) ==> p(x)
  {
    if s != [] {
      var front := s[..|s| - 1];
      CountMonotone(p, q, front);
      assert forall x :: x in s <==> x in front || x == s[|s| - 1];
    }
  }
}
