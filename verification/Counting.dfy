/** Counting the elements of a sequence that satisfy a predicate. */
module Counting {
  function Count<T>(s: seq<T>, f: T -> bool): nat {
    if s == [] then 0 else Count(s[..|s| - 1], f) + if f(s[|s| - 1]) then 1 else 0
  }

  lemma {:induction false} CountUpdate<T>(s: seq<T>, f: T -> bool, i: nat, x: T)
    requires i < |s|
    ensures Count(s[i := x], f) == Count(s, f) - (if f(s[i]) then 1 else 0) + (if f(x) then 1 else 0)
  {
    var k := |s| - 1;
    if i < k {
      CountUpdate(s[..k], f, i, x);
      assert s[i := x][..k] == s[..k][i := x];
    } else {
      assert s[i := x][..k] == s[..k];
    }
  }

  lemma {:induction false} CountAll<T>(s: seq<T>, f: T -> bool)
    ensures Count(s, f) <= |s|
    ensures Count(s, f) == |s| <==> forall i :: 0 <= i < |s| ==> f(s[i])
    ensures (forall i :: 0 <= i < |s| ==> !f(s[i])) ==> Count(s, f) == 0
  {
    if s != [] {
      var k := |s| - 1;
      CountAll(s[..k], f);
      assert forall i :: 0 <= i < k ==> s[..k][i] == s[i];
    }
  }
}
