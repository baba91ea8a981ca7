/** How many elements of a sequence have a property. */
module Counting {

  function Count<T>(s: seq<T>, has: T -> bool): (n: nat)
    ensures n <= |s|
  {
    if s == [] then 0 else (if has(s[0]) then 1 else 0) + Count(s[1..], has)
  }

  /** Changing one element changes the count by at most one. */
  lemma {:induction false} CountUpdate<T>(s: seq<T>, i: nat, x: T, has: T -> bool)
    requires i < |s|
    ensures Count(s[i := x], has) + (if has(s[i]) then 1 else 0) == Count(s, has) + (if has(x) then 1 else 0)
    decreases |s|
  {
    var t := s[i := x];
    if i == 0 {
      assert t[1..] == s[1..];
    } else {
      assert t[1..] == s[1..][i - 1 := x];
      CountUpdate(s[1..], i - 1, x, has);
    }
  }

  lemma {:induction false} CountNone<T>(s: seq<T>, has: T -> bool)
    requires forall i :: 0 <= i < |s| ==> !has(s[i])
    ensures Count(s, has) == 0
    decreases |s|
  {
    if s != [] {
      CountNone(s[1..], has);
    }
  }

  /** Fewer than all: one of them does not have the property. */
  lemma {:induction false} CountMissing<T>(s: seq<T>, has: T -> bool) returns (i: nat)
    requires Count(s, has) < |s|
    ensures i < |s| && !has(s[i])
    decreases |s|
  {
    if has(s[0]) {
      i := CountMissing(s[1..], has);
      i := i + 1;
    } else {
      i := 0;
    }
  }

  lemma {:induction false} CountSome<T>(s: seq<T>, has: T -> bool, i: nat)
    requires i < |s| && has(s[i])
    ensures Count(s, has) > 0
    decreases |s|
  {
    if !has(s[0]) {
      CountSome(s[1..], has, i - 1);
    }
  }

  lemma {:induction false} CountFewer<T>(s: seq<T>, some: T -> bool, more: T -> bool)
    requires forall x :: some(x) ==> more(x)
    ensures Count(s, some) <= Count(s, more)
    decreases |s|
  {
    if s != [] {
      CountFewer(s[1..], some, more);
    }
  }
}
