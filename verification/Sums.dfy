// Sums of a weight over a sequence of threads.
module Sums {

  function Sum<T>(f: T -> int, s: seq<T>): int {
    if s == [] then 0 else f(s[0]) + Sum(f, s[1..])
  }

  // Replacing one element moves the sum by the difference of the weights.
  lemma {:induction false} SumUpdate<T>(f: T -> int, s: seq<T>, i: nat, x: T)
    requires i < |s|
    ensures Sum(f, s[i := x]) == Sum(f, s) - f(s[i]) + f(x)
  {
    if i == 0 {
      assert s[0 := x][1..] == s[1..];
    } else {
      assert s[i := x][1..] == s[1..][i - 1 := x];
      SumUpdate(f, s[1..], i - 1, x);
    }
  }

  lemma {:induction false} SumBounds<T>(f: T -> int, s: seq<T>, lo: int, hi: int)
    requires forall k :: 0 <= k < |s| ==> lo <= f(s[k]) <= hi
    ensures lo * |s| <= Sum(f, s) <= hi * |s|
  {
    if s != [] {
      assert forall k :: 0 <= k < |s[1..]| ==> s[1..][k] == s[k + 1];
      SumBounds(f, s[1..], lo, hi);
    }
  }

  lemma {:induction false} SumLe<T>(f: T -> int, g: T -> int, s: seq<T>)
    requires forall k :: 0 <= k < |s| ==> f(s[k]) <= g(s[k])
    ensures Sum(f, s) <= Sum(g, s)
  {
    if s != [] {
      assert forall k :: 0 <= k < |s[1..]| ==> s[1..][k] == s[k + 1];
      SumLe(f, g, s[1..]);
    }
  }

  // A sum that reaches its upper bound is made of maximal terms only.
  lemma {:induction false} SumMaximal<T>(f: T -> int, s: seq<T>, hi: int, i: nat)
    requires forall k :: 0 <= k < |s| ==> f(s[k]) <= hi
    requires Sum(f, s) == hi * |s| && i < |s|
    ensures f(s[i]) == hi
  {
    assert forall k :: 0 <= k < |s[1..]| ==> s[1..][k] == s[k + 1];
    SumAtMost(f, s[1..], hi);
    if i > 0 {
      SumMaximal(f, s[1..], hi, i - 1);
    }
  }

  lemma {:induction false} SumAtMost<T>(f: T -> int, s: seq<T>, hi: int)
    requires forall k :: 0 <= k < |s| ==> f(s[k]) <= hi
    ensures Sum(f, s) <= hi * |s|
  {
    if s != [] {
      assert forall k :: 0 <= k < |s[1..]| ==> s[1..][k] == s[k + 1];
      SumAtMost(f, s[1..], hi);
    }
  }

  // A sum does not see a change that keeps every weight.
  lemma {:induction false} SumSame<T>(f: T -> int, s: seq<T>, s': seq<T>)
    requires |s| == |s'| && forall k :: 0 <= k < |s| ==> f(s[k]) == f(s'[k])
    ensures Sum(f, s) == Sum(f, s')
  {
    if s != [] {
      assert forall k :: 0 <= k < |s[1..]| ==> s[1..][k] == s[k + 1] && s'[1..][k] == s'[k + 1];
      SumSame(f, s[1..], s'[1..]);
    }
  }

  // A lexicographic pair as one number, for a second part that stays in
  // 0..bound.
  function Weigh(bound: nat, first: int, second: int): int {
    (bound + 1) * first + second
  }

  lemma WeighOrders(bound: nat, a: int, u: int, a': int, u': int)
    requires 0 <= u <= bound && 0 <= u' <= bound
    ensures a' < a || (a' == a && u' < u) ==> Weigh(bound, a', u') < Weigh(bound, a, u)
    ensures a >= 0 ==> Weigh(bound, a, u) >= 0
  {
    if a' < a {
      assert (bound + 1) * a' <= (bound + 1) * (a - 1);
    }
  }
}
