/** Sums and counts over sequences, and how a single update changes them. */
module Sums {

  function Sum(s: seq<int>): int {
    if s == [] then 0 else s[0] + Sum(s[1..])
  }

  lemma {:induction false} SumUpdate(s: seq<int>, i: nat, x: int)
    requires i < |s|
    ensures Sum(s[i := x]) == Sum(s) - s[i] + x
  {
    if i > 0 {
      assert s[i := x][1..] == s[1..][i - 1 := x];
      SumUpdate(s[1..], i - 1, x);
    }
  }

  lemma {:induction false} SumOfZeros(s: seq<int>)
    requires forall i :: 0 <= i < |s| ==> s[i] == 0
    ensures Sum(s) == 0
  {
    if s != [] { SumOfZeros(s[1..]); }
  }

  /** A sum of non-negative terms is at least each of them. */
  lemma {:induction false} SumAtLeast(s: seq<int>, i: nat)
    requires i < |s| && forall k :: 0 <= k < |s| ==> s[k] >= 0
    ensures Sum(s) >= s[i] >= 0
  {
    if i > 0 {
      SumAtLeast(s[1..], i - 1);
    } else if |s| > 1 {
      SumAtLeast(s[1..], 0);
    }
  }

  lemma {:induction false} SumNonNegative(s: seq<int>)
    requires forall k :: 0 <= k < |s| ==> s[k] >= 0
    ensures Sum(s) >= 0
    ensures Sum(s) == 0 ==> forall k :: 0 <= k < |s| ==> s[k] == 0
  {
    if s != [] {
      SumNonNegative(s[1..]);
      if Sum(s) == 0 {
        forall k | 0 <= k < |s| ensures s[k] == 0 {
          if k > 0 { assert s[k] == s[1..][k - 1]; }
        }
      }
    }
  }

  /** Two different negative terms push a sum of non-positive terms to -2 or below. */
  lemma SumOfTwo(s: seq<int>, i: nat, j: nat)
    requires i < |s| && j < |s| && i != j
    requires forall k :: 0 <= k < |s| ==> s[k] <= 0
    ensures Sum(s) <= s[i] + s[j]
  {
    var neg := seq(|s|, k requires 0 <= k < |s| => -s[k]);
    SumNegate(s, neg);
    var rest := neg[i := 0];
    SumUpdate(neg, i, 0);
    SumAtLeast(rest, j);
  }

  lemma {:induction false} SumNegate(s: seq<int>, neg: seq<int>)
    requires |s| == |neg| && forall k :: 0 <= k < |s| ==> neg[k] == -s[k]
    ensures Sum(neg) == -Sum(s)
  {
    if s != [] { SumNegate(s[1..], neg[1..]); }
  }

  /** The number of positions whose element satisfies `f`. */
  ghost function Count<T>(s: seq<T>, f: T -> bool): nat {
    if s == [] then 0 else (if f(s[0]) then 1 else 0) + Count(s[1..], f)
  }

  lemma {:induction false} CountUpdate<T>(s: seq<T>, i: nat, x: T, f: T -> bool)
    requires i < |s|
    ensures Count(s[i := x], f) == Count(s, f) - (if f(s[i]) then 1 else 0) + (if f(x) then 1 else 0)
  {
    if i > 0 {
      assert s[i := x][1..] == s[1..][i - 1 := x];
      CountUpdate(s[1..], i - 1, x, f);
    }
  }

  lemma {:induction false} CountNone<T>(s: seq<T>, f: T -> bool)
    ensures Count(s, f) <= |s|
    ensures Count(s, f) == 0 <==> forall i :: 0 <= i < |s| ==> !f(s[i])
  {
    if s != [] {
      CountNone(s[1..], f);
      assert (forall i :: 0 <= i < |s| ==> !f(s[i])) <==>
             !f(s[0]) && forall i :: 0 <= i < |s[1..]| ==> !f(s[1..][i]);
    }
  }
}
