/** The k-way merge that follows the barrier: `nthr` sorted segments of `tnum` numbers each. What its turns
    keep as long as each of them chooses a segment. */
module BarrierMerge {

  const LONG_MAX: int := 0x7FFF_FFFF_FFFF_FFFF

  /** comlong, the comparator each thread sorts its segment with. */
  function ComLong(a: int, b: int): int {
    if a == b then 0 else if a < b then -1 else 1
  }

  /** comlong tells less, equal and greater apart. */
  lemma ComLongOrders(a: int, b: int)
    ensures (ComLong(a, b) == -1 <==> a < b) && (ComLong(a, b) == 0 <==> a == b) && (ComLong(a, b) == 1 <==> a > b)
  {
  }

  ghost predicate Sorted(s: seq<int>) {
    forall i, j :: 0 <= i < j < |s| ==> ComLong(s[i], s[j]) <= 0
  }

  ghost predicate AllBelow(s: seq<int>) {
    forall k :: 0 <= k < |s| ==> s[k] < LONG_MAX
  }

  /** The bounds of the segments, ascending: segment `i` is [bound[i], bound[i + 1]). */
  ghost predicate Bounds(bound: seq<nat>, n: nat) {
    && |bound| > 0 && bound[0] == 0 && bound[|bound| - 1] == n
    && forall i, j :: 0 <= i <= j < |bound| ==> bound[i] <= bound[j]
  }

  /** What the threads leave behind when all have reached the barrier. */
  ghost predicate PiecesSorted(nums: seq<int>, bound: seq<nat>) {
    forall i: nat :: i + 1 < |bound| && bound[i] <= bound[i + 1] <= |nums| ==> Sorted(nums[bound[i]..bound[i + 1]])
  }

  ghost predicate SegmentsSorted(nums: seq<int>, bound: seq<nat>) {
    Bounds(bound, |nums|) && PiecesSorted(nums, bound)
  }

  /** No index has left its segment. */
  ghost predicate Within(idx: seq<nat>, bound: seq<nat>) {
    |idx| + 1 == |bound| && forall i :: 0 <= i < |idx| ==> bound[i] <= idx[i] <= bound[i + 1]
  }

  ghost function Piece(nums: seq<int>, lo: nat, hi: nat): multiset<int> {
    if lo <= hi <= |nums| then multiset(nums[lo..hi]) else multiset{}
  }

  /** The numbers of the first `k` segments that have not been taken yet. */
  ghost function Rest(nums: seq<int>, idx: seq<nat>, bound: seq<nat>, k: nat): multiset<int> {
    if k == 0 || k > |idx| || k >= |bound| then multiset{}
    else Rest(nums, idx, bound, k - 1) + Piece(nums, idx[k - 1], bound[k])
  }

  /** How far the indices have advanced, all together: the sum of idx[i] - bound[i]. */
  ghost function Taken(idx: seq<nat>, bound: seq<nat>, k: nat): int {
    if k == 0 || k > |idx| || k > |bound| then 0 else Taken(idx, bound, k - 1) + ((idx[k - 1] as int) - bound[k - 1])
  }

  lemma {:induction false} RestSize(nums: seq<int>, idx: seq<nat>, bound: seq<nat>, k: nat)
    requires Bounds(bound, |nums|) && Within(idx, bound) && k <= |idx|
    ensures |Rest(nums, idx, bound, k)| == bound[k] - Taken(idx, bound, k)
  {
    if k > 0 { RestSize(nums, idx, bound, k - 1); }
  }

  lemma {:induction false} RestStart(nums: seq<int>, bound: seq<nat>, k: nat)
    requires Bounds(bound, |nums|) && k < |bound|
    ensures Rest(nums, bound[..|bound| - 1], bound, k) == multiset(nums[..bound[k]])
    ensures Taken(bound[..|bound| - 1], bound, k) == 0
  {
    if k > 0 {
      RestStart(nums, bound, k - 1);
      assert nums[..bound[k]] == nums[..bound[k - 1]] + nums[bound[k - 1]..bound[k]];
    }
  }

  lemma PieceTake(nums: seq<int>, lo: nat, hi: nat)
    requires lo < hi <= |nums|
    ensures Piece(nums, lo, hi) == multiset{nums[lo]} + Piece(nums, lo + 1, hi)
  {
    assert nums[lo..hi] == [nums[lo]] + nums[lo + 1..hi];
  }

  lemma {:induction false} RestSame(nums: seq<int>, idx: seq<nat>, bound: seq<nat>, k: nat, m: nat, x: nat)
    requires k <= m < |idx|
    ensures Rest(nums, idx[m := x], bound, k) == Rest(nums, idx, bound, k)
  {
    if k > 0 { RestSame(nums, idx, bound, k - 1, m, x); }
  }

  lemma {:induction false} TakenSame(idx: seq<nat>, bound: seq<nat>, k: nat, m: nat, x: nat)
    requires k <= m < |idx|
    ensures Taken(idx[m := x], bound, k) == Taken(idx, bound, k)
  {
    if k > 0 { TakenSame(idx, bound, k - 1, m, x); }
  }

  lemma {:induction false} TakenTake(idx: seq<nat>, bound: seq<nat>, k: nat, m: nat)
    requires |idx| + 1 == |bound| && m < k <= |idx|
    ensures Taken(idx[m := idx[m] + 1], bound, k) == Taken(idx, bound, k) + 1
  {
    if m < k - 1 { TakenTake(idx, bound, k - 1, m); } else { TakenSame(idx, bound, k - 1, m, idx[m] + 1); }
  }

  lemma RestTakeLast(nums: seq<int>, idx: seq<nat>, bound: seq<nat>, m: nat, x: nat)
    requires |idx| + 1 == |bound| && m < |idx| && idx[m] < bound[m + 1] <= |nums| && x == idx[m] + 1
    ensures Rest(nums, idx, bound, m + 1) == Rest(nums, idx[m := x], bound, m + 1) + multiset{nums[idx[m]]}
  {
    var front, last, v := Rest(nums, idx, bound, m), Piece(nums, x, bound[m + 1]), multiset{nums[idx[m]]};
    assert Rest(nums, idx[m := x], bound, m + 1) == front + last by { RestSame(nums, idx, bound, m, m, x); }
    assert Rest(nums, idx, bound, m + 1) == front + (v + last) by { PieceTake(nums, idx[m], bound[m + 1]); }
    Regroup(front, v, last);
  }

  lemma RestStep(nums: seq<int>, idx: seq<nat>, bound: seq<nat>, k: nat)
    requires |idx| + 1 == |bound| && 0 < k <= |idx|
    ensures Rest(nums, idx, bound, k) == Rest(nums, idx, bound, k - 1) + Piece(nums, idx[k - 1], bound[k])
  {
  }

  /** Taking the head of segment `m` removes exactly that number. */
  lemma {:induction false} RestTake(nums: seq<int>, idx: seq<nat>, bound: seq<nat>, k: nat, m: nat, x: nat)
    requires |idx| + 1 == |bound| && m < k <= |idx| && idx[m] < bound[m + 1] <= |nums| && x == idx[m] + 1
    ensures Rest(nums, idx, bound, k) == Rest(nums, idx[m := x], bound, k) + multiset{nums[idx[m]]}
  {
    hide Rest, Piece;
    if m == k - 1 {
      RestTakeLast(nums, idx, bound, m, x);
    } else {
      RestTake(nums, idx, bound, k - 1, m, x);
      RestStep(nums, idx, bound, k);
      RestStep(nums, idx[m := x], bound, k);
      Regroup(Rest(nums, idx[m := x], bound, k - 1), multiset{nums[idx[m]]}, Piece(nums, idx[k - 1], bound[k]));
    }
  }

  lemma Regroup(a: multiset<int>, b: multiset<int>, c: multiset<int>)
    ensures a + (b + c) == (a + c) + b && (a + b) + c == (a + c) + b
  {
  }

  /** Every number left in the first `k` segments is at least `low` when their heads are. */
  lemma {:induction false} RestAbove(nums: seq<int>, idx: seq<nat>, bound: seq<nat>, k: nat, low: int)
    requires SegmentsSorted(nums, bound) && Within(idx, bound) && k <= |idx|
    requires HeadsAbove(nums, idx, bound, low)
    ensures forall v :: v in Rest(nums, idx, bound, k) ==> low <= v
  {
    if k > 0 {
      RestAbove(nums, idx, bound, k - 1, low);
      PieceAbove(nums, bound[k - 1], idx[k - 1], bound[k], low);
    }
  }

  ghost predicate HeadsAbove(nums: seq<int>, idx: seq<nat>, bound: seq<nat>, low: int) {
    forall i :: 0 <= i < |idx| && i + 1 < |bound| && idx[i] < bound[i + 1] && idx[i] < |nums| ==> low <= nums[idx[i]]
  }

  lemma PieceAbove(nums: seq<int>, start: nat, lo: nat, hi: nat, low: int)
    requires start <= lo <= hi <= |nums| && Sorted(nums[start..hi]) && (lo < hi ==> low <= nums[lo])
    ensures forall v :: v in Piece(nums, lo, hi) ==> low <= v
  {
    var s := nums[start..hi];
    forall v | v in Piece(nums, lo, hi) ensures low <= v {
      var t := nums[lo..hi];
      var x :| 0 <= x < |t| && t[x] == v;
      assert s[lo - start] == nums[lo] && s[lo - start + x] == v;
    }
  }

  /** Between two turns: the indices are within their segments and account for what has been put out,
      which is sorted and no greater than what is left. */
  ghost predicate MergeState(nums: seq<int>, out: seq<int>, idx: seq<nat>, bound: seq<nat>) {
    && Within(idx, bound)
    && Taken(idx, bound, |idx|) == |out|
    && Sorted(out)
    && multiset(out) + Rest(nums, idx, bound, |idx|) == multiset(nums)
    && NoGreater(out, Rest(nums, idx, bound, |idx|))
    && forall u :: u in out ==> u < LONG_MAX
  }

  ghost predicate NoGreater(out: seq<int>, rest: multiset<int>) {
    forall u, v :: u in out && v in rest ==> u <= v
  }

  lemma AppendLeast(out: seq<int>, v: int, rest: multiset<int>)
    requires Sorted(out) && NoGreater(out, rest + multiset{v}) && forall w :: w in rest ==> v <= w
    ensures Sorted(out + [v]) && NoGreater(out + [v], rest)
    ensures multiset(out + [v]) == multiset(out) + multiset{v}
  {
    var out' := out + [v];
    forall i, j | 0 <= i < j < |out'| ensures out'[i] <= out'[j] {
      if j == |out| { assert out'[i] in out && v in rest + multiset{v}; }
    }
    forall u, w | u in out' && w in rest ensures u <= w {
      if u in out { assert w in rest + multiset{v}; }
    }
  }

  lemma MergeTake(nums: seq<int>, out: seq<int>, idx: seq<nat>, bound: seq<nat>, m: nat)
    requires SegmentsSorted(nums, bound) && MergeState(nums, out, idx, bound)
    requires m < |idx| && idx[m] < bound[m + 1] <= |nums| && nums[idx[m]] < LONG_MAX
    requires HeadsAbove(nums, idx, bound, nums[idx[m]])
    ensures MergeState(nums, out + [nums[idx[m]]], idx[m := idx[m] + 1], bound)
  {
    hide Rest, Taken, Bounds, SegmentsSorted, HeadsAbove;
    var v, idx' := nums[idx[m]], idx[m := idx[m] + 1];
    RestTake(nums, idx, bound, |idx|, m, idx[m] + 1);
    TakenTake(idx, bound, |idx|, m);
    RestAbove(nums, idx, bound, |idx|, v);
    var rest := Rest(nums, idx', bound, |idx|);
    assert forall w :: w in rest ==> w in Rest(nums, idx, bound, |idx|);
    AppendLeast(out, v, rest);
  }

  lemma MergeStart(nums: seq<int>, bound: seq<nat>)
    requires Bounds(bound, |nums|)
    ensures MergeState(nums, [], bound[..|bound| - 1], bound)
  {
    RestStart(nums, bound, |bound| - 1);
    assert nums[..bound[|bound| - 1]] == nums;
  }

  /** As long as not everything is taken, some segment has a head. */
  lemma {:induction false} SomeHead(idx: seq<nat>, bound: seq<nat>, k: nat) returns (i: nat)
    requires Within(idx, bound) && bound[0] == 0 && 0 < k <= |idx| && Taken(idx, bound, k) < bound[k]
    ensures i < |idx| && idx[i] < bound[i + 1]
  {
    if idx[k - 1] < bound[k] { i := k - 1; } else { i := SomeHead(idx, bound, k - 1); }
  }

  lemma NothingFound(nums: seq<int>, out: seq<int>, idx: seq<nat>, bound: seq<nat>)
    requires Bounds(bound, |nums|) && MergeState(nums, out, idx, bound) && |out| < |nums|
    requires HeadsAbove(nums, idx, bound, LONG_MAX)
    ensures !AllBelow(nums)
  {
    var i := SomeHead(idx, bound, |idx|);
    assert bound[i + 1] <= bound[|bound| - 1];
    assert nums[idx[i]] >= LONG_MAX;
  }

  lemma AllTaken(nums: seq<int>, out: seq<int>, idx: seq<nat>, bound: seq<nat>)
    requires Bounds(bound, |nums|) && MergeState(nums, out, idx, bound) && |out| == |nums|
    ensures multiset(out) == multiset(nums) && AllBelow(nums)
  {
    RestSize(nums, idx, bound, |idx|);
    assert Rest(nums, idx, bound, |idx|) == multiset{};
    forall k | 0 <= k < |nums| ensures nums[k] < LONG_MAX {
      assert nums[k] in multiset(nums);
      assert nums[k] in out;
    }
  }
}
