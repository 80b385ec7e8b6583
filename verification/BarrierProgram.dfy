/** merge itself. A turn that finds no head below LONG_MAX goes on with the index of the turn before, as
    the C code does. */
module BarrierProgram {
  import opened BarrierMerge
  import opened Options

  // ----- which segment was chosen last

  predicate HasGiven(nums: seq<int>, idx: seq<nat>, bound: seq<nat>, j: nat) {
    j < |idx| && j < |bound| && bound[j] < idx[j] <= |nums|
  }

  predicate HasHead(nums: seq<int>, idx: seq<nat>, bound: seq<nat>, i: nat) {
    i < |idx| && i + 1 < |bound| && idx[i] < bound[i + 1] && idx[i] < |nums|
  }

  /** Segment `m` is the first of those with the least head. */
  ghost predicate FirstLeast(nums: seq<int>, idx: seq<nat>, bound: seq<nat>, m: nat)
    requires m < |idx| && idx[m] < |nums|
  {
    forall k: nat :: k < m && HasHead(nums, idx, bound, k) ==> nums[idx[m]] < nums[idx[k]]
  }

  /** What a later segment has given is less than what an earlier one has still to give. */
  ghost predicate LaterIsLess(nums: seq<int>, idx: seq<nat>, bound: seq<nat>) {
    forall i: nat, j: nat :: i < j && HasHead(nums, idx, bound, i) && HasGiven(nums, idx, bound, j) ==>
      nums[idx[j] - 1] < nums[idx[i]]
  }

  /** Segment `m` gave last: later segments have given less. */
  ghost predicate GaveLast(nums: seq<int>, idx: seq<nat>, bound: seq<nat>, m: nat) {
    HasGiven(nums, idx, bound, m) &&
    forall j: nat :: m < j && HasGiven(nums, idx, bound, j) ==> nums[idx[j] - 1] < nums[idx[m] - 1]
  }

  /** Every turn so far has chosen a segment, the last one `last`. */
  ghost predicate Fresh(nums: seq<int>, out: seq<int>, idx: seq<nat>, bound: seq<nat>, last: Option<nat>) {
    && MergeState(nums, out, idx, bound) && Within(idx, bound) && LaterIsLess(nums, idx, bound)
    && (last.None? ==> out == [])
    && (last.Some? ==>
        out != [] && GaveLast(nums, idx, bound, last.value) && out[|out| - 1] == nums[idx[last.value] - 1])
  }

  lemma FreshStart(nums: seq<int>, bound: seq<nat>)
    requires Bounds(bound, |nums|)
    ensures Fresh(nums, [], bound[..|bound| - 1], bound, None)
  {
    hide Rest, Taken, Bounds;
    MergeStart(nums, bound);
  }

  /** The next number of a sorted segment is no less. */
  lemma NextInSegment(nums: seq<int>, bound: seq<nat>, m: nat, k: nat, l: nat)
    requires SegmentsSorted(nums, bound) && m + 1 < |bound| && bound[m] <= k <= l < bound[m + 1]
    ensures bound[m + 1] <= |nums| && nums[k] <= nums[l]
  {
    assert bound[m + 1] <= bound[|bound| - 1];
    var s := nums[bound[m]..bound[m + 1]];
    assert Sorted(s) && s[k - bound[m]] == nums[k] && s[l - bound[m]] == nums[l];
  }

  lemma LastTake(nums: seq<int>, idx: seq<nat>, bound: seq<nat>, m: nat, idx': seq<nat>)
    requires Within(idx, bound) && LaterIsLess(nums, idx, bound) && HasHead(nums, idx, bound, m)
    requires idx' == idx[m := idx[m] + 1]
    ensures GaveLast(nums, idx', bound, m)
  {
    assert bound[m] <= idx[m];
    forall j: nat | m < j && HasGiven(nums, idx', bound, j) ensures nums[idx'[j] - 1] < nums[idx'[m] - 1] {
      assert HasGiven(nums, idx, bound, j);
    }
  }

  lemma OrderTake(nums: seq<int>, idx: seq<nat>, bound: seq<nat>, m: nat, idx': seq<nat>)
    requires LaterIsLess(nums, idx, bound) && HasHead(nums, idx, bound, m) && FirstLeast(nums, idx, bound, m)
    requires idx' == idx[m := idx[m] + 1]
    requires idx[m] + 1 < bound[m + 1] && idx[m] + 1 < |nums| ==> nums[idx[m]] <= nums[idx[m] + 1]
    ensures LaterIsLess(nums, idx', bound)
  {
    forall i: nat, j: nat | i < j && HasHead(nums, idx', bound, i) && HasGiven(nums, idx', bound, j)
      ensures nums[idx'[j] - 1] < nums[idx'[i]]
    {
      assert HasHead(nums, idx, bound, i);
      if j != m { assert HasGiven(nums, idx, bound, j); }
    }
  }

  lemma WithinBefore(nums: seq<int>, idx: seq<nat>, bound: seq<nat>, m: nat)
    requires Within(idx, bound) && m < |idx|
    ensures bound[m] <= idx[m]
  {
  }

  lemma WithinAfter(nums: seq<int>, idx: seq<nat>, bound: seq<nat>, m: nat)
    requires Within(idx, bound) && m < |idx| && idx[m] < bound[m + 1]
    ensures Within(idx[m := idx[m] + 1], bound)
  {
  }

  lemma FreshTake(nums: seq<int>, out: seq<int>, idx: seq<nat>, bound: seq<nat>, last: Option<nat>, m: nat)
    requires SegmentsSorted(nums, bound) && Fresh(nums, out, idx, bound, last)
    requires m < |idx| && idx[m] < bound[m + 1] <= |nums| && nums[idx[m]] < LONG_MAX
    requires HeadsAbove(nums, idx, bound, nums[idx[m]]) && FirstLeast(nums, idx, bound, m)
    ensures Fresh(nums, out + [nums[idx[m]]], idx[m := idx[m] + 1], bound, Some(m))
  {
    hide MergeState, LaterIsLess, SegmentsSorted, HeadsAbove, FirstLeast, GaveLast;
    MergeTake(nums, out, idx, bound, m);
    WithinBefore(nums, idx, bound, m);
    LastTake(nums, idx, bound, m, idx[m := idx[m] + 1]);
    if idx[m] + 1 < bound[m + 1] { NextInSegment(nums, bound, m, idx[m], idx[m] + 1); }
    OrderTake(nums, idx, bound, m, idx[m := idx[m] + 1]);
    WithinAfter(nums, idx, bound, m);
  }

  // ----- the first turn that chooses none

  /** How many numbers are LONG_MAX. */
  ghost function Highs(nums: seq<int>): nat { multiset(nums)[LONG_MAX] }

  /** `first` is the sorted arrangement of the numbers below LONG_MAX. */
  ghost predicate SortedLows(nums: seq<int>, first: seq<int>) {
    && Sorted(first) && (forall u :: u in first ==> u < LONG_MAX)
    && multiset(nums) == multiset(first)[LONG_MAX := Highs(nums)] && |nums| == |first| + Highs(nums)
  }

  /** Segment `m` is the last that has the greatest number below LONG_MAX, and from `p` on it has LONG_MAX only. */
  ghost predicate TailStart(nums: seq<int>, bound: seq<nat>, m: nat, p: nat) {
    && m + 1 < |bound| && bound[m] < p <= bound[m + 1] <= |nums| && nums[p - 1] < LONG_MAX
    && (forall k :: p <= k < bound[m + 1] ==> nums[k] == LONG_MAX)
    && (forall k :: 0 <= k < |nums| && nums[k] < LONG_MAX ==> nums[k] <= nums[p - 1])
    && (forall k :: bound[m + 1] <= k < |nums| ==> nums[k] != nums[p - 1])
  }

  lemma NoLaterTail(nums: seq<int>, bound: seq<nat>, m: nat, p: nat, m': nat, p': nat)
    requires Bounds(bound, |nums|) && TailStart(nums, bound, m, p) && TailStart(nums, bound, m', p')
    ensures m >= m'
  {
  }

  lemma OneTail(nums: seq<int>, bound: seq<nat>, m: nat, p: nat, m': nat, p': nat)
    requires Bounds(bound, |nums|) && TailStart(nums, bound, m, p) && TailStart(nums, bound, m', p')
    ensures m == m' && p == p'
  {
    NoLaterTail(nums, bound, m, p, m', p');
    NoLaterTail(nums, bound, m', p', m, p);
  }

  /** Of a multiset with one value only, the size is the multiplicity. */
  lemma OneValue(m: multiset<int>, x: int)
    requires forall v :: v in m ==> v == x
    ensures m == multiset{}[x := |m|]
  {
    forall v ensures m[v] == (multiset{}[x := m[x]])[v] {
      if v != x { assert v !in m; }
    }
    assert m == multiset{}[x := m[x]];
  }

  lemma LowsAreOut(nums: seq<int>, out: seq<int>, idx: seq<nat>, bound: seq<nat>)
    requires SegmentsSorted(nums, bound) && MergeState(nums, out, idx, bound) && HeadsAbove(nums, idx, bound, LONG_MAX)
    requires forall k :: 0 <= k < |nums| ==> nums[k] <= LONG_MAX
    ensures SortedLows(nums, out)
    ensures forall k :: 0 <= k < |nums| && nums[k] < LONG_MAX ==> nums[k] in out
  {
    hide Taken, SegmentsSorted, HeadsAbove, NoGreater;
    var rest := Rest(nums, idx, bound, |idx|);
    RestAbove(nums, idx, bound, |idx|, LONG_MAX);
    forall v | v in rest ensures v == LONG_MAX {
      assert v in multiset(nums);
    }
    OneValue(rest, LONG_MAX);
    assert LONG_MAX !in out;
    assert |multiset(nums)| == |nums| && |multiset(out)| == |out|;
    forall k | 0 <= k < |nums| && nums[k] < LONG_MAX ensures nums[k] in out {
      assert nums[k] in multiset(nums);
    }
  }

  lemma {:induction false} SegmentOf(bound: seq<nat>, k: nat, i: nat) returns (j: nat)
    requires |bound| > 0 && i < |bound| && bound[0] <= k < bound[i]
    ensures j < i && bound[j] <= k < bound[j + 1]
  {
    if bound[i - 1] <= k { j := i - 1; } else { j := SegmentOf(bound, k, i - 1); }
  }

  /** A segment whose head is not below LONG_MAX has LONG_MAX only from there on. */
  lemma TailHigh(nums: seq<int>, idx: seq<nat>, bound: seq<nat>, m: nat)
    requires SegmentsSorted(nums, bound) && Within(idx, bound) && HeadsAbove(nums, idx, bound, LONG_MAX) && m < |idx|
    requires forall k :: 0 <= k < |nums| ==> nums[k] <= LONG_MAX
    ensures bound[m + 1] <= |nums| && forall k :: idx[m] <= k < bound[m + 1] ==> nums[k] == LONG_MAX
  {
    assert bound[m + 1] <= bound[|bound| - 1];
    forall k | idx[m] <= k < bound[m + 1] ensures nums[k] == LONG_MAX { NextInSegment(nums, bound, m, idx[m], k); }
  }

  lemma LastIsGreatest(out: seq<int>, x: int)
    requires Sorted(out) && x in out
    ensures x <= out[|out| - 1]
  {
    var i :| 0 <= i < |out| && out[i] == x;
    assert i == |out| - 1 || ComLong(out[i], out[|out| - 1]) <= 0;
  }

  lemma TailFound(nums: seq<int>, out: seq<int>, idx: seq<nat>, bound: seq<nat>, m: nat)
    requires SegmentsSorted(nums, bound) && Fresh(nums, out, idx, bound, Some(m)) &&
        HeadsAbove(nums, idx, bound, LONG_MAX)
    requires forall k :: 0 <= k < |nums| ==> nums[k] <= LONG_MAX
    ensures TailStart(nums, bound, m, idx[m])
  {
    hide MergeState, LaterIsLess, HeadsAbove, SegmentsSorted, Sorted;
    var v := nums[idx[m] - 1];
    TailHigh(nums, idx, bound, m);
    LowsAreOut(nums, out, idx, bound);
    forall k | 0 <= k < |nums| && nums[k] < LONG_MAX ensures nums[k] <= v { LastIsGreatest(out, nums[k]); }
    assert v in out;
    forall k | bound[m + 1] <= k < |nums| ensures nums[k] != v {
      if nums[k] < LONG_MAX { LaterTaken(nums, idx, bound, m, k); }
    }
  }

  lemma SegmentAfter(bound: seq<nat>, n: nat, m: nat, j: nat, k: nat)
    requires Bounds(bound, n) && m + 1 < |bound| && j + 1 < |bound| && bound[m + 1] <= k < bound[j + 1]
    ensures m < j
  {
  }

  lemma LaterTaken(nums: seq<int>, idx: seq<nat>, bound: seq<nat>, m: nat, k: nat)
    requires SegmentsSorted(nums, bound) && Within(idx, bound) && HeadsAbove(nums, idx, bound, LONG_MAX)
    requires GaveLast(nums, idx, bound, m) && m + 1 < |bound| && bound[m + 1] <= k < |nums| && nums[k] < LONG_MAX
    ensures nums[k] < nums[idx[m] - 1]
  {
    var j := SegmentOf(bound, k, |bound| - 1);
    assert bound[j + 1] <= bound[|bound| - 1];
    SegmentAfter(bound, |nums|, m, j, k);
    if idx[j] <= k { NextInSegment(nums, bound, j, idx[j], k); }
    NextInSegment(nums, bound, j, k, idx[j] - 1);
  }

  // ----- the turns after it

  /** No segment has a head below LONG_MAX any more; the index of the last one chosen goes on from `p`,
      and what is read there is put out. */
  ghost predicate Stale(nums: seq<int>, out: seq<int>, idx: seq<nat>, bound: seq<nat>, m: nat, p: nat) {
    var c := |nums| - Highs(nums);
    && |idx| + 1 == |bound| && m < |idx| && HeadsAbove(nums, idx, bound, LONG_MAX) && TailStart(nums, bound, m, p)
    && 0 <= c <= |out| && idx[m] == p + |out| - c <= |nums|
    && SortedLows(nums, out[..c]) && out[c..] == nums[p..idx[m]]
  }

  lemma FirstMiss(nums: seq<int>, out: seq<int>, idx: seq<nat>, bound: seq<nat>, m: nat)
    requires SegmentsSorted(nums, bound) && Fresh(nums, out, idx, bound, Some(m)) &&
        HeadsAbove(nums, idx, bound, LONG_MAX)
    requires forall k :: 0 <= k < |nums| ==> nums[k] <= LONG_MAX
    ensures Stale(nums, out, idx, bound, m, idx[m])
  {
    hide MergeState, SegmentsSorted, HeadsAbove, TailStart, LaterIsLess;
    LowsAreOut(nums, out, idx, bound);
    TailFound(nums, out, idx, bound, m);
    assert out[..|out|] == out && out[|out|..] == nums[idx[m]..idx[m]] == [];
  }

  lemma HeadsStay(nums: seq<int>, idx: seq<nat>, bound: seq<nat>, m: nat)
    requires SegmentsSorted(nums, bound) && HeadsAbove(nums, idx, bound, LONG_MAX) && |idx| + 1 == |bound| && m < |idx|
    requires bound[m] <= idx[m] < |nums|
    ensures HeadsAbove(nums, idx[m := idx[m] + 1], bound, LONG_MAX)
  {
    hide SegmentsSorted;
    if idx[m] + 1 < bound[m + 1] { NextInSegment(nums, bound, m, idx[m], idx[m] + 1); }
  }

  lemma StaleTake(nums: seq<int>, out: seq<int>, idx: seq<nat>, bound: seq<nat>, m: nat, p: nat)
    requires SegmentsSorted(nums, bound) && Stale(nums, out, idx, bound, m, p) && idx[m] < |nums|
    ensures Stale(nums, out + [nums[idx[m]]], idx[m := idx[m] + 1], bound, m, p)
  {
    hide SegmentsSorted, HeadsAbove, SortedLows;
    HeadsStay(nums, idx, bound, m);
    var c, out' := |nums| - Highs(nums), out + [nums[idx[m]]];
    assert out'[..c] == out[..c];
    assert out'[c..] == out[c..] + [nums[idx[m]]] == nums[p..idx[m] + 1];
  }

  lemma {:induction false} AllOf(t: seq<int>, x: int)
    ensures multiset(t)[x] <= |t|
    ensures multiset(t)[x] == |t| <==> forall k :: 0 <= k < |t| ==> t[k] == x
  {
    if t != [] {
      AllOf(t[1..], x);
      assert t == [t[0]] + t[1..];
    }
  }

  /** Lows in order, then `tail`: correct exactly when the tail is LONG_MAX only. */
  lemma TailDecides(nums: seq<int>, first: seq<int>, tail: seq<int>)
    requires SortedLows(nums, first) && |tail| == Highs(nums)
    ensures Sorted(first + tail) && multiset(first + tail) == multiset(nums) <==>
        forall k :: 0 <= k < |tail| ==> tail[k] == LONG_MAX
  {
    AllOf(tail, LONG_MAX);
    assert multiset(first + tail) == multiset(first) + multiset(tail);
    assert LONG_MAX !in multiset(first);
    if forall k :: 0 <= k < |tail| ==> tail[k] == LONG_MAX {
      forall v | v in multiset(tail) ensures v == LONG_MAX { assert v in tail; }
      OneValue(multiset(tail), LONG_MAX);
      assert multiset(first) + multiset(tail) == multiset(first)[LONG_MAX := Highs(nums)];
      forall i, j | 0 <= i < j < |first + tail| ensures ComLong((first + tail)[i], (first + tail)[j]) <= 0 {
        if i < |first| { assert first[i] in first; }
      }
    }
  }

  // ----- merge itself

  /** i * TNUM for i = 0 .. NTHR. */
  function Starts(nthr: nat, tnum: nat): (bound: seq<nat>)
    ensures |bound| == nthr + 1 && forall i :: 0 <= i <= nthr ==> bound[i] == i * tnum
  {
    seq(nthr + 1, i requires 0 <= i <= nthr => i * tnum)
  }

  lemma StartsAscend(nthr: nat, tnum: nat)
    ensures Bounds(Starts(nthr, tnum), nthr * tnum)
  {
    var b := Starts(nthr, tnum);
    forall i, j | 0 <= i <= j < |b| ensures b[i] <= b[j] { ProductAscends(i, j, tnum); }
  }

  lemma {:induction false} ProductAscends(i: nat, j: nat, t: nat)
    requires i <= j
    ensures i * t <= j * t
  {
    if i < j {
      ProductAscends(i, j - 1, t);
      assert j * t == (j - 1) * t + t;
    }
  }

  /** The search for the smallest head; `found` tells whether it has set `minidx`. */
  method SmallestHead(nums: seq<int>, idx: seq<nat>, bound: seq<nat>) returns (found: bool, minidx: nat)
    requires Bounds(bound, |nums|) && |idx| + 1 == |bound|
    ensures found ==> HasHead(nums, idx, bound, minidx) && bound[minidx + 1] <= |nums| && nums[idx[minidx]] < LONG_MAX
    ensures found ==> FirstLeast(nums, idx, bound, minidx)
    ensures HeadsAbove(nums, idx, bound, if found then nums[idx[minidx]] else LONG_MAX)
  {
    var num := LONG_MAX;
    found, minidx := false, 0;
    for i := 0 to |idx|
      invariant found ==> minidx < i && HasHead(nums, idx, bound, minidx) && nums[idx[minidx]] == num < LONG_MAX
      invariant found ==> bound[minidx + 1] <= |nums|
      invariant !found ==> num == LONG_MAX
      invariant forall k: nat :: k < i && HasHead(nums, idx, bound, k) ==> num <= nums[idx[k]]
      invariant found ==> forall k: nat :: k < minidx && HasHead(nums, idx, bound, k) ==> num < nums[idx[k]]
    {
      assert bound[i + 1] <= bound[|bound| - 1];
      if idx[i] < bound[i + 1] && nums[idx[i]] < num {
        num := nums[idx[i]];
        found, minidx := true, i;
      }
    }
    forall k | 0 <= k < |idx| && idx[k] < bound[k + 1] && idx[k] < |nums| ensures num <= nums[idx[k]] {
      assert HasHead(nums, idx, bound, k);
    }
  }

  /** No turn has missed yet, or the index of the last segment chosen goes on from `p`. */
  ghost predicate Going(nums: seq<int>, out: seq<int>, idx: seq<nat>, bound: seq<nat>, last: Option<nat>,
      missed: bool, p: nat) {
    |idx| + 1 == |bound| && (last.Some? ==> last.value < |idx|) &&
    if missed then last.Some? && Stale(nums, out, idx, bound, last.value, p) && !AllBelow(nums)
    else Fresh(nums, out, idx, bound, last)
  }

  /** The merge reads an index that was never set, or past the end of the array: there is no number below
      LONG_MAX, or fewer numbers behind `p` than are LONG_MAX. */
  ghost predicate Undefined(nums: seq<int>, bound: seq<nat>) {
    || (nums != [] && forall k :: 0 <= k < |nums| ==> nums[k] >= LONG_MAX)
    || exists m: nat, p: nat :: TailStart(nums, bound, m, p) && p + Highs(nums) > |nums|
  }

  lemma StaleFindsNothing(nums: seq<int>, out: seq<int>, idx: seq<nat>, bound: seq<nat>, m: nat, p: nat, k: nat)
    requires Stale(nums, out, idx, bound, m, p) && HasHead(nums, idx, bound, k)
    ensures nums[idx[k]] >= LONG_MAX
  {
  }

  lemma NothingBelow(nums: seq<int>, idx: seq<nat>, bound: seq<nat>)
    requires SegmentsSorted(nums, bound) && Fresh(nums, [], idx, bound, None) && HeadsAbove(nums, idx, bound, LONG_MAX)
    requires nums != [] && forall k :: 0 <= k < |nums| ==> nums[k] <= LONG_MAX
    ensures Undefined(nums, bound)
  {
    LowsAreOut(nums, [], idx, bound);
    assert forall k :: 0 <= k < |nums| ==> nums[k] !in [];
  }

  /** One turn of the outer loop, on values: what the search found decides where it goes on. */
  lemma Turn(nums: seq<int>, out: seq<int>, idx: seq<nat>, bound: seq<nat>, last: Option<nat>, missed: bool, p: nat,
      found: bool, m: nat)
    returns (missed': bool, p': nat)
    requires SegmentsSorted(nums, bound) && Going(nums, out, idx, bound, last, missed, p) && |out| < |nums|
    requires forall k :: 0 <= k < |nums| ==> nums[k] <= LONG_MAX
    requires found ==> HasHead(nums, idx, bound, m) && bound[m + 1] <= |nums| && nums[idx[m]] < LONG_MAX
    requires found ==> FirstLeast(nums, idx, bound, m)
    requires HeadsAbove(nums, idx, bound, if found then nums[idx[m]] else LONG_MAX)
    ensures var last' := if found then Some(m) else last;
      && missed' == (missed || !found) && (missed' ==> !AllBelow(nums))
      && (last'.Some? ==> last'.value < |idx|)
      && if last'.Some? && idx[last'.value] < |nums|
         then
           var i := idx[last'.value];
           Going(nums, out + [nums[i]], idx[last'.value := i + 1], bound, last', missed', p')
         else Undefined(nums, bound)
  {
    hide SegmentsSorted, HeadsAbove, MergeState, LaterIsLess, GaveLast, FirstLeast, TailStart, SortedLows, AllBelow;
    missed', p' := missed || !found, p;
    if missed {
      if found { StaleFindsNothing(nums, out, idx, bound, last.value, p, m); }
      if idx[last.value] < |nums| { StaleTake(nums, out, idx, bound, last.value, p); }
    } else if found {
      FreshTake(nums, out, idx, bound, last, m);
    } else {
      FreshNothing(nums, out, idx, bound);
      if last.Some? {
        p' := idx[last.value];
        FirstMiss(nums, out, idx, bound, last.value);
        if p' < |nums| { StaleTake(nums, out, idx, bound, last.value, p'); }
      } else {
        NothingBelow(nums, idx, bound);
      }
    }
  }

  lemma FreshNothing(nums: seq<int>, out: seq<int>, idx: seq<nat>, bound: seq<nat>)
    requires SegmentsSorted(nums, bound) && MergeState(nums, out, idx, bound) && |out| < |nums|
    requires HeadsAbove(nums, idx, bound, LONG_MAX)
    ensures !AllBelow(nums)
  {
    hide Rest, Taken;
    NothingFound(nums, out, idx, bound);
  }

  /** The body of the outer loop. `last` is `minidx`, None while it has not been set. */
  method MergeTurn(nums: array<int>, snums: array<int>, idx: seq<nat>, bound: seq<nat>, sidx: nat, last: Option<nat>,
                   ghost missed: bool, ghost p: nat)
    returns (found: bool, ok: bool, idx': seq<nat>, last': Option<nat>, ghost missed': bool, ghost p': nat)
    requires nums != snums && snums.Length == nums.Length && sidx < nums.Length
    requires SegmentsSorted(nums[..], bound) && Going(nums[..], snums[..sidx], idx, bound, last, missed, p)
    requires forall k :: 0 <= k < nums.Length ==> nums[k] <= LONG_MAX
    modifies snums
    ensures missed' == (missed || !found) && (missed' ==> !AllBelow(nums[..]))
    ensures ok ==> Going(nums[..], snums[..sidx + 1], idx', bound, last', missed', p')
    ensures !ok ==> Undefined(nums[..], bound)
  {
    hide Going, HeadsAbove, Undefined;
    ghost var all, out := nums[..], snums[..sidx];
    GoingShape(all, out, idx, bound, last, missed, p);
    var minidx;
    found, minidx := SmallestHead(nums[..], idx, bound);
    missed', p' := Turn(all, out, idx, bound, last, missed, p, found, minidx);
    last' := if found then Some(minidx) else last;
    idx', ok := idx, false;
    if last'.Some? && idx[last'.value] < nums.Length {
      snums[sidx] := nums[idx[last'.value]];
      assert snums[..sidx + 1] == out + [all[idx[last'.value]]];
      idx' := idx[last'.value := idx[last'.value] + 1];
      ok := true;
    }
  }

  lemma GoingShape(nums: seq<int>, out: seq<int>, idx: seq<nat>, bound: seq<nat>, last: Option<nat>, missed: bool,
      p: nat)
    requires Going(nums, out, idx, bound, last, missed, p)
    ensures |idx| + 1 == |bound| && (last.Some? ==> last.value < |idx|)
  {
  }

  lemma GoingCases(nums: seq<int>, out: seq<int>, idx: seq<nat>, bound: seq<nat>, last: Option<nat>, missed: bool,
      p: nat)
    requires Going(nums, out, idx, bound, last, missed, p)
    ensures missed ==> last.Some? && Stale(nums, out, idx, bound, last.value, p)
    ensures !missed ==> Fresh(nums, out, idx, bound, last)
  {
  }

  ghost predicate Correct(nums: seq<int>, r: seq<int>) { Sorted(r) && multiset(r) == multiset(nums) }

  /** What comes out when the merge runs to its end: the numbers below LONG_MAX in order, and behind them,
      where the LONG_MAX belong, whatever stands from `p` on. */
  ghost predicate Outcome(nums: seq<int>, bound: seq<nat>, r: seq<int>) {
    var c := |nums| - Highs(nums);
    && |r| == |nums| && 0 <= c && SortedLows(nums, r[..c])
    && forall m: nat, p: nat :: TailStart(nums, bound, m, p) ==>
         && p + Highs(nums) <= |nums| && r[c..] == nums[p..p + Highs(nums)]
         && (Correct(nums, r) <==> forall k :: p <= k < p + Highs(nums) ==> nums[k] == LONG_MAX)
  }

  lemma TailSame(nums: seq<int>, p: nat, tail: seq<int>)
    requires p + |tail| <= |nums| && tail == nums[p..p + |tail|]
    ensures (forall k :: 0 <= k < |tail| ==> tail[k] == LONG_MAX) <==>
            forall k :: p <= k < p + |tail| ==> nums[k] == LONG_MAX
  {
    assert forall k :: 0 <= k < |tail| ==> tail[k] == nums[p + k];
    forall k | p <= k < p + |tail| ensures nums[k] == tail[k - p] { }
  }

  lemma StaleEnd(nums: seq<int>, out: seq<int>, idx: seq<nat>, bound: seq<nat>, m: nat, p: nat)
    requires Bounds(bound, |nums|) && Stale(nums, out, idx, bound, m, p) && |out| == |nums|
    ensures Outcome(nums, bound, out) && !Undefined(nums, bound)
  {
    hide HeadsAbove, SortedLows, Correct;
    var c, h := |nums| - Highs(nums), Highs(nums);
    assert nums[p - 1] < LONG_MAX;
    forall m': nat, p': nat | TailStart(nums, bound, m', p') ensures p' == p { OneTail(nums, bound, m, p, m', p'); }
    hide TailStart;
    assert out == out[..c] + nums[p..p + h];
    CorrectIff(nums, out[..c], p);
  }

  lemma CorrectIff(nums: seq<int>, first: seq<int>, p: nat)
    requires SortedLows(nums, first) && p + Highs(nums) <= |nums|
    ensures Correct(nums, first + nums[p..p + Highs(nums)]) <==>
        forall k :: p <= k < p + Highs(nums) ==> nums[k] == LONG_MAX
  {
    hide SortedLows;
    TailDecides(nums, first, nums[p..p + Highs(nums)]);
    TailSame(nums, p, nums[p..p + Highs(nums)]);
  }

  lemma FreshEnd(nums: seq<int>, out: seq<int>, idx: seq<nat>, bound: seq<nat>, last: Option<nat>)
    requires Bounds(bound, |nums|) && Fresh(nums, out, idx, bound, last) && |out| == |nums|
    ensures AllBelow(nums) && Correct(nums, out)
  {
    hide Rest, Taken, LaterIsLess, GaveLast, Bounds;
    AllTaken(nums, out, idx, bound);
  }

  lemma BelowOutcome(nums: seq<int>, bound: seq<nat>, out: seq<int>)
    requires AllBelow(nums) && Correct(nums, out) && |out| == |nums|
    ensures Outcome(nums, bound, out) && !Undefined(nums, bound)
  {
    NoHighs(nums);
    LowsOfAll(nums, out);
    assert out[..|out|] == out;
    forall m: nat, p: nat | TailStart(nums, bound, m, p) ensures out[|out|..] == nums[p..p] == [] { }
  }

  lemma LowsOfAll(nums: seq<int>, out: seq<int>)
    requires AllBelow(nums) && Correct(nums, out) && |out| == |nums|
    ensures SortedLows(nums, out)
  {
    NoHighs(nums);
    forall u | u in out ensures u < LONG_MAX {
      assert u in multiset(nums);
    }
    assert multiset(nums) == multiset(out)[LONG_MAX := 0];
  }

  lemma NoHighs(nums: seq<int>)
    requires AllBelow(nums)
    ensures Highs(nums) == 0
  {
    assert LONG_MAX !in nums;
  }

  /** merge. `chosen`: every turn has chosen a segment, as the C code takes for granted; so it is exactly
      when all numbers are below LONG_MAX, and then `snums` is the sorted arrangement of `nums`. Otherwise
      the index of an earlier turn is used again. `defined`: nothing unset and nothing past the end was
      read; then the outcome is correct exactly if the numbers read that way happen to be LONG_MAX. */
  method Merge(nums: array<int>, snums: array<int>, nthr: nat, tnum: nat) returns (chosen: bool, defined: bool)
    requires nums != snums && snums.Length == nums.Length == nthr * tnum
    requires PiecesSorted(nums[..], Starts(nthr, tnum))
    requires forall k :: 0 <= k < nums.Length ==> nums[k] <= LONG_MAX
    modifies snums
    ensures chosen <==> AllBelow(nums[..])
    ensures chosen ==> defined && Correct(nums[..], snums[..])
    ensures defined <==> !Undefined(nums[..], Starts(nthr, tnum))
    ensures defined ==> Outcome(nums[..], Starts(nthr, tnum), snums[..])
  {
    hide Going, Stale, Fresh, Undefined, Outcome, AllBelow;
    ghost var all := nums[..];
    StartsAscend(nthr, tnum);
    var bound := Starts(nthr, tnum);
    var idx, sidx, last := bound[..nthr], 0, None;
    ghost var missed, p := false, 0;
    FreshGoing(all, bound);
    assert snums[..0] == [];
    chosen, defined := true, true;
    while sidx < nums.Length
      invariant 0 <= sidx <= nums.Length && nums[..] == all && chosen == !missed && (missed ==> !AllBelow(all))
      invariant Going(all, snums[..sidx], idx, bound, last, missed, p)
    {
      var found;
      found, defined, idx, last, missed, p := MergeTurn(nums, snums, idx, bound, sidx, last, missed, p);
      chosen := chosen && found;
      if !defined {
        UndefinedIsNotBelow(all, bound);
        chosen := false;
        return;
      }
      sidx := sidx + 1;
    }
    assert snums[..sidx] == snums[..];
    GoingCases(all, snums[..], idx, bound, last, missed, p);
    if missed {
      StaleEnd(all, snums[..], idx, bound, last.value, p);
    } else {
      FreshEnd(all, snums[..], idx, bound, last);
      BelowOutcome(all, bound, snums[..]);
    }
  }

  lemma FreshGoing(nums: seq<int>, bound: seq<nat>)
    requires Bounds(bound, |nums|)
    ensures Going(nums, [], bound[..|bound| - 1], bound, None, false, 0)
  {
    hide Fresh;
    FreshStart(nums, bound);
  }

  lemma UndefinedIsNotBelow(nums: seq<int>, bound: seq<nat>)
    requires Undefined(nums, bound)
    ensures !AllBelow(nums)
  {
    if AllBelow(nums) { NoHighs(nums); }
  }

  // ----- the two ways it goes wrong

  /** Three segments of one number: the 0 comes out twice, and the LONG_MAX never. */
  lemma WrongOutcome(r: seq<int>)
    ensures PiecesSorted([1, 0, LONG_MAX], Starts(3, 1)) && !Undefined([1, 0, LONG_MAX], Starts(3, 1))
    ensures Outcome([1, 0, LONG_MAX], Starts(3, 1), r) ==> r == [0, 1, 0] && !Correct([1, 0, LONG_MAX], r)
  {
    var nums, bound := [1, 0, LONG_MAX], Starts(3, 1);
    assert nums == [1] + [0] + [LONG_MAX];
    assert Highs(nums) == 1;
    assert TailStart(nums, bound, 0, 1);
    forall m: nat, p: nat | TailStart(nums, bound, m, p) ensures p == 1 { TailBehindOne(m, p); }
    hide TailStart, SortedLows;
    if Outcome(nums, bound, r) {
      assert r[2..] == nums[1..2] == [0];
      TwoLows(r[..2]);
      assert r == r[..2] + r[2..];
    }
  }

  lemma TailBehindOne(m: nat, p: nat)
    requires TailStart([1, 0, LONG_MAX], Starts(3, 1), m, p)
    ensures p == 1
  {
    assert [1, 0, LONG_MAX][0] <= [1, 0, LONG_MAX][p - 1];
  }

  lemma TwoLows(first: seq<int>)
    requires SortedLows([1, 0, LONG_MAX], first)
    ensures first == [0, 1]
  {
    assert multiset([1, 0, LONG_MAX]) == multiset{1, 0, LONG_MAX};
    assert multiset(first)[0] == 1 && multiset(first)[1] == 1;
    assert first == [first[0], first[1]];
    assert first[0] in multiset([1, 0, LONG_MAX]) && first[1] in multiset([1, 0, LONG_MAX]);
  }

  /** A LONG_MAX in the first of two such segments: the merge reads one number behind the array. */
  lemma PastTheEnd()
    ensures PiecesSorted([LONG_MAX, 0], Starts(2, 1)) && Undefined([LONG_MAX, 0], Starts(2, 1))
  {
    assert Highs([LONG_MAX, 0]) >= 1;
    assert TailStart([LONG_MAX, 0], Starts(2, 1), 1, 2);
  }
}
