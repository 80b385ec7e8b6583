/** The byte-level sorts of the library: quicksort with a pivot that points into the array being
    rearranged, and merge sort through a temporary block. */
module Sorting {
  import opened Bytes
  import opened Elements
  import opened SortSpec

  ghost predicate SameOutside<T(!new)>(s: seq<T>, t: seq<T>, from: nat, to: nat) {
    |s| == |t| && forall k :: 0 <= k < |s| && !(from <= k < to) ==> t[k] == s[k]
  }

  /** `t` is `s` with the elements of [from, to) rearranged and nothing else touched. */
  ghost predicate Rearranged<T(!new)>(s: seq<T>, t: seq<T>, from: nat, to: nat) {
    && from <= to <= |s| == |t|
    && SameOutside(s, t, from, to)
    && multiset(t[from..to]) == multiset(s[from..to])
  }

  ghost predicate SortedFrom<T(!new)>(s: seq<T>, from: nat, to: nat, cmp: Cmp<T>)
    requires from <= to <= |s|
  {
    Sorted(s[from..to], cmp)
  }

  // ----- quicksort

  ghost predicate AllReflexive<T(!new)>(cmp: Cmp<T>) {
    forall x :: cmp(x, x) == 0
  }

  lemma SwapRearranges<T(!new)>(s: seq<T>, t: seq<T>, p: nat, q: nat, from: nat, to: nat)
    requires from <= p < to <= |s| && from <= q < to && t == s[p := s[q]][q := s[p]]
    ensures Rearranged(s, t, from, to)
  {
    var a, b := s[from..to], t[from..to];
    assert b == a[p - from := a[q - from]][q - from := a[p - from]];
    SwapKeepsMultiset(a, p - from, q - from);
  }

  lemma SwapKeepsMultiset<T(!new)>(a: seq<T>, i: nat, j: nat)
    requires i < |a| && j < |a|
    ensures multiset(a[i := a[j]][j := a[i]]) == multiset(a)
  {
  }

  lemma RearrangedTwice<T(!new)>(s: seq<T>, t: seq<T>, u: seq<T>, from: nat, to: nat)
    requires Rearranged(s, t, from, to) && Rearranged(t, u, from, to)
    ensures Rearranged(s, u, from, to)
  {
  }

  /** The inner loops of my_partition: from the right down to an element below the pivot ... */
  method ScanDown(base: array<byte>, begin: nat, low: nat, high: nat, size: nat, cmp: Cmp<Element>) returns (h: nat)
    requires low <= high
    ensures low <= h <= high
    ensures forall k :: h < k <= high ==> cmp(Elem(base[..], k, size), Elem(base[..], begin, size)) >= 0
    ensures h > low ==> cmp(Elem(base[..], h, size), Elem(base[..], begin, size)) < 0
  {
    h := high;
    while h > low && cmp(Elem(base[..], h, size), Elem(base[..], begin, size)) >= 0
      invariant low <= h <= high
      invariant forall k :: h < k <= high ==> cmp(Elem(base[..], k, size), Elem(base[..], begin, size)) >= 0
    {
      h := h - 1;
    }
  }

  /** ... and from the left up to one above it. */
  method ScanUp(base: array<byte>, begin: nat, low: nat, high: nat, size: nat, cmp: Cmp<Element>) returns (l: nat)
    requires low <= high
    ensures low <= l <= high
    ensures forall k :: low <= k < l ==> cmp(Elem(base[..], k, size), Elem(base[..], begin, size)) <= 0
    ensures l < high ==> cmp(Elem(base[..], l, size), Elem(base[..], begin, size)) > 0
  {
    l := low;
    while l < high && cmp(Elem(base[..], l, size), Elem(base[..], begin, size)) <= 0
      invariant low <= l <= high
      invariant forall k :: low <= k < l ==> cmp(Elem(base[..], k, size), Elem(base[..], begin, size)) <= 0
    {
      l := l + 1;
    }
  }

  /** The state of the partition loop on the view `s`: the pivot still at `begin`, the left part no
      greater, the right part no smaller. */
  ghost predicate Split<T(!new)>(s0: seq<T>, s: seq<T>, begin: nat, low: nat, high: nat, end: nat, cmp: Cmp<T>) {
    && begin <= low <= high <= end < |s|
    && Rearranged(s0, s, begin, end + 1)
    && s[begin] == s0[begin]
    && (forall k :: begin <= k <= low ==> cmp(s[k], s0[begin]) <= 0)
    && (forall k :: high < k <= end ==> cmp(s[k], s0[begin]) >= 0)
  }

  lemma SwapKeepsOrder<T(!new)>(s: seq<T>, p: T, begin: nat, low: nat, l: nat, h: nat, high: nat, end: nat, cmp: Cmp<T>)
    requires begin <= low <= l < h <= high <= end < |s| && begin < l
    requires forall k :: begin <= k <= low ==> cmp(s[k], p) <= 0
    requires forall k :: low <= k < l ==> cmp(s[k], p) <= 0
    requires forall k :: h < k <= high ==> cmp(s[k], p) >= 0
    requires forall k :: high < k <= end ==> cmp(s[k], p) >= 0
    requires cmp(s[h], p) < 0 < cmp(s[l], p)
    ensures var t := s[h := s[l]][l := s[h]];
      && (forall k :: begin <= k <= l ==> cmp(t[k], p) <= 0)
      && (forall k :: h < k <= end ==> cmp(t[k], p) >= 0)
  {
  }

  lemma SwapAgain<T(!new)>(s0: seq<T>, s: seq<T>, t: seq<T>, p: nat, q: nat, from: nat, to: nat)
    requires Rearranged(s0, s, from, to) && from <= p < to && from <= q < to && t == s[p := s[q]][q := s[p]]
    ensures Rearranged(s0, t, from, to) && |s0| == |s|
  {
    SwapRearranges(s, t, p, q, from, to);
    RearrangedTwice(s0, s, t, from, to);
  }

  lemma SplitSwap<T(!new)>(s0: seq<T>, s: seq<T>, begin: nat, low: nat, l: nat, h: nat, high: nat, end: nat,
      cmp: Cmp<T>)
    requires Split(s0, s, begin, low, high, end, cmp) && low <= l < h <= high && begin < l
    requires forall k :: h < k <= high ==> cmp(s[k], s[begin]) >= 0
    requires forall k :: low <= k < l ==> cmp(s[k], s[begin]) <= 0
    requires cmp(s[h], s[begin]) < 0 < cmp(s[l], s[begin])
    ensures Split(s0, s[h := s[l]][l := s[h]], begin, l, h, end, cmp)
  {
    hide Rearranged;
    SwapAgain(s0, s, s[h := s[l]][l := s[h]], h, l, begin, end + 1);
    SwapKeepsOrder(s, s[begin], begin, low, l, h, high, end, cmp);
  }

  /** No greater on the left of the pivot, no smaller on the right. */
  ghost predicate Parted<T(!new)>(s: seq<T>, begin: nat, p: nat, end: nat, cmp: Cmp<T>) {
    && begin <= p <= end < |s|
    && (forall k :: begin <= k <= p ==> cmp(s[k], s[p]) <= 0)
    && (forall k :: p <= k <= end ==> cmp(s[k], s[p]) >= 0)
  }

  /** Exchanging the pivot with the element where the scans met finishes the partition. */
  lemma PivotHome<T(!new)>(s0: seq<T>, s: seq<T>, begin: nat, low: nat, end: nat, cmp: Cmp<T>)
    requires Split(s0, s, begin, low, low, end, cmp) && cmp(s[begin], s[begin]) == 0
    ensures var t := s[low := s[begin]][begin := s[low]];
      Rearranged(s0, t, begin, end + 1) && Parted(t, begin, low, end, cmp) && t[low] == s[begin]
    ensures low == begin ==> s[low := s[begin]][begin := s[low]] == s
  {
    hide Rearranged;
    SwapAgain(s0, s, s[low := s[begin]][begin := s[low]], low, begin, begin, end + 1);
  }

  /** One turn of the partition loop. The pivot is compared through the pointer to element `begin`, and
      that element is never moved. */
  method PartitionTurn(base: array<byte>, begin: nat, low: nat, high: nat, end: nat, size: nat, cmp: Cmp<Element>,
                       ghost n: nat, ghost s0: seq<Element>) returns (l: nat, h: nat)
    requires Offset(n, size) <= base.Length && low < high
    requires Split(s0, Elems(base[..], size, n), begin, low, high, end, cmp)
    modifies base
    ensures Split(s0, Elems(base[..], size, n), begin, l, h, end, cmp)
    ensures h - l < high - low
    ensures base[Offset(n, size)..] == old(base[Offset(n, size)..])
  {
    hide Rearranged;
    ghost var s := Elems(base[..], size, n);
    h := ScanDown(base, begin, low, high, size, cmp);
    l := ScanUp(base, begin, low, h, size, cmp);
    if h > l {
      assert s[low] == Elem(base[..], low, size);
      SplitSwap(s0, s, begin, low, l, h, high, end, cmp);
      Swap(base, h, l, size, n);
    }
  }

  /** my_partition. */
  method Partition(base: array<byte>, begin: nat, end: nat, size: nat, cmp: Cmp<Element>,
      ghost n: nat) returns (pivotIndex: nat)
    requires begin <= end < n && Offset(n, size) <= base.Length && AllReflexive(cmp)
    modifies base
    ensures Rearranged(old(Elems(base[..], size, n)), Elems(base[..], size, n), begin, end + 1)
    ensures begin <= pivotIndex <= end && Parted(Elems(base[..], size, n), begin, pivotIndex, end, cmp)
    ensures Elem(base[..], pivotIndex, size) == old(Elem(base[..], begin, size))
    ensures base[Offset(n, size)..] == old(base[Offset(n, size)..])
  {
    hide Parted;
    ghost var s0 := Elems(base[..], size, n);
    var low: nat, high: nat := begin, end;
    while low < high
      invariant Split(s0, Elems(base[..], size, n), begin, low, high, end, cmp)
      invariant base[Offset(n, size)..] == old(base[Offset(n, size)..])
      decreases high - low
    {
      low, high := PartitionTurn(base, begin, low, high, end, size, cmp, n, s0);
    }
    PivotHome(s0, Elems(base[..], size, n), begin, low, end, cmp);
    if low > begin { Swap(base, low, begin, size, n); }
    pivotIndex := low;
  }

  /** Where an element of a rearranged range has come from. */
  lemma ComesFrom<T(!new)>(s: seq<T>, t: seq<T>, from: nat, to: nat, k: nat) returns (j: nat)
    requires Rearranged(s, t, from, to) && from <= k < to
    ensures from <= j < to && s[j] == t[k]
  {
    assert t[from..to][k - from] in multiset(s[from..to]);
    var i :| 0 <= i < |s[from..to]| && s[from..to][i] == t[k];
    j := from + i;
  }

  lemma PartRest<T(!new)>(s: seq<T>, t: seq<T>, begin: nat, p: nat, end: nat, cmp: Cmp<T>, from: nat, to: nat)
    requires Parted(s, begin, p, end, cmp) && Rearranged(s, t, from, to)
    requires begin <= from && (to <= p || from == p + 1) && to <= end + 1
    ensures Parted(t, begin, p, end, cmp) && t[p] == s[p]
    ensures Rearranged(s, t, begin, end + 1)
  {
    WiderRearranged(s, t, from, to, begin, end + 1);
    forall k | begin <= k <= end ensures (k <= p ==> cmp(t[k], s[p]) <= 0) && (k >= p ==> cmp(t[k], s[p]) >= 0) {
      if from <= k < to {
        var j := ComesFrom(s, t, from, to, k);
        assert (k <= p ==> cmp(s[j], s[p]) <= 0) && (k >= p ==> cmp(s[j], s[p]) >= 0);
      }
    }
  }

  lemma WiderRearranged<T(!new)>(s: seq<T>, t: seq<T>, from: nat, to: nat, begin: nat, end: nat)
    requires Rearranged(s, t, from, to) && begin <= from && to <= end <= |s|
    ensures Rearranged(s, t, begin, end)
  {
    assert t[begin..end] == t[begin..from] + t[from..to] + t[to..end];
    assert s[begin..end] == s[begin..from] + s[from..to] + s[to..end];
    assert t[begin..from] == s[begin..from] && t[to..end] == s[to..end];
  }

  /** Sorted halves around a pivot in its place make the whole range sorted. */
  lemma JoinSorted<T(!new)>(s: seq<T>, begin: nat, p: nat, end: nat, cmp: Cmp<T>)
    requires Preorder(cmp) && Parted(s, begin, p, end, cmp)
    requires SortedFrom(s, begin, p, cmp) && SortedFrom(s, p + 1, end + 1, cmp)
    ensures SortedFrom(s, begin, end + 1, cmp)
  {
    var r := s[begin..end + 1];
    forall i, j | 0 <= i < j < |r| ensures cmp(r[i], r[j]) <= 0 {
      var x, y := begin + i, begin + j;
      assert r[i] == s[x] && r[j] == s[y];
      if y < p {
        assert s[begin..p][i] == s[x] && s[begin..p][j] == s[y];
      } else if x > p {
        assert s[p + 1..end + 1][x - p - 1] == s[x] && s[p + 1..end + 1][y - p - 1] == s[y];
      } else {
        assert cmp(s[x], s[p]) <= 0 && cmp(s[y], s[p]) >= 0;
        assert Antisymmetric(cmp, s[p], s[y]) && Antisymmetric(cmp, s[y], s[p]);
        assert Transitive(cmp, s[x], s[p], s[y]);
      }
    }
  }

  lemma PreorderReflexive<T(!new)>(cmp: Cmp<T>)
    requires Preorder(cmp)
    ensures AllReflexive(cmp)
  {
    forall x ensures cmp(x, x) == 0 { Reflexive(cmp, x); }
  }

  /** Partition, then each side sorted on its own, is the range sorted. */
  lemma QsortGlue<T(!new)>(s0: seq<T>, s1: seq<T>, s2: seq<T>, s3: seq<T>,
                  begin: nat, p: nat, end: nat, cmp: Cmp<T>)
    requires Preorder(cmp) && Parted(s1, begin, p, end, cmp) && Rearranged(s0, s1, begin, end + 1)
    requires Rearranged(s1, s2, begin, p) && SortedFrom(s2, begin, p, cmp)
    requires Rearranged(s2, s3, p + 1, end + 1) && SortedFrom(s3, p + 1, end + 1, cmp)
    ensures Rearranged(s0, s3, begin, end + 1) && SortedFrom(s3, begin, end + 1, cmp)
  {
    hide Preorder, Parted;
    PartRest(s1, s2, begin, p, end, cmp, begin, p);
    PartRest(s2, s3, begin, p, end, cmp, p + 1, end + 1);
    assert s3[begin..p] == s2[begin..p];
    JoinSorted(s3, begin, p, end, cmp);
    RearrangedTwice(s0, s1, s2, begin, end + 1);
    RearrangedTwice(s0, s2, s3, begin, end + 1);
  }

  lemma NothingToSort<T(!new)>(s: seq<T>, begin: nat, end: nat, cmp: Cmp<T>)
    requires begin <= end <= begin + 1 && end <= |s|
    ensures Rearranged(s, s, begin, end) && SortedFrom(s, begin, end, cmp)
  {
  }

  /** do_qsort; `end` may be one less than `begin`, or -1. */
  method DoQsort(base: array<byte>, begin: nat, end: int, size: nat, cmp: Cmp<Element>, ghost n: nat)
    requires begin - 1 <= end < n && begin <= n && Offset(n, size) <= base.Length && Preorder(cmp)
    modifies base
    ensures Rearranged(old(Elems(base[..], size, n)), Elems(base[..], size, n), begin, end + 1)
    ensures SortedFrom(Elems(base[..], size, n), begin, end + 1, cmp)
    ensures base[Offset(n, size)..] == old(base[Offset(n, size)..])
    decreases end - begin + 1
  {
    hide Rearranged, Parted, Preorder;
    ghost var s0 := Elems(base[..], size, n);
    if end <= begin {
      NothingToSort(s0, begin, end + 1, cmp);
      return;
    }
    PreorderReflexive(cmp);
    var p := Partition(base, begin, end, size, cmp, n);
    ghost var s1 := Elems(base[..], size, n);
    DoQsort(base, begin, (p as int) - 1, size, cmp, n);
    ghost var s2 := Elems(base[..], size, n);
    DoQsort(base, p + 1, end, size, cmp, n);
    QsortGlue(s0, s1, s2, Elems(base[..], size, n), begin, p, end, cmp);
  }

  /** my_qsort: sorts the whole array; the bytes behind it stay. */
  method MyQsort(base: array<byte>, count: nat, size: nat, cmp: Cmp<Element>)
    requires Offset(count, size) <= base.Length && Preorder(cmp)
    modifies base
    ensures multiset(Elems(base[..], size, count)) == multiset(old(Elems(base[..], size, count)))
    ensures Sorted(Elems(base[..], size, count), cmp)
    ensures base[Offset(count, size)..] == old(base[Offset(count, size)..])
  {
    ghost var s0 := Elems(base[..], size, count);
    DoQsort(base, 0, count - 1, size, cmp, count);
    ghost var s := Elems(base[..], size, count);
    assert s[0..count] == s && s0[0..count] == s0;
  }

  // ----- merge sort

  /** The range [from, to] of the view. */
  function Range<T(!new)>(s: seq<T>, from: nat, to: nat): seq<T>
    requires from <= to + 1 <= |s|
  {
    s[from..to + 1]
  }

  /** `t` is `s` with `r` in place of the elements from `from` on. */
  ghost predicate Replaced<T(!new)>(s: seq<T>, t: seq<T>, from: nat, r: seq<T>) {
    && from + |r| <= |s| == |t|
    && SameOutside(s, t, from, from + |r|)
    && forall k :: 0 <= k < |r| ==> t[from + k] == r[k]
  }

  /** One turn of the first loop of do_merge: the next element of `tmp`, from the run it comes from. */
  method MergeOne(tmp: array<byte>, base: array<byte>, i: nat, left: nat, middle: nat, right: nat, to: nat,
                  size: nat, cmp: Cmp<Element>, ghost len: nat, ghost n: nat, ghost merged: seq<Element>)
    returns (l: nat, r: nat)
    requires tmp != base && i < len && to < n && (left <= middle || right <= to)
    requires Offset(n, size) <= base.Length && Offset(len, size) <= tmp.Length
    requires Merging(merged, Elems(base[..], size, n), Elems(tmp[..], size, len), i, left, middle, right, to, cmp)
    modifies tmp
    ensures l + r == left + right + 1
    ensures Merging(merged, Elems(base[..], size, n), Elems(tmp[..], size, len), i + 1, l, middle, r, to, cmp)
  {
    hide Merge, Merging;
    ghost var s, t := Elems(base[..], size, n), Elems(tmp[..], size, len);
    MergeTurn(merged, s, t, i, left, middle, right, to, cmp);
    assert left <= middle ==> s[left] == Elem(base[..], left, size);
    assert right <= to ==> s[right] == Elem(base[..], right, size);
    if left > middle || (right <= to && cmp(Elem(base[..], left, size), Elem(base[..], right, size)) > 0) {
      CopyElem(tmp, i, base, right, size, len, n);
      l, r := left, right + 1;
    } else {
      CopyElem(tmp, i, base, left, size, len, n);
      l, r := left + 1, right;
    }
  }

  /** The first loop of do_merge: `tmp` receives the merge of the two runs of `base`. */
  method MergeInto(tmp: array<byte>, base: array<byte>, from: nat, middle: nat, to: nat, size: nat,
      cmp: Cmp<Element>, ghost n: nat)
    requires tmp != base && from <= middle < to < n
    requires Offset(n, size) <= base.Length && Offset(to - from + 1, size) <= tmp.Length
    modifies tmp
    ensures Elems(tmp[..], size, to - from + 1) ==
      Merge(Range(Elems(base[..], size, n), from, middle), Range(Elems(base[..], size, n), middle + 1, to), cmp)
  {
    hide Merge, Merging;
    ghost var s := Elems(base[..], size, n);
    ghost var len := to - from + 1;
    var left: nat, right: nat := from, middle + 1;
    ghost var merged := Merge(Range(s, from, middle), Range(s, middle + 1, to), cmp);
    MergeStart(s, Elems(tmp[..], size, len), from, middle, to, cmp);
    for i := 0 to to - from + 1
      invariant left + right == from + middle + 1 + i
      invariant Merging(merged, s, Elems(tmp[..], size, len), i, left, middle, right, to, cmp)
    {
      left, right := MergeOne(tmp, base, i, left, middle, right, to, size, cmp, len, n, merged);
    }
    MergeEnd(merged, s, Elems(tmp[..], size, len), left, middle, right, to, cmp);
  }

  lemma MergeStart<T(!new)>(s: seq<T>, t: seq<T>, from: nat, middle: nat, to: nat, cmp: Cmp<T>)
    requires from <= middle + 1 <= to + 1 <= |s|
    ensures Merging(Merge(Range(s, from, middle), Range(s, middle + 1, to), cmp),
                    s, t, 0, from, middle, middle + 1, to, cmp)
  {
    assert t[..0] == [];
  }

  lemma MergeEnd<T(!new)>(merged: seq<T>, s: seq<T>, t: seq<T>, left: nat, middle: nat, right: nat, to: nat,
      cmp: Cmp<T>)
    requires Merging(merged, s, t, |t|, left, middle, right, to, cmp) && |merged| == |t|
    ensures t == merged
  {
    assert t[..|t|] == t;
  }

  /** `t` holds the first `i` elements of the merge; the rest is the merge of what is left of the runs. */
  ghost predicate Merging<T(!new)>(merged: seq<T>, s: seq<T>, t: seq<T>, i: nat, left: nat, middle: nat, right: nat,
      to: nat, cmp: Cmp<T>) {
    && left <= middle + 1 <= right <= to + 1 <= |s| && i <= |t|
    && merged == t[..i] + Merge(s[left..middle + 1], s[right..to + 1], cmp)
  }

  /** One element further: from the right run when the left is exhausted or its head is greater. */
  lemma MergeTurn<T(!new)>(merged: seq<T>, s: seq<T>, t: seq<T>, i: nat, left: nat, middle: nat, right: nat, to: nat,
      cmp: Cmp<T>)
    requires Merging(merged, s, t, i, left, middle, right, to, cmp) && i < |t| && (left <= middle || right <= to)
    ensures if left > middle || (right <= to && cmp(s[left], s[right]) > 0)
      then Merging(merged, s, t[i := s[right]], i + 1, left, middle, right + 1, to, cmp)
      else Merging(merged, s, t[i := s[left]], i + 1, left + 1, middle, right, to, cmp)
  {
    var a, b := s[left..middle + 1], s[right..to + 1];
    MergeHead(a, b, cmp);
    if right <= to { assert b[0] == s[right] && b[1..] == s[right + 1..to + 1]; }
    if left <= middle { assert a[0] == s[left] && a[1..] == s[left + 1..middle + 1]; }
  }

  lemma MergeHead<T(!new)>(a: seq<T>, b: seq<T>, cmp: Cmp<T>)
    ensures a == [] && b != [] ==> Merge(a, b, cmp) == [b[0]] + Merge(a, b[1..], cmp)
    ensures a != [] && b == [] ==> Merge(a, b, cmp) == [a[0]] + Merge(a[1..], b, cmp)
    ensures a != [] && b != [] ==>
      Merge(a, b, cmp) == if cmp(a[0], b[0]) > 0 then [b[0]] + Merge(a, b[1..], cmp) else [a[0]] + Merge(a[1..], b, cmp)
  {
    if b == [] && a != [] { assert Merge(a[1..], b, cmp) == a[1..]; }
  }

  /** The second loop of do_merge. */
  method CopyBack(base: array<byte>, from: nat, tmp: array<byte>, len: nat, size: nat, ghost n: nat)
    requires tmp != base && from + len <= n && Offset(n, size) <= base.Length && Offset(len, size) <= tmp.Length
    modifies base
    ensures Replaced(old(Elems(base[..], size, n)), Elems(base[..], size, n), from, Elems(tmp[..], size, len))
    ensures base[Offset(n, size)..] == old(base[Offset(n, size)..])
  {
    ghost var s0 := Elems(base[..], size, n);
    ghost var r := Elems(tmp[..], size, len);
    var i := 0;
    while i < len
      invariant 0 <= i <= len
      invariant Replaced(s0, Elems(base[..], size, n), from, r[..i])
      invariant base[Offset(n, size)..] == old(base[Offset(n, size)..])
    {
      ghost var s := Elems(base[..], size, n);
      CopyElem(base, from + i, tmp, i, size, n, len);
      ReplacedOneMore(s0, s, from, r, i);
      i := i + 1;
    }
    assert r[..i] == r;
  }

  lemma ReplacedOneMore<T(!new)>(s0: seq<T>, s: seq<T>, from: nat, r: seq<T>, i: nat)
    requires i < |r| && from + |r| <= |s0| && Replaced(s0, s, from, r[..i])
    ensures Replaced(s0, s[from + i := r[i]], from, r[..i + 1])
  {
  }

  /** `t` is `s` with the elements of [from, to) arranged as a stable sort does, nothing else touched. */
  ghost predicate RangeArranged<T(!new)>(s: seq<T>, t: seq<T>, from: nat, to: nat, cmp: Cmp<T>) {
    from <= to <= |s| && SameOutside(s, t, from, to) && Arranged(s[from..to], t[from..to], cmp)
  }

  /** do_my_merge_sort, with its shortcut for two elements. */
  method DoMergeSort(base: array<byte>, from: nat, to: int, size: nat, cmp: Cmp<Element>, ghost n: nat)
    requires from - 1 <= to < n && from <= n && Offset(n, size) <= base.Length && Preorder(cmp)
    modifies base
    ensures RangeArranged(old(Elems(base[..], size, n)), Elems(base[..], size, n), from, to + 1, cmp)
    ensures base[Offset(n, size)..] == old(base[Offset(n, size)..])
    decreases 1 + to - from, 1
  {
    hide Arranged;
    ghost var s0 := Elems(base[..], size, n);
    if from >= to {
      ShortIsArranged(s0, from, to + 1, cmp);
      assert RangeArranged(s0, Elems(base[..], size, n), from, to + 1, cmp);
    } else if to - from == 1 {
      SortPair(base, from, to, size, cmp, n);
      assert RangeArranged(s0, Elems(base[..], size, n), from, to + 1, cmp);
    } else {
      SortHalves(base, from, to, size, cmp, n);
      DoMerge(base, from, to, size, cmp, n, s0);
      assert RangeArranged(s0, Elems(base[..], size, n), from, to + 1, cmp);
    }
  }

  /** The two recursive calls. */
  method SortHalves(base: array<byte>, from: nat, to: nat, size: nat, cmp: Cmp<Element>, ghost n: nat)
    requires from < to - 1 && to < n && Offset(n, size) <= base.Length && Preorder(cmp)
    modifies base
    ensures HalvesArranged(old(Elems(base[..], size, n)), Elems(base[..], size, n),
                           from, from + (to - from) / 2 + 1, to + 1, cmp)
    ensures base[Offset(n, size)..] == old(base[Offset(n, size)..])
    decreases 1 + to - from, 0
  {
    hide Arranged;
    ghost var s0 := Elems(base[..], size, n);
    var middle := from + (to - from) / 2;
    DoMergeSort(base, from, middle, size, cmp, n);
    ghost var s1 := Elems(base[..], size, n);
    DoMergeSort(base, middle + 1, to, size, cmp, n);
    ghost var s2 := Elems(base[..], size, n);
    assert RangeArranged(s1, s2, middle + 1, to + 1, cmp);
    OneThenOther(s0, s1, s2, from, middle + 1, to + 1, cmp);
    assert HalvesArranged(s0, s2, from, middle + 1, to + 1, cmp);
  }

  /** do_merge: where the halves of a range are arranged, the range becomes so; a range of fewer than two
      elements is left alone. */
  method DoMerge(base: array<byte>, from: nat, to: int, size: nat, cmp: Cmp<Element>, ghost n: nat,
      ghost s0: seq<Element>)
    requires to < n && Offset(n, size) <= base.Length && Preorder(cmp)
    requires from < to ==> HalvesArranged(s0, Elems(base[..], size, n), from, from + (to - from) / 2 + 1, to + 1, cmp)
    modifies base
    ensures from < to ==> RangeArranged(s0, Elems(base[..], size, n), from, to + 1, cmp)
    ensures from >= to ==> base[..] == old(base[..])
    ensures base[Offset(n, size)..] == old(base[Offset(n, size)..])
  {
    hide Arranged, Merge, RangeArranged, HalvesArranged, SameOutside, Replaced;
    if from >= to { return; }
    ghost var s := Elems(base[..], size, n);
    var middle := from + (to - from) / 2;
    var tmp := new byte[Offset(to - from + 1, size)];
    MergeInto(tmp, base, from, middle, to, size, cmp, n);
    ghost var r := Elems(tmp[..], size, to - from + 1);
    RunsMerged(s0, s, r, from, middle + 1, to + 1, cmp);
    CopyBack(base, from, tmp, to - from + 1, size, n);
    RunsReplaced(s0, s, Elems(base[..], size, n), r, from, to + 1, cmp);
  }

  /** The shortcut for two elements: exchanged only if the first is strictly greater. */
  method SortPair(base: array<byte>, from: nat, to: nat, size: nat, cmp: Cmp<Element>, ghost n: nat)
    requires from + 1 == to < n && Offset(n, size) <= base.Length && Preorder(cmp)
    modifies base
    ensures RangeArranged(old(Elems(base[..], size, n)), Elems(base[..], size, n), from, to + 1, cmp)
    ensures base[Offset(n, size)..] == old(base[Offset(n, size)..])
  {
    ghost var s0 := Elems(base[..], size, n);
    assert s0[from] == Elem(base[..], from, size) && s0[to] == Elem(base[..], to, size);
    ghost var t := s0[from := s0[to]][to := s0[from]];
    PairArranged(s0, from, to, cmp);
    if cmp(Elem(base[..], from, size), Elem(base[..], to, size)) > 0 {
      Swap(base, from, to, size, n);
      assert Elems(base[..], size, n) == t;
    }
  }

  lemma ShortIsArranged<T(!new)>(s: seq<T>, from: nat, to: nat, cmp: Cmp<T>)
    requires from <= to <= |s| && to <= from + 1
    ensures RangeArranged(s, s, from, to, cmp)
  {
  }

  lemma PairArranged<T(!new)>(s: seq<T>, i: nat, j: nat, cmp: Cmp<T>)
    requires Preorder(cmp) && i + 1 == j < |s|
    ensures cmp(s[i], s[j]) > 0 ==> RangeArranged(s, s[i := s[j]][j := s[i]], i, j + 1, cmp)
    ensures cmp(s[i], s[j]) <= 0 ==> RangeArranged(s, s, i, j + 1, cmp)
  {
    hide Arranged;
    var a, b := [s[i]], [s[j]];
    MergeArranges(a, b, a, b, cmp);
    assert a[1..] == [] && b[1..] == [];
    assert Merge(a, b, cmp) == if cmp(s[i], s[j]) > 0 then b + a else a + b;
    assert s[i..j + 1] == a + b;
    assert s[i := s[j]][j := s[i]][i..j + 1] == b + a;
  }

  lemma SliceOutside<T(!new)>(s: seq<T>, t: seq<T>, from: nat, to: nat, lo: nat, hi: nat)
    requires SameOutside(s, t, from, to) && lo <= hi <= |s| && (hi <= from || to <= lo)
    ensures t[lo..hi] == s[lo..hi]
  {
  }

  lemma ReplacedSlice<T(!new)>(s: seq<T>, t: seq<T>, from: nat, r: seq<T>)
    requires Replaced(s, t, from, r)
    ensures t[from..from + |r|] == r
  {
  }

  lemma SameOutsideTwice<T(!new)>(s: seq<T>, t: seq<T>, u: seq<T>, from: nat, mid: nat, to: nat)
    requires from <= mid <= to && SameOutside(s, t, from, mid) && SameOutside(t, u, mid, to)
    ensures SameOutside(s, u, from, to)
  {
  }

  /** Sorting the right half leaves the sorted left half in place, and the other way round. */
  lemma OneThenOther<T(!new)>(s0: seq<T>, s1: seq<T>, s2: seq<T>, from: nat, mid: nat, to: nat, cmp: Cmp<T>)
    requires RangeArranged(s0, s1, from, mid, cmp) && RangeArranged(s1, s2, mid, to, cmp)
    ensures HalvesArranged(s0, s2, from, mid, to, cmp)
  {
    SliceOutside(s0, s1, from, mid, mid, to);
    SliceOutside(s1, s2, mid, to, from, mid);
    SameOutsideTwice(s0, s1, s2, from, mid, to);
  }

  ghost predicate HalvesArranged<T(!new)>(s: seq<T>, t: seq<T>, from: nat, mid: nat, to: nat, cmp: Cmp<T>) {
    && from <= mid <= to <= |s| && SameOutside(s, t, from, to)
    && Arranged(s[from..mid], t[from..mid], cmp) && Arranged(s[mid..to], t[mid..to], cmp)
  }

  /** Both halves sorted and then merged make the range sorted. */
  lemma RunsMerged<T(!new)>(s0: seq<T>, s: seq<T>, r: seq<T>, from: nat, mid: nat, to: nat, cmp: Cmp<T>)
    requires Preorder(cmp) && HalvesArranged(s0, s, from, mid, to, cmp) && r == Merge(s[from..mid], s[mid..to], cmp)
    ensures from <= to <= |s0| && SameOutside(s0, s, from, to) && Arranged(s0[from..to], r, cmp)
  {
    hide Arranged, Merge;
    MergeArranges(s0[from..mid], s0[mid..to], s[from..mid], s[mid..to], cmp);
    assert s0[from..to] == s0[from..mid] + s0[mid..to];
  }

  lemma RunsReplaced<T(!new)>(s0: seq<T>, s: seq<T>, t: seq<T>, r: seq<T>, from: nat, to: nat, cmp: Cmp<T>)
    requires from <= to <= |s0| && |r| == to - from && SameOutside(s0, s, from, to) && Replaced(s, t, from, r)
    requires Arranged(s0[from..to], r, cmp)
    ensures RangeArranged(s0, t, from, to, cmp)
  {
    ReplacedSlice(s, t, from, r);
  }

  /** my_merge_sort: the array becomes the stable sorted arrangement of what it was. */
  method MyMergeSort(base: array<byte>, count: nat, size: nat, cmp: Cmp<Element>)
    requires Offset(count, size) <= base.Length && Preorder(cmp)
    modifies base
    ensures Sorted(Elems(base[..], size, count), cmp)
    ensures multiset(Elems(base[..], size, count)) == multiset(old(Elems(base[..], size, count)))
    ensures Stable(old(Elems(base[..], size, count)), Elems(base[..], size, count), cmp)
    ensures base[Offset(count, size)..] == old(base[Offset(count, size)..])
  {
    ghost var s0 := Elems(base[..], size, count);
    DoMergeSort(base, 0, count - 1, size, cmp, count);
    ghost var s := Elems(base[..], size, count);
    assert s0[0..count] == s0 && s[0..count] == s;
  }

  /** Both sorts of the same bytes agree, for the comparator, at every position. */
  method SortBothWays(a: array<byte>, b: array<byte>, count: nat, size: nat, cmp: Cmp<Element>)
    requires a != b && a[..] == b[..] && Offset(count, size) <= a.Length && Preorder(cmp)
    modifies a, b
    ensures forall i :: 0 <= i < count ==> cmp(Elem(a[..], i, size), Elem(b[..], i, size)) == 0
  {
    MyQsort(a, count, size, cmp);
    MyMergeSort(b, count, size, cmp);
    SortedPermutationsAgree(Elems(a[..], size, count), Elems(b[..], size, count), cmp);
  }
}
