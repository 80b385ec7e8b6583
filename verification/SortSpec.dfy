/** What sorting means for a C comparator, and the stable merge sort as a function. */
module SortSpec {
  import opened Sums

  type Cmp<!T> = (T, T) -> int

  predicate Antisymmetric<T(!new)>(cmp: Cmp<T>, x: T, y: T) {
    cmp(x, y) > 0 <==> cmp(y, x) < 0
  }

  predicate Transitive<T(!new)>(cmp: Cmp<T>, x: T, y: T, z: T) {
    cmp(x, y) <= 0 && cmp(y, z) <= 0 ==> cmp(x, z) <= 0
  }

  /** The comparators a sort may be given: consistent signs, and transitive. */
  ghost predicate Preorder<T(!new)>(cmp: Cmp<T>) {
    && (forall x, y :: Antisymmetric(cmp, x, y))
    && (forall x, y, z :: Transitive(cmp, x, y, z))
  }

  lemma Reflexive<T(!new)>(cmp: Cmp<T>, x: T)
    requires Preorder(cmp)
    ensures cmp(x, x) == 0
  {
    assert Antisymmetric(cmp, x, x);
  }

  ghost predicate Sorted<T(!new)>(s: seq<T>, cmp: Cmp<T>) {
    forall i, j :: 0 <= i < j < |s| ==> cmp(s[i], s[j]) <= 0
  }

  /** The elements that compare equal to `x`, in the order in which they stand. */
  ghost function Class<T(!new)>(s: seq<T>, x: T, cmp: Cmp<T>): seq<T> {
    if s == [] then [] else
    (if cmp(s[0], x) == 0 then [s[0]] else []) + Class(s[1..], x, cmp)
  }

  /** Stable: no class of equal elements is reordered, gains or loses a member. */
  ghost predicate Stable<T(!new)>(s: seq<T>, r: seq<T>, cmp: Cmp<T>) {
    forall x :: Class(r, x, cmp) == Class(s, x, cmp)
  }

  // ----- two sorted permutations agree, position by position

  lemma {:induction false} CountSplit<T>(s: seq<T>, i: nat, f: T -> bool)
    requires i <= |s|
    ensures Count(s, f) == Count(s[..i], f) + Count(s[i..], f)
  {
    if i > 0 {
      CountSplit(s[1..], i - 1, f);
      assert s[..i][1..] == s[1..][..i - 1] && s[1..][i - 1..] == s[i..];
    } else {
      assert s[..0] == [] && s[0..] == s;
    }
  }

  lemma {:induction false} CountAll<T>(s: seq<T>, f: T -> bool)
    requires forall i :: 0 <= i < |s| ==> f(s[i])
    ensures Count(s, f) == |s|
  {
    if s != [] { CountAll(s[1..], f); }
  }

  function RemoveAt<T>(s: seq<T>, i: nat): seq<T>
    requires i < |s|
  {
    s[..i] + s[i + 1..]
  }

  lemma CountRemove<T>(s: seq<T>, i: nat, f: T -> bool)
    requires i < |s|
    ensures Count(s, f) == Count(RemoveAt(s, i), f) + (if f(s[i]) then 1 else 0)
  {
    var rest := RemoveAt(s, i);
    CountSplit(s, i, f);
    CountSplit(rest, i, f);
    assert rest[..i] == s[..i] && rest[i..] == s[i + 1..] && s[i..][1..] == s[i + 1..];
  }

  lemma MultisetRemove<T>(s: seq<T>, i: nat)
    requires i < |s|
    ensures multiset(s) == multiset(RemoveAt(s, i)) + multiset{s[i]}
  {
    assert s == s[..i] + [s[i]] + s[i + 1..];
  }

  lemma {:induction false} CountPermutation<T>(a: seq<T>, b: seq<T>, f: T -> bool)
    requires multiset(a) == multiset(b)
    ensures Count(a, f) == Count(b, f)
  {
    if a == [] {
      assert |b| == |multiset(b)| == 0;
    } else {
      assert a[0] in multiset(b);
      var i :| 0 <= i < |b| && b[i] == a[0];
      MultisetRemove(a, 0);
      MultisetRemove(b, i);
      assert RemoveAt(a, 0) == a[1..];
      assert multiset(a[1..]) == multiset(a) - multiset{a[0]} == multiset(b) - multiset{b[i]} ==
          multiset(RemoveAt(b, i));
      CountPermutation(a[1..], RemoveAt(b, i), f);
      CountRemove(b, i, f);
    }
  }

  lemma StrictThen<T(!new)>(cmp: Cmp<T>, x: T, y: T, z: T)
    requires Preorder(cmp) && cmp(x, y) < 0 && cmp(y, z) <= 0
    ensures cmp(x, z) < 0 && cmp(z, x) > 0
  {
    assert Antisymmetric(cmp, y, x) && Antisymmetric(cmp, z, x);
    assert Transitive(cmp, y, z, x);
  }

  lemma ThenStrict<T(!new)>(cmp: Cmp<T>, x: T, y: T, z: T)
    requires Preorder(cmp) && cmp(x, y) <= 0 && cmp(y, z) < 0
    ensures cmp(x, z) < 0 && cmp(z, x) > 0
  {
    assert Antisymmetric(cmp, z, y) && Antisymmetric(cmp, z, x);
    assert Transitive(cmp, z, x, y);
  }

  lemma NotBelow<T(!new)>(a: seq<T>, b: seq<T>, cmp: Cmp<T>, i: nat)
    requires Preorder(cmp) && Sorted(a, cmp) && Sorted(b, cmp) && multiset(a) == multiset(b)
    requires i < |a| && i < |b|
    ensures cmp(a[i], b[i]) >= 0
  {
    if cmp(a[i], b[i]) < 0 {
      var f := (x: T) => cmp(x, a[i]) <= 0;
      var low, high := a[..i + 1], b[i..];
      Reflexive(cmp, a[i]);
      Reflexive(cmp, b[i]);
      forall k | 0 <= k < |low| ensures f(low[k]) {
        assert low[k] == a[k];
      }
      CountAll(low, f);
      CountSplit(a, i + 1, f);
      forall k | 0 <= k < |high| ensures !f(high[k]) {
        assert high[k] == b[i + k];
        StrictThen(cmp, a[i], b[i], b[i + k]);
      }
      CountNone(high, f);
      CountNone(b[..i], f);
      CountSplit(b, i, f);
      CountPermutation(a, b, f);
      assert false;
    }
  }

  /** Whatever the method, two sorted arrangements of the same elements are equal for the comparator at
      every position. */
  lemma SortedPermutationsAgree<T(!new)>(a: seq<T>, b: seq<T>, cmp: Cmp<T>)
    requires Preorder(cmp) && Sorted(a, cmp) && Sorted(b, cmp) && multiset(a) == multiset(b)
    ensures |a| == |b| && forall i :: 0 <= i < |a| ==> cmp(a[i], b[i]) == 0
  {
    assert |a| == |multiset(a)| == |multiset(b)| == |b|;
    forall i | 0 <= i < |a| ensures cmp(a[i], b[i]) == 0 {
      NotBelow(a, b, cmp, i);
      NotBelow(b, a, cmp, i);
      assert Antisymmetric(cmp, a[i], b[i]) && Antisymmetric(cmp, b[i], a[i]);
    }
  }

  // ----- merging

  function Merge<T(!new)>(a: seq<T>, b: seq<T>, cmp: Cmp<T>): (r: seq<T>)
    ensures |r| == |a| + |b|
    decreases |a| + |b|
  {
    if a == [] then b
    else if b == [] then a
    else if cmp(a[0], b[0]) > 0 then [b[0]] + Merge(a, b[1..], cmp)
    else [a[0]] + Merge(a[1..], b, cmp)
  }

  lemma HeadTail<T(!new)>(s: seq<T>)
    requires s != []
    ensures multiset(s) == multiset{s[0]} + multiset(s[1..])
  {
    assert s == [s[0]] + s[1..];
  }

  lemma {:induction false} MergePermutes<T(!new)>(a: seq<T>, b: seq<T>, cmp: Cmp<T>)
    ensures multiset(Merge(a, b, cmp)) == multiset(a) + multiset(b)
    decreases |a| + |b|
  {
    if a != [] && b != [] {
      HeadTail(a);
      HeadTail(b);
      HeadTail(Merge(a, b, cmp));
      if cmp(a[0], b[0]) > 0 {
        MergePermutes(a, b[1..], cmp);
        assert Merge(a, b, cmp)[1..] == Merge(a, b[1..], cmp);
      } else {
        MergePermutes(a[1..], b, cmp);
        assert Merge(a, b, cmp)[1..] == Merge(a[1..], b, cmp);
      }
    }
  }

  lemma ConsSorted<T(!new)>(x: T, s: seq<T>, cmp: Cmp<T>)
    requires Sorted(s, cmp) && forall y :: y in s ==> cmp(x, y) <= 0
    ensures Sorted([x] + s, cmp)
  {
    var t := [x] + s;
    forall i, j | 0 <= i < j < |t| ensures cmp(t[i], t[j]) <= 0 {
      assert t[j] == s[j - 1] && s[j - 1] in s;
      if i > 0 { assert t[i] == s[i - 1]; }
    }
  }

  lemma HeadLeast<T(!new)>(a: seq<T>, cmp: Cmp<T>, x: T)
    requires Preorder(cmp) && Sorted(a, cmp) && a != [] && cmp(x, a[0]) <= 0
    ensures forall y :: y in a ==> cmp(x, y) <= 0
  {
    forall y | y in a ensures cmp(x, y) <= 0 {
      var k :| 0 <= k < |a| && a[k] == y;
      assert k == 0 || cmp(a[0], a[k]) <= 0;
      assert Transitive(cmp, x, a[0], a[k]);
    }
  }

  lemma MergeMembers<T(!new)>(a: seq<T>, b: seq<T>, cmp: Cmp<T>, y: T)
    requires y in Merge(a, b, cmp)
    ensures y in a || y in b
  {
    MergePermutes(a, b, cmp);
    assert y in multiset(Merge(a, b, cmp));
  }

  lemma {:induction false} MergeSorts<T(!new)>(a: seq<T>, b: seq<T>, cmp: Cmp<T>)
    requires Preorder(cmp) && Sorted(a, cmp) && Sorted(b, cmp)
    ensures Sorted(Merge(a, b, cmp), cmp)
    decreases |a| + |b|
  {
    if a != [] && b != [] {
      var right := cmp(a[0], b[0]) > 0;
      var x := if right then b[0] else a[0];
      var a', b' := if right then a else a[1..], if right then b[1..] else b;
      MergeSorts(a', b', cmp);
      assert Antisymmetric(cmp, a[0], b[0]);
      Reflexive(cmp, x);
      HeadLeast(a, cmp, x);
      HeadLeast(b, cmp, x);
      forall y | y in Merge(a', b', cmp) ensures cmp(x, y) <= 0 {
        MergeMembers(a', b', cmp, y);
      }
      ConsSorted(x, Merge(a', b', cmp), cmp);
    }
  }

  lemma ClassCons<T(!new)>(y: T, r: seq<T>, x: T, cmp: Cmp<T>)
    ensures Class([y] + r, x, cmp) == (if cmp(y, x) == 0 then [y] else []) + Class(r, x, cmp)
  {
    assert ([y] + r)[1..] == r;
  }

  lemma {:induction false} ClassAppend<T(!new)>(a: seq<T>, b: seq<T>, x: T, cmp: Cmp<T>)
    ensures Class(a + b, x, cmp) == Class(a, x, cmp) + Class(b, x, cmp)
  {
    if a == [] {
      assert a + b == b;
    } else {
      hide Class;
      var head := if cmp(a[0], x) == 0 then [a[0]] else [];
      ClassAppend(a[1..], b, x, cmp);
      ClassCons(a[0], a[1..], x, cmp);
      ClassCons(a[0], a[1..] + b, x, cmp);
      assert a == [a[0]] + a[1..] && a + b == [a[0]] + (a[1..] + b);
      assert head + (Class(a[1..], x, cmp) + Class(b, x, cmp)) == (head + Class(a[1..], x, cmp)) + Class(b, x, cmp);
    }
  }

  lemma {:induction false} ClassEmpty<T(!new)>(s: seq<T>, x: T, cmp: Cmp<T>)
    requires forall y :: y in s ==> cmp(y, x) != 0
    ensures Class(s, x, cmp) == []
  {
    if s != [] { ClassEmpty(s[1..], x, cmp); }
  }

  /** An element before the whole of the sorted `a` is equal to none of its elements. */
  lemma BeforeAll<T(!new)>(a: seq<T>, y: T, x: T, cmp: Cmp<T>)
    requires Preorder(cmp) && Sorted(a, cmp) && a != [] && cmp(a[0], y) > 0 && cmp(y, x) == 0
    ensures Class(a, x, cmp) == []
  {
    assert Antisymmetric(cmp, x, y) && Antisymmetric(cmp, y, x) && Antisymmetric(cmp, a[0], y);
    Reflexive(cmp, a[0]);
    HeadLeast(a, cmp, a[0]);
    forall z | z in a ensures cmp(z, x) != 0 {
      StrictThen(cmp, y, a[0], z);
      ThenStrict(cmp, x, y, z);
    }
    ClassEmpty(a, x, cmp);
  }

  /** Ties go to the left: merging keeps each class as the concatenation would. */
  lemma {:induction false} MergeStable<T(!new)>(a: seq<T>, b: seq<T>, x: T, cmp: Cmp<T>)
    requires Preorder(cmp) && Sorted(a, cmp)
    ensures Class(Merge(a, b, cmp), x, cmp) == Class(a, x, cmp) + Class(b, x, cmp)
    decreases |a| + |b|
  {
    ClassNone(x, cmp);
    hide Preorder, Class;
    if a != [] && b != [] {
      if cmp(a[0], b[0]) > 0 {
        MergeStable(a, b[1..], x, cmp);
        ClassCons(b[0], Merge(a, b[1..], cmp), x, cmp);
        ClassCons(b[0], b[1..], x, cmp);
        assert b == [b[0]] + b[1..];
        if cmp(b[0], x) == 0 { BeforeAll(a, b[0], x, cmp); }
      } else {
        var head := if cmp(a[0], x) == 0 then [a[0]] else [];
        MergeStable(a[1..], b, x, cmp);
        ClassCons(a[0], Merge(a[1..], b, cmp), x, cmp);
        ClassCons(a[0], a[1..], x, cmp);
        assert a == [a[0]] + a[1..];
        assert head + (Class(a[1..], x, cmp) + Class(b, x, cmp)) == (head + Class(a[1..], x, cmp)) + Class(b, x, cmp);
      }
    }
  }

  lemma ClassNone<T(!new)>(x: T, cmp: Cmp<T>)
    ensures Class([], x, cmp) == []
  {
  }

  /** `r` is what a stable sort makes of `s`. */
  ghost predicate Arranged<T(!new)>(s: seq<T>, r: seq<T>, cmp: Cmp<T>) {
    Sorted(r, cmp) && multiset(r) == multiset(s) && Stable(s, r, cmp)
  }

  /** Merging the stable arrangements of two halves gives the stable arrangement of the whole. */
  lemma MergeArranges<T(!new)>(a: seq<T>, b: seq<T>, a': seq<T>, b': seq<T>, cmp: Cmp<T>)
    requires Preorder(cmp) && Arranged(a, a', cmp) && Arranged(b, b', cmp)
    ensures Arranged(a + b, Merge(a', b', cmp), cmp)
  {
    MergeSorts(a', b', cmp);
    MergePermutes(a', b', cmp);
    forall x ensures Class(Merge(a', b', cmp), x, cmp) == Class(a + b, x, cmp) {
      MergeStable(a', b', x, cmp);
      ClassAppend(a, b, x, cmp);
    }
  }

  lemma HeadInClass<T(!new)>(a: seq<T>, cmp: Cmp<T>)
    requires Preorder(cmp) && a != []
    ensures Class(a, a[0], cmp) != [] && Class(a, a[0], cmp)[0] == a[0]
  {
    Reflexive(cmp, a[0]);
  }

  lemma {:induction false} ClassMembers<T(!new)>(s: seq<T>, x: T, cmp: Cmp<T>)
    ensures Class(s, x, cmp) != [] ==> exists k :: 0 <= k < |s| && cmp(s[k], x) == 0
  {
    if s != [] && cmp(s[0], x) != 0 {
      ClassMembers(s[1..], x, cmp);
      if Class(s[1..], x, cmp) != [] {
        var k :| 0 <= k < |s[1..]| && cmp(s[1..][k], x) == 0;
        assert cmp(s[k + 1], x) == 0;
      }
    }
  }

  lemma HeadsAgree<T(!new)>(s: seq<T>, a: seq<T>, b: seq<T>, cmp: Cmp<T>)
    requires Preorder(cmp) && Sorted(a, cmp) && Sorted(b, cmp) && Stable(s, a, cmp) && Stable(s, b, cmp)
    requires a != [] && b != []
    ensures a[0] == b[0]
  {
    HeadInClass(a, cmp);
    HeadInClass(b, cmp);
    assert Class(a, a[0], cmp) == Class(s, a[0], cmp) == Class(b, a[0], cmp);
    assert Class(a, b[0], cmp) == Class(s, b[0], cmp) == Class(b, b[0], cmp);
    ClassMembers(b, a[0], cmp);
    ClassMembers(a, b[0], cmp);
    var k :| 0 <= k < |b| && cmp(b[k], a[0]) == 0;
    var l :| 0 <= l < |a| && cmp(a[l], b[0]) == 0;
    Reflexive(cmp, a[0]);
    Reflexive(cmp, b[0]);
    assert cmp(b[0], b[k]) <= 0 && cmp(a[0], a[l]) <= 0;
    assert Transitive(cmp, b[0], b[k], a[0]) && Transitive(cmp, a[0], a[l], b[0]);
    assert Antisymmetric(cmp, b[0], a[0]) && Antisymmetric(cmp, a[0], b[0]);
    assert Class(b, a[0], cmp)[0] == b[0];
  }

  lemma TailsAgree<T(!new)>(s: seq<T>, a: seq<T>, b: seq<T>, cmp: Cmp<T>, x: T)
    requires a != [] && b != [] && a[0] == b[0] && Stable(s, a, cmp) && Stable(s, b, cmp)
    ensures Class(b[1..], x, cmp) == Class(a[1..], x, cmp)
  {
    assert Class(a, x, cmp) == Class(s, x, cmp) == Class(b, x, cmp);
    if cmp(a[0], x) == 0 {
      assert Class(a, x, cmp)[1..] == Class(a[1..], x, cmp) && Class(b, x, cmp)[1..] == Class(b[1..], x, cmp);
    } else {
      assert Class(a, x, cmp) == Class(a[1..], x, cmp) && Class(b, x, cmp) == Class(b[1..], x, cmp);
    }
  }

  lemma EmptyTogether<T(!new)>(s: seq<T>, a: seq<T>, b: seq<T>, cmp: Cmp<T>)
    requires Preorder(cmp) && Stable(s, a, cmp) && Stable(s, b, cmp) && a == []
    ensures b == []
  {
    if b != [] {
      assert Class(b, b[0], cmp) == Class(s, b[0], cmp) == Class(a, b[0], cmp);
      HeadInClass(b, cmp);
      assert false;
    }
  }

  /** Sorted and stable leave no freedom: there is exactly one such arrangement. */
  lemma {:induction false} StableSortIsUnique<T(!new)>(s: seq<T>, a: seq<T>, b: seq<T>, cmp: Cmp<T>)
    requires Preorder(cmp) && Sorted(a, cmp) && Sorted(b, cmp) && Stable(s, a, cmp) && Stable(s, b, cmp)
    ensures a == b
    decreases |a|
  {
    if a == [] {
      EmptyTogether(s, a, b, cmp);
    } else if b == [] {
      EmptyTogether(s, b, a, cmp);
    } else {
      HeadsAgree(s, a, b, cmp);
      forall x ensures Class(b[1..], x, cmp) == Class(a[1..], x, cmp) {
        TailsAgree(s, a, b, cmp, x);
      }
      StableSortIsUnique(a[1..], a[1..], b[1..], cmp);
      assert a == [a[0]] + a[1..] && b == [b[0]] + b[1..];
    }
  }
}
