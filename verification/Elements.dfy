/** An array of bytes seen as an array of elements of `size` bytes each: what `get_elem`, `swap` and
    `memcpy` do to that view. */
module Elements {
  import opened Bytes

  type Element = seq<byte>

  /** get_elem's pointer, relative to the base: `i` elements of `size` bytes. */
  function Offset(i: nat, size: nat): (o: nat) {
    if i == 0 then 0 else Offset(i - 1, size) + size
  }

  lemma {:induction false} OffsetIsProduct(i: nat, size: nat)
    ensures Offset(i, size) == i * size
  {
    if i > 0 { OffsetIsProduct(i - 1, size); }
  }

  function Slice(s: seq<byte>, o: nat, size: nat): Element {
    if o + size <= |s| then s[o..o + size] else []
  }

  function Elem(s: seq<byte>, i: nat, size: nat): Element {
    Slice(s, Offset(i, size), size)
  }

  function Elems(s: seq<byte>, size: nat, n: nat): (v: seq<Element>)
    ensures |v| == n && forall i :: 0 <= i < n ==> v[i] == Elem(s, i, size)
  {
    seq(n, i requires 0 <= i < n => Elem(s, i, size))
  }

  lemma {:induction false} Slots(i: nat, j: nat, size: nat)
    requires i < j
    ensures Offset(i, size) + size <= Offset(j, size)
  {
    if i < j - 1 { Slots(i, j - 1, size); }
  }

  /** Different elements do not overlap. */
  lemma Apart(i: nat, j: nat, size: nat)
    ensures i == j || Offset(i, size) + size <= Offset(j, size) || Offset(j, size) + size <= Offset(i, size)
  {
    if i < j { Slots(i, j, size); } else if j < i { Slots(j, i, size); }
  }

  ghost predicate SameElsewhere(s: seq<byte>, s': seq<byte>, o: nat, o2: nat, size: nat) {
    && |s| == |s'|
    && forall k :: 0 <= k < |s| && !(o <= k < o + size) && !(o2 <= k < o2 + size) ==> s'[k] == s[k]
  }

  /** Bytes that change only inside elements `p` and `p2` change only those elements of the view. */
  lemma OtherElem(s: seq<byte>, s': seq<byte>, p: nat, p2: nat, q: nat, size: nat)
    requires q != p && q != p2 && SameElsewhere(s, s', Offset(p, size), Offset(p2, size), size)
    ensures Elem(s', q, size) == Elem(s, q, size)
  {
    Apart(p, q, size);
    Apart(p2, q, size);
    OtherSlice(s, s', Offset(p, size), Offset(p2, size), Offset(q, size), size);
  }

  lemma OtherSlice(s: seq<byte>, s': seq<byte>, o: nat, o2: nat, r: nat, size: nat)
    requires SameElsewhere(s, s', o, o2, size)
    requires o + size <= r || r + size <= o
    requires o2 + size <= r || r + size <= o2
    ensures Slice(s', r, size) == Slice(s, r, size)
  {
  }

  /** The view after two elements have changed. */
  lemma TwoElems(s: seq<byte>, s': seq<byte>, p: nat, p2: nat, size: nat, n: nat)
    requires p < n && p2 < n && Offset(n, size) <= |s|
    requires SameElsewhere(s, s', Offset(p, size), Offset(p2, size), size)
    ensures Elems(s', size, n) == Elems(s, size, n)[p := Elem(s', p, size)][p2 := Elem(s', p2, size)]
    ensures s'[Offset(n, size)..] == s[Offset(n, size)..]
  {
    Slots(p, n, size);
    Slots(p2, n, size);
    forall q | 0 <= q < n && q != p && q != p2 ensures Elems(s', size, n)[q] == Elems(s, size, n)[q] {
      OtherElem(s, s', p, p2, q, size);
    }
  }

  /** The byte loop of swap, at two places that coincide or do not overlap. */
  method SwapBytes(base: array<byte>, o: nat, o2: nat, size: nat)
    requires o + size <= base.Length && o2 + size <= base.Length
    requires o == o2 || o + size <= o2 || o2 + size <= o
    modifies base
    ensures base[o..o + size] == old(base[o2..o2 + size]) && base[o2..o2 + size] == old(base[o..o + size])
    ensures SameElsewhere(old(base[..]), base[..], o, o2, size)
  {
    ghost var s := base[..];
    var pp, pp2, i := o, o2, 0;
    while i < size
      invariant 0 <= i <= size && pp == o + i && pp2 == o2 + i
      invariant forall k :: o <= k < pp ==> base[k] == s[k - o + o2]
      invariant forall k :: o2 <= k < pp2 ==> base[k] == s[k - o2 + o]
      invariant forall k :: 0 <= k < base.Length && !(o <= k < pp) && !(o2 <= k < pp2) ==> base[k] == s[k]
    {
      var tmp := base[pp];
      base[pp] := base[pp2];
      base[pp2] := tmp;
      pp, pp2, i := pp + 1, pp2 + 1, i + 1;
    }
  }

  /** swap: the two elements are exchanged whole, every other byte stays. */
  method Swap(base: array<byte>, p: nat, p2: nat, size: nat, ghost n: nat)
    requires p < n && p2 < n && Offset(n, size) <= base.Length
    modifies base
    ensures Elems(base[..], size, n) ==
      old(Elems(base[..], size, n))[p := old(Elem(base[..], p2, size))][p2 := old(Elem(base[..], p, size))]
    ensures base[Offset(n, size)..] == old(base[Offset(n, size)..])
  {
    Slots(p, n, size);
    Slots(p2, n, size);
    Apart(p, p2, size);
    ghost var s := base[..];
    SwapBytes(base, Offset(p, size), Offset(p2, size), size);
    assert Elem(base[..], p, size) == Elem(s, p2, size) && Elem(base[..], p2, size) == Elem(s, p, size);
    TwoElems(s, base[..], p, p2, size, n);
  }

  method CopyBytes(dst: array<byte>, o: nat, src: array<byte>, o2: nat, size: nat)
    requires dst != src && o + size <= dst.Length && o2 + size <= src.Length
    modifies dst
    ensures dst[o..o + size] == src[o2..o2 + size]
    ensures SameElsewhere(old(dst[..]), dst[..], o, o, size)
  {
    var k := 0;
    while k < size
      invariant 0 <= k <= size
      invariant dst[o..o + k] == src[o2..o2 + k]
      invariant forall m :: 0 <= m < dst.Length && !(o <= m < o + k) ==> dst[m] == old(dst[m])
    {
      dst[o + k] := src[o2 + k];
      k := k + 1;
    }
  }

  /** memcpy of one element between different blocks of memory. */
  method CopyElem(dst: array<byte>, i: nat, src: array<byte>, j: nat, size: nat, ghost n: nat, ghost m: nat)
    requires dst != src && i < n && Offset(n, size) <= dst.Length && j < m && Offset(m, size) <= src.Length
    modifies dst
    ensures Elems(dst[..], size, n) == old(Elems(dst[..], size, n))[i := Elem(src[..], j, size)]
    ensures dst[Offset(n, size)..] == old(dst[Offset(n, size)..])
  {
    Slots(i, n, size);
    Slots(j, m, size);
    ghost var s := dst[..];
    CopyBytes(dst, Offset(i, size), src, Offset(j, size), size);
    assert Elem(dst[..], i, size) == Elem(src[..], j, size);
    TwoElems(s, dst[..], i, i, size, n);
  }
}
