/** The Internet checksum: `check_sum` with its 32-bit unsigned accumulator and `in_cksum` with its
    signed one, against ones'-complement addition (RFC 1071). Words are little-endian. */
module Checksum {
  import opened Bytes
  import opened Options

  const U32: nat := 0x1_0000_0000
  const INT_MAX: nat := 0x7FFF_FFFF
  const ONES: nat := 0xFFFF

  function Word(lo: byte, hi: byte): (w: nat)
    ensures w <= ONES
  {
    (lo as int) + 256 * (hi as int)
  }

  /** The exact sum of the 16-bit words, an odd last byte counting as a word with a zero second byte. */
  function WordSum(d: seq<byte>): nat {
    if |d| == 0 then 0
    else if |d| == 1 then d[0]
    else Word(d[0], d[1]) + WordSum(d[2..])
  }

  /** Ones'-complement addition: the carry out of bit 15 comes back in at bit 0. */
  function OnesAdd(a: nat, b: nat): nat {
    if a + b > ONES then a + b - ONES else a + b
  }

  /** The ones'-complement sum of RFC 1071, section 1. */
  function OnesSum(d: seq<byte>): (r: nat)
    ensures r <= ONES
  {
    if |d| == 0 then 0
    else if |d| == 1 then d[0]
    else OnesAdd(Word(d[0], d[1]), OnesSum(d[2..]))
  }

  /** The two folds and the final complement, cut to 16 bits. */
  function Finish(sum: nat): (r: nat)
    ensures r <= ONES
  {
    var s1 := sum / 0x1_0000 + sum % 0x1_0000;
    var s2 := s1 / 0x1_0000 + s1;
    ONES - s2 % 0x1_0000
  }

  method FoldTwice(sum: nat) returns (r: nat)
    requires sum < U32
    ensures r == Finish(sum)
  {
    var s := sum / 0x1_0000 + sum % 0x1_0000;
    s := s / 0x1_0000 + s;
    r := (U32 - 1 - s) % 0x1_0000;
  }

  method CheckSum(d: seq<byte>) returns (r: nat)
    ensures r == Finish(WordSum(d) % U32)
  {
    hide Finish, WordSum;
    var sum, p, len := 0, 0, |d|;
    assert d[0..] == d;
    while len > 1
      invariant len == |d| - p && 0 <= p <= |d| && 0 <= sum < U32
      invariant (sum + WordSum(d[p..])) % U32 == WordSum(d) % U32
      decreases len
    {
      WordsFrom(d, p);
      WrappingStep(sum, Word(d[p], d[p + 1]), WordSum(d[p + 2..]));
      sum := (sum + Word(d[p], d[p + 1])) % U32;
      p, len := p + 2, len - 2;
    }
    WordsFrom(d, p);
    if len != 0 {
      sum := (sum + d[p]) % U32;
    }
    assert sum == WordSum(d) % U32;
    r := FoldTwice(sum);
  }

  lemma WordsFrom(d: seq<byte>, p: nat)
    requires p <= |d|
    ensures WordSum(d[p..]) ==
      if p == |d| then 0 else if p + 1 == |d| then d[p] else Word(d[p], d[p + 1]) + WordSum(d[p + 2..])
  {
    if p + 1 < |d| { assert d[p..][2..] == d[p + 2..]; }
  }

  lemma WrappingStep(sum: nat, w: nat, rest: nat)
    ensures ((sum + w) % U32 + rest) % U32 == (sum + (w + rest)) % U32
  {
  }

  /** in_cksum: None when the signed accumulator would overflow, which C leaves undefined. */
  method InCksum(d: seq<byte>) returns (r: Option<nat>)
    ensures r == if WordSum(d) <= INT_MAX then Some(Finish(WordSum(d))) else None
  {
    var sum, w, nleft := 0, 0, |d|;
    while nleft > 1
      invariant nleft == |d| - w && 0 <= w <= |d| && 0 <= sum <= INT_MAX
      invariant sum + WordSum(d[w..]) == WordSum(d)
      decreases nleft
    {
      assert d[w..][2..] == d[w + 2..];
      sum := sum + Word(d[w], d[w + 1]);
      if sum > INT_MAX { return None; }
      w, nleft := w + 2, nleft - 2;
    }
    if nleft == 1 {
      sum := sum + d[w];
      if sum > INT_MAX { return None; }
    }
    var folded := FoldTwice(sum);
    r := Some(folded);
  }

  // ----- overflow bounds, exactly

  lemma {:induction false} WordSumBound(d: seq<byte>)
    ensures WordSum(d) <= |d| / 2 * ONES + |d| % 2 * 255
    decreases |d|
  {
    if |d| >= 2 {
      WordSumBound(d[2..]);
      assert |d[2..]| / 2 == |d| / 2 - 1 && |d[2..]| % 2 == |d| % 2;
    }
  }

  function AllOnes(n: nat): (d: seq<byte>)
    ensures |d| == n
  {
    seq(n, i => 255)
  }

  lemma {:induction false} AllOnesSum(n: nat)
    ensures WordSum(AllOnes(n)) == n / 2 * ONES + n % 2 * 255
  {
    if n >= 2 {
      assert AllOnes(n)[2..] == AllOnes(n - 2);
      AllOnesSum(n - 2);
    }
  }

  lemma BoundIsExact(n: nat, limit: nat)
    ensures (forall d: seq<byte> :: |d| == n ==> WordSum(d) <= limit) <==> n / 2 * ONES + n % 2 * 255 <= limit
  {
    AllOnesSum(n);
    assert |AllOnes(n)| == n;
    forall d: seq<byte> | |d| == n ensures WordSum(d) <= n / 2 * ONES + n % 2 * 255 { WordSumBound(d); }
  }

  /** No data of a given length overflows the unsigned accumulator exactly up to 131074 bytes. */
  lemma UnsignedBound(n: nat)
    ensures (forall d: seq<byte> :: |d| == n ==> WordSum(d) < U32) <==> n <= 131074
  {
    BoundIsExact(n, U32 - 1);
    assert (forall d: seq<byte> :: |d| == n ==> WordSum(d) <= U32 - 1) <==>
           (forall d: seq<byte> :: |d| == n ==> WordSum(d) < U32);
  }

  /** ... and the signed one exactly up to 65537 bytes. */
  lemma SignedBound(n: nat)
    ensures (forall d: seq<byte> :: |d| == n ==> WordSum(d) <= INT_MAX) <==> n <= 65537
  {
    BoundIsExact(n, INT_MAX);
  }

  // ----- the folded sum is the ones'-complement sum

  /** The representative in 1 .. 65535 of a positive number modulo 65535; 0 for 0. */
  function Residue(s: nat): nat {
    if s == 0 then 0 else (s - 1) % ONES + 1
  }

  lemma ResidueUnique(s: nat, m: int, o: nat)
    requires s == ONES * m + o && 1 <= o <= ONES && s > 0
    ensures Residue(s) == o
  {
    assert m >= 0;
    assert (s - 1) == ONES * m + (o - 1) && 0 <= o - 1 < ONES;
    assert (s - 1) / ONES == m;
  }

  lemma ResidueStep(a: nat, b: nat)
    requires a <= ONES
    ensures OnesAdd(a, Residue(b)) == Residue(a + b)
  {
    if b > 0 {
      var q := (b - 1) / ONES;
      assert b == ONES * q + Residue(b);
      var o := OnesAdd(a, Residue(b));
      if a + Residue(b) > ONES {
        ResidueUnique(a + b, q + 1, o);
      } else {
        ResidueUnique(a + b, q, o);
      }
    } else if a > 0 {
      ResidueUnique(a, 0, a);
    }
  }

  lemma {:induction false} OnesSumIsResidue(d: seq<byte>)
    ensures OnesSum(d) == Residue(WordSum(d)) <= ONES
    decreases |d|
  {
    if |d| == 1 {
      if d[0] > 0 { ResidueUnique(d[0], 0, d[0]); }
    } else if |d| > 1 {
      OnesSumIsResidue(d[2..]);
      ResidueStep(Word(d[0], d[1]), WordSum(d[2..]));
    }
  }

  /** Two folds always suffice for a 32-bit sum. */
  lemma FinishIsComplement(s: nat)
    requires s < U32
    ensures Finish(s) == ONES - Residue(s)
  {
    if s > 0 {
      var hi, lo := s / 0x1_0000, s % 0x1_0000;
      var s1 := hi + lo;
      assert s == ONES * hi + s1;
      if s1 >= 0x1_0000 {
        assert s1 / 0x1_0000 == 1;
        ResidueUnique(s, hi + 1, s1 - ONES);
      } else {
        ResidueUnique(s, hi, s1);
      }
    }
  }

  lemma Fits(d: seq<byte>)
    requires |d| <= 131074
    ensures WordSum(d) < U32 && WordSum(d) % U32 == WordSum(d)
    ensures |d| <= 65537 ==> WordSum(d) <= INT_MAX
  {
    WordSumBound(d);
  }

  /** check_sum is the complement of the ones'-complement sum, for every length that cannot overflow. */
  lemma CheckSumMeaning(d: seq<byte>)
    requires |d| <= 131074
    ensures Finish(WordSum(d) % U32) == ONES - OnesSum(d)
  {
    Fits(d);
    OnesSumIsResidue(d);
    FinishIsComplement(WordSum(d));
  }

  /** The two routines agree on every input the signed one handles. */
  lemma RoutinesAgree(d: seq<byte>)
    requires |d| <= 65537
    ensures WordSum(d) <= INT_MAX && Finish(WordSum(d)) == Finish(WordSum(d) % U32) == ONES - OnesSum(d)
  {
    Fits(d);
    CheckSumMeaning(d);
  }

  // ----- verifying a stored checksum

  function Store(d: seq<byte>, k: nat, c: nat): (r: seq<byte>)
    requires k + 1 < |d| && c <= ONES
    ensures |r| == |d|
  {
    d[k := c % 256][k + 1 := c / 256]
  }

  lemma {:induction false} StoreSum(d: seq<byte>, k: nat, c: nat)
    requires k % 2 == 0 && k + 1 < |d| && d[k] == d[k + 1] == 0 && c <= ONES
    ensures WordSum(Store(d, k, c)) == WordSum(d) + c
    decreases k
  {
    var r := Store(d, k, c);
    if k == 0 {
      assert r[2..] == d[2..];
    } else {
      assert r[2..] == Store(d[2..], k - 2, c);
      StoreSum(d[2..], k - 2, c);
    }
  }

  /** A packet whose aligned, zeroed checksum field receives its check_sum has check_sum 0. */
  method StoreAndVerify(d: seq<byte>, k: nat) returns (stored: seq<byte>, again: nat)
    requires |d| <= 131074 && k % 2 == 0 && k + 1 < |d| && d[k] == d[k + 1] == 0
    ensures again == 0
    ensures stored == Store(d, k, ONES - OnesSum(d))
  {
    var c := CheckSum(d);
    CheckSumMeaning(d);
    stored := Store(d, k, c);
    StoredVerifies(d, k);
    again := CheckSum(stored);
  }

  lemma StoredVerifies(d: seq<byte>, k: nat)
    requires |d| <= 131074 && k % 2 == 0 && k + 1 < |d| && d[k] == d[k + 1] == 0
    ensures Finish(WordSum(Store(d, k, ONES - OnesSum(d))) % U32) == 0
  {
    hide WordSum, OnesSum, Finish, Residue, Store;
    OnesSumIsResidue(d);
    var c := ONES - OnesSum(d);
    StoreSum(d, k, c);
    Fits(Store(d, k, c));
    FinishIsComplement(WordSum(d) + c);
    ComplementCloses(WordSum(d));
  }

  lemma ComplementCloses(s: nat)
    requires Residue(s) <= ONES
    ensures Residue(s + (ONES - Residue(s))) == ONES
  {
    if s > 0 {
      assert s == ONES * ((s - 1) / ONES) + Residue(s);
      ResidueUnique(s + (ONES - Residue(s)), (s - 1) / ONES, ONES);
    } else {
      ResidueUnique(ONES, 0, ONES);
    }
  }

  // ----- byte order independence

  function SwapWord(w: nat): nat
    requires w <= ONES
  {
    w % 256 * 256 + w / 256
  }

  function SwapBytes(d: seq<byte>): (r: seq<byte>)
    requires |d| % 2 == 0
    ensures |r| == |d|
  {
    if d == [] then [] else [d[1], d[0]] + SwapBytes(d[2..])
  }

  /** The high bytes of the words, which swapping multiplies away. */
  function HighBytes(d: seq<byte>): nat
    requires |d| % 2 == 0
  {
    if d == [] then 0 else d[1] + HighBytes(d[2..])
  }

  lemma {:induction false} SwappedSum(d: seq<byte>)
    requires |d| % 2 == 0
    ensures WordSum(SwapBytes(d)) == 256 * WordSum(d) - ONES * HighBytes(d)
    decreases |d|
  {
    if d != [] {
      SwappedSum(d[2..]);
      assert SwapBytes(d)[2..] == SwapBytes(d[2..]);
    }
  }

  lemma SwapWordSplit(o: nat)
    requires 1 <= o <= ONES
    ensures 256 * o == ONES * (o / 256) + SwapWord(o) && 1 <= SwapWord(o) <= ONES
  {
  }

  lemma {:induction false} SwapKeepsZero(d: seq<byte>)
    requires |d| % 2 == 0
    ensures WordSum(SwapBytes(d)) == 0 <==> WordSum(d) == 0
    decreases |d|
  {
    if d != [] {
      SwapKeepsZero(d[2..]);
      assert SwapBytes(d)[2..] == SwapBytes(d[2..]);
    }
  }

  lemma SwappedResidue(s: nat, t: nat, h: int)
    requires (s == 0 <==> t == 0) && t == 256 * s - ONES * h
    ensures Residue(s) <= ONES && Residue(t) == SwapWord(Residue(s))
  {
    if s > 0 {
      var q, o := (s - 1) / ONES, Residue(s);
      assert s == ONES * q + o;
      SwapWordSplit(o);
      ResidueUnique(t, 256 * q - h + o / 256, SwapWord(o));
    }
  }

  lemma SwappedSumResidue(d: seq<byte>)
    requires |d| % 2 == 0
    ensures Residue(WordSum(d)) <= ONES && Residue(WordSum(SwapBytes(d))) == SwapWord(Residue(WordSum(d)))
  {
    SwapKeepsZero(d);
    SwappedSum(d);
    SwappedResidue(WordSum(d), WordSum(SwapBytes(d)), HighBytes(d));
  }

  lemma SwappedOnesSum(d: seq<byte>)
    requires |d| % 2 == 0
    ensures OnesSum(SwapBytes(d)) == SwapWord(OnesSum(d))
  {
    OnesSumIsResidue(d);
    OnesSumIsResidue(SwapBytes(d));
    SwappedSumResidue(d);
  }

  /** RFC 1071, section 2(B): swapping the bytes of every word swaps the bytes of the checksum. */
  lemma ByteOrderIndependent(d: seq<byte>)
    requires |d| % 2 == 0 && |d| <= 131074
    ensures Finish(WordSum(SwapBytes(d)) % U32) == SwapWord(Finish(WordSum(d) % U32))
  {
    hide Finish, WordSum, OnesSum, SwapBytes, SwapWord;
    CheckSumMeaning(d);
    CheckSumMeaning(SwapBytes(d));
    SwappedOnesSum(d);
    SwapComplement(OnesSum(d));
  }

  lemma SwapComplement(o: nat)
    requires o <= ONES
    ensures SwapWord(ONES - o) == ONES - SwapWord(o)
  {
    assert (ONES - o) % 256 == 255 - o % 256 && (ONES - o) / 256 == 255 - o / 256;
  }
}
