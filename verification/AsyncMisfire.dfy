/** Every file whose last block is short, and not the only one, has a run in which the asynchronous
    filter quits over a "short write" that did not happen, and no other file has one: rounds of eight
    reads, eight writes and eight releases, in which one whole block is kept waiting until the short block
    has been read. */
module AsyncMisfire {
  import opened AsyncFilter
  import opened AsyncMoves
  import opened AsyncQuit
  import opened Bytes

  /** A round: the `m` blocks from `base` on, of which the one in buffer `h` is held back (8: none). */
  datatype Plan = Plan(base: nat, m: nat, h: nat)

  /** The short block is the last of this round. */
  predicate Ends(p: Plan, size: nat) { p.base + (p.m - 1) * BSZ < size < p.base + p.m * BSZ }

  /** Eight whole blocks and, after them, the short one alone: hold one back. Or eight whole blocks, and
      at least one more. Or the last round. */
  predicate Fits(p: Plan, size: nat) {
    && p.base % BSZ == 0 && 2 <= p.m <= NBUF
    && if p.h == 1 then p.m == NBUF && p.base + 8 * BSZ < size < p.base + 9 * BSZ
       else p.h == NBUF && (Ends(p, size) || (p.m == NBUF && p.base + 9 * BSZ < size))
  }

  lemma PlanFor(base: nat, size: nat) returns (p: Plan)
    requires base % BSZ == 0 && base + BSZ < size && size % BSZ != 0
    ensures p.base == base && Fits(p, size)
  {
    var whole := (size - base) / BSZ;
    if whole < 8 { p := Plan(base, whole + 1, NBUF); }
    else if whole == 8 { p := Plan(base, NBUF, 1); }
    else { p := Plan(base, NBUF, NBUF); }
  }

  /** The buffers of the round are at the stages given, each with its block. */
  ghost predicate Filled(s: State, p: Plan, count: nat) {
    |s.bufs| == NBUF && forall j :: 0 <= j < count && j < NBUF ==> s.bufs[j].offset == p.base + j * BSZ
  }

  ghost predicate Reading(tr: byte -> byte, input: seq<byte>, s: State, p: Plan, k: nat) {
    && At(tr, input, s, k, false) && s.off == p.base + Min(k, p.m) * BSZ && Filled(s, p, Min(k, p.m))
    && forall j :: 0 <= j < NBUF ==>
         StageOf(s.bufs[j]) == if j >= k || j >= p.m then Free else if j == p.h then Asked else Read
  }

  ghost predicate Writing(tr: byte -> byte, input: seq<byte>, s: State, p: Plan, k: nat) {
    && At(tr, input, s, k % NBUF, false) && s.off == p.base + p.m * BSZ && Filled(s, p, p.m)
    && (forall j :: 0 <= j < NBUF ==>
         StageOf(s.bufs[j]) ==
           if j >= p.m then Free else if j == p.h then Asked else if j < k then Stored else Read)
    && (Ends(p, |input|) && k >= p.m ==> s.n == |input| - (p.base + (p.m - 1) * BSZ))
  }

  ghost predicate Freeing(tr: byte -> byte, input: seq<byte>, s: State, p: Plan, k: nat) {
    && At(tr, input, s, k, false) && s.off == p.base + NBUF * BSZ && Filled(s, p, NBUF)
    && forall j :: 0 <= j < NBUF ==>
         StageOf(s.bufs[j]) == if j == p.h then Asked else if j < k then Free else Stored
  }

  lemma {:induction false} ReadRound(tr: byte -> byte, input: seq<byte>, s: State, p: Plan, k: nat)
    requires Fits(p, |input|) && |input| % BSZ != 0 && k < NBUF && Reading(tr, input, s, p, k)
    ensures CanQuit(tr, input, s)
    decreases |input| - p.base, 3, NBUF - k
  {
    hide Inv, CanQuit;
    var r: State;
    if k >= p.m {
      r := Idle(tr, input, s, k, 0);
    } else if k == p.h {
      var s1 := Ask(tr, input, s, k);
      r := Wake(tr, input, s1, k, 0);
    } else {
      var s1 := Ask(tr, input, s, k);
      var s2 := Return(tr, input, s1, k, true, k);
      r := Wake(tr, input, s2, k, k);
    }
    if k + 1 < NBUF { ReadRound(tr, input, r, p, k + 1); } else { WriteRound(tr, input, r, p, 0); }
  }

  lemma {:induction false} WriteRound(tr: byte -> byte, input: seq<byte>, s: State, p: Plan, k: nat)
    requires Fits(p, |input|) && |input| % BSZ != 0 && k <= NBUF && Writing(tr, input, s, p, k)
    ensures CanQuit(tr, input, s)
    decreases |input| - p.base, 2, NBUF - k
  {
    hide Inv, CanQuit;
    if k == NBUF && Ends(p, |input|) {
      var r := Release(tr, input, s, 0);
    } else if k == NBUF {
      FreeRound(tr, input, s, p, 0);
    } else {
      var r: State;
      if k >= p.m {
        r := Idle(tr, input, s, k, 0);
      } else if k == p.h {
        r := Skip(tr, input, s, k);
      } else {
        var s1 := Send(tr, input, s, k);
        var s2 := Put(tr, input, s1, k, true, k);
        r := Wake(tr, input, s2, k, k);
      }
      WriteRound(tr, input, r, p, k + 1);
    }
  }

  lemma {:induction false} FreeRound(tr: byte -> byte, input: seq<byte>, s: State, p: Plan, k: nat)
    requires Fits(p, |input|) && |input| % BSZ != 0 && !Ends(p, |input|) && k < NBUF && Freeing(tr, input, s, p, k)
    ensures CanQuit(tr, input, s)
    decreases |input| - p.base, 1, NBUF - k
  {
    hide Inv, CanQuit;
    if k == p.h {
      var r := Skip(tr, input, s, k);
      FreeRound(tr, input, r, p, k + 1);
    } else {
      var r := Release(tr, input, s, k);
      if !r.quit {
        if k < NBUF - 1 {
          Busy(tr, input, r, NBUF - 1);
          var r' := Wake(tr, input, r, k, NBUF - 1);
          FreeRound(tr, input, r', p, k + 1);
        } else if p.h == 1 {
          Busy(tr, input, r, 1);
          HeldBlock(tr, input, r, p);
        } else {
          Nobody(tr, input, r);
          var p' := PlanFor(p.base + NBUF * BSZ, |input|);
          ReadRound(tr, input, r, p', 0);
        }
      }
    }
  }

  /** Only the held block is left, asked for and not read: it now wakes the scan, which asks for the short
      block before it comes to the held one. */
  lemma HeldBlock(tr: byte -> byte, input: seq<byte>, s: State, p: Plan)
    requires Fits(p, |input|) && p.h == 1 && At(tr, input, s, NBUF - 1, true) && s.off == p.base + NBUF * BSZ
    requires s.bufs[1].offset == p.base + BSZ && StageOf(s.bufs[1]) == Asked
    requires forall j :: 0 <= j < NBUF && j != 1 ==> StageOf(s.bufs[j]) == Free
    ensures CanQuit(tr, input, s)
  {
    hide Inv, CanQuit;
    var s1 := Return(tr, input, s, NBUF - 1, true, 1);
    var s2 := Wake(tr, input, s1, NBUF - 1, 1);
    var s3 := Ask(tr, input, s2, 0);
    var s4 := Return(tr, input, s3, 0, true, 0);
    var s5 := Wake(tr, input, s4, 0, 0);
    var s6 := Send(tr, input, s5, 1);
    var s7 := Wake(tr, input, s6, 1, 0);
    HeldIdle(tr, input, s7, p, 2);
  }

  lemma {:induction false} HeldIdle(tr: byte -> byte, input: seq<byte>, s: State, p: Plan, k: nat)
    requires Fits(p, |input|) && p.h == 1 && 2 <= k <= NBUF && At(tr, input, s, k % NBUF, false) && s.off >= |input|
    requires s.bufs[0].offset == p.base + NBUF * BSZ && StageOf(s.bufs[0]) == Read
    requires s.bufs[1].offset == p.base + BSZ && StageOf(s.bufs[1]) == Sent
    requires forall j :: 2 <= j < NBUF ==> StageOf(s.bufs[j]) == Free
    ensures CanQuit(tr, input, s)
    decreases NBUF - k
  {
    hide Inv, CanQuit;
    if k < NBUF {
      var r := Idle(tr, input, s, k, 0);
      HeldIdle(tr, input, r, p, k + 1);
    } else {
      var s1 := Send(tr, input, s, 0);
      var s2 := Put(tr, input, s1, 0, true, 1);
      var s3 := Wake(tr, input, s2, 0, 1);
      var s4 := Release(tr, input, s3, 1);
    }
  }

  // ----- the result

  lemma {:induction false} RunThen(tr: byte -> byte, input: seq<byte>, es: seq<Event>, xs: seq<Event>)
    ensures RunFrom(tr, input, Run(tr, input, es), xs) == Run(tr, input, es + xs)
    decreases |xs|
  {
    if xs == [] {
      assert es + xs == es;
    } else {
      var es' := es + [xs[0]];
      assert es'[..|es'| - 1] == es && es' + xs[1..] == es + xs;
      RunThen(tr, input, es', xs[1..]);
    }
  }

  /** The check is wrong about a file, in some run, exactly when the last block is short and not alone. */
  lemma MisfiresIff(tr: byte -> byte, input: seq<byte>)
    ensures (exists es :: Run(tr, input, es).quit) <==> !(|input| % BSZ == 0 || |input| <= BSZ)
  {
    if |input| % BSZ == 0 || |input| <= BSZ {
      forall es ensures !Run(tr, input, es).quit { UniformNeverQuits(tr, input, es); }
    } else {
      RunsKeepInv(tr, input, []);
      var p := PlanFor(0, |input|);
      ReadRound(tr, input, Init(), p, 0);
      var xs :| RunFrom(tr, input, Init(), xs).quit;
      RunThen(tr, input, [], xs);
      assert [] + xs == xs;
    }
  }
}
