/** Single events of the asynchronous filter, each with what it does to the buffers, and the states from
    which some run quits. */
module AsyncMoves {
  import opened AsyncFilter
  import opened AsyncQuit
  import opened Bytes
  import opened Sums

  // ----- states from which some run quits

  function RunFrom(tr: byte -> byte, input: seq<byte>, s: State, xs: seq<Event>): (r: State)
    requires Shaped(s)
    ensures Shaped(r)
    decreases |xs|
  {
    if xs == [] then s else RunFrom(tr, input, Step(s, tr, input, xs[0]), xs[1..])
  }

  ghost predicate CanQuit(tr: byte -> byte, input: seq<byte>, s: State)
    requires Shaped(s)
  {
    exists xs :: RunFrom(tr, input, s, xs).quit
  }

  lemma Before(tr: byte -> byte, input: seq<byte>, s: State, e: Event)
    requires Shaped(s)
    ensures CanQuit(tr, input, Step(s, tr, input, e)) ==> CanQuit(tr, input, s)
    ensures s.quit ==> CanQuit(tr, input, s)
  {
    if s.quit { assert RunFrom(tr, input, s, []).quit; }
    if CanQuit(tr, input, Step(s, tr, input, e)) {
      var xs :| RunFrom(tr, input, Step(s, tr, input, e), xs).quit;
      assert ([e] + xs)[1..] == xs;
      assert RunFrom(tr, input, s, [e] + xs).quit;
    }
  }

  // ----- what a buffer is doing

  datatype Stage = Free | Asked | Read | Sent | Stored

  function StageOf(b: Buf): Stage {
    match b.op
    case Unused => Free
    case ReadPending => if b.done then Read else Asked
    case WritePending => if b.done then Stored else Sent
  }

  /** Still going, with the scan at buffer `i`, in aio_suspend or not. */
  ghost predicate At(tr: byte -> byte, input: seq<byte>, s: State, i: nat, suspended: bool) {
    Inv(tr, input, s) && !s.quit && s.i == i && s.suspended == suspended
  }

  /** Only buffer `k` differs, it is now at `stage`, and it still works on the same block. */
  ghost predicate Moves(s: State, r: State, k: nat, stage: Stage) {
    && |s.bufs| == |r.bufs| == NBUF && k < NBUF && r.off == s.off
    && (forall j :: 0 <= j < NBUF && j != k ==> r.bufs[j] == s.bufs[j])
    && StageOf(r.bufs[k]) == stage && r.bufs[k].offset == s.bufs[k].offset
  }

  lemma Busy(tr: byte -> byte, input: seq<byte>, s: State, k: nat)
    requires Inv(tr, input, s) && k < NBUF && Active(s.bufs[k])
    ensures s.numop > 0
  {
    CountUpdate(s.bufs, k, Buf(Unused, false, 0, 0, [], false), Active);
  }

  lemma Nobody(tr: byte -> byte, input: seq<byte>, s: State)
    requires Inv(tr, input, s) && forall k :: 0 <= k < NBUF ==> !Active(s.bufs[k])
    ensures s.numop == 0
  {
    CountNone(s.bufs, Active);
  }

  /** The scan asks for the next block. */
  lemma Ask(tr: byte -> byte, input: seq<byte>, s: State, i: nat) returns (r: State)
    requires At(tr, input, s, i, false) && StageOf(s.bufs[i]) == Free && s.off < |input|
    ensures At(tr, input, r, i, true) && r.off == s.off + BSZ && r.n == s.n
    ensures |r.bufs| == NBUF && forall j :: 0 <= j < NBUF && j != i ==> r.bufs[j] == s.bufs[j]
    ensures StageOf(r.bufs[i]) == Asked && r.bufs[i].offset == s.off
    ensures CanQuit(tr, input, r) ==> CanQuit(tr, input, s)
  {
    r := Step(s, tr, input, Scan);
    StepKeepsInv(tr, input, s, Scan);
    Before(tr, input, s, Scan);
  }

  /** aio_suspend returns because buffer `k` is done. */
  lemma Wake(tr: byte -> byte, input: seq<byte>, s: State, i: nat, k: nat) returns (r: State)
    requires At(tr, input, s, i, true) && k < NBUF && (StageOf(s.bufs[k]) == Read || StageOf(s.bufs[k]) == Stored)
    ensures At(tr, input, r, (i + 1) % NBUF, false) && r.bufs == s.bufs && r.off == s.off && r.n == s.n
    ensures CanQuit(tr, input, r) ==> CanQuit(tr, input, s)
  {
    assert s.aiolist[k] && s.bufs[k].done;
    r := Step(s, tr, input, Scan);
    StepKeepsInv(tr, input, s, Scan);
    Before(tr, input, s, Scan);
  }

  /** The read of buffer `k` completes. */
  lemma Return(tr: byte -> byte, input: seq<byte>, s: State, i: nat, suspended: bool, k: nat) returns (r: State)
    requires At(tr, input, s, i, suspended) && k < NBUF && StageOf(s.bufs[k]) == Asked
    ensures At(tr, input, r, i, suspended) && Moves(s, r, k, Read) && r.n == s.n
    ensures CanQuit(tr, input, r) ==> CanQuit(tr, input, s)
  {
    assert BufOk(tr, input, s.output, s.off, s.bufs[k]);
    r := Step(s, tr, input, ReadDone(k));
    StepKeepsInv(tr, input, s, ReadDone(k));
    Before(tr, input, s, ReadDone(k));
  }

  /** The scan finds a block read and sends it on; `n` becomes its length. */
  lemma Send(tr: byte -> byte, input: seq<byte>, s: State, i: nat) returns (r: State)
    requires At(tr, input, s, i, false) && StageOf(s.bufs[i]) == Read
    ensures At(tr, input, r, i, true) && Moves(s, r, i, Sent)
    ensures r.n == Min(BSZ, |input| - s.bufs[i].offset)
    ensures CanQuit(tr, input, r) ==> CanQuit(tr, input, s)
  {
    assert BufOk(tr, input, s.output, s.off, s.bufs[i]);
    Busy(tr, input, s, i);
    ReadReturned(tr, input, s);
    r := Step(s, tr, input, Scan);
    Before(tr, input, s, Scan);
  }

  /** The write of buffer `k` completes. */
  lemma Put(tr: byte -> byte, input: seq<byte>, s: State, i: nat, suspended: bool, k: nat) returns (r: State)
    requires At(tr, input, s, i, suspended) && k < NBUF && StageOf(s.bufs[k]) == Sent
    ensures At(tr, input, r, i, suspended) && Moves(s, r, k, Stored) && r.n == s.n
    ensures CanQuit(tr, input, r) ==> CanQuit(tr, input, s)
  {
    assert BufOk(tr, input, s.output, s.off, s.bufs[k]);
    r := Step(s, tr, input, WriteDone(k));
    StepKeepsInv(tr, input, s, WriteDone(k));
    Before(tr, input, s, WriteDone(k));
  }

  /** The scan finds a block written: it quits when `n` is another length, or frees the buffer. */
  lemma Release(tr: byte -> byte, input: seq<byte>, s: State, i: nat) returns (r: State)
    requires At(tr, input, s, i, false) && StageOf(s.bufs[i]) == Stored
    ensures Shaped(r) && (r.quit <==> s.n != Min(BSZ, |input| - s.bufs[i].offset))
    ensures !r.quit ==> Inv(tr, input, r) && Moves(s, r, i, Free)
    ensures !r.quit && r.numop > 0 ==> At(tr, input, r, i, true)
    ensures !r.quit && r.numop == 0 && s.off < |input| ==> At(tr, input, r, (i + 1) % NBUF, false)
    ensures r.quit || CanQuit(tr, input, r) ==> CanQuit(tr, input, s)
  {
    QuitsHere(tr, input, s);
    StepKeepsInv(tr, input, s, Scan);
    Before(tr, input, s, Scan);
    r := Step(s, tr, input, Scan);
    Before(tr, input, r, Scan);
    hide BufOk, InFlight, DistinctOffsets, Written;
  }

  /** The scan passes over a request in progress. */
  lemma Skip(tr: byte -> byte, input: seq<byte>, s: State, i: nat) returns (r: State)
    requires At(tr, input, s, i, false) && (StageOf(s.bufs[i]) == Asked || StageOf(s.bufs[i]) == Sent)
    ensures At(tr, input, r, (i + 1) % NBUF, false) && r.bufs == s.bufs && r.off == s.off && r.n == s.n
    ensures CanQuit(tr, input, r) ==> CanQuit(tr, input, s)
  {
    r := Step(s, tr, input, Scan);
    StepKeepsInv(tr, input, s, Scan);
    Before(tr, input, s, Scan);
  }

  /** When all blocks have been asked for, a free buffer is passed over by way of aio_suspend, from which
      the finished buffer `k` wakes the scan. */
  lemma Idle(tr: byte -> byte, input: seq<byte>, s: State, i: nat, k: nat) returns (r: State)
    requires At(tr, input, s, i, false) && StageOf(s.bufs[i]) == Free && s.off >= |input|
    requires k < NBUF && (StageOf(s.bufs[k]) == Read || StageOf(s.bufs[k]) == Stored)
    ensures At(tr, input, r, (i + 1) % NBUF, false) && r.bufs == s.bufs && r.off == s.off && r.n == s.n
    ensures CanQuit(tr, input, r) ==> CanQuit(tr, input, s)
  {
    Busy(tr, input, s, k);
    var q := Step(s, tr, input, Scan);
    StepKeepsInv(tr, input, s, Scan);
    Before(tr, input, s, Scan);
    r := Wake(tr, input, q, i, k);
  }
}
