/** The 8-buffer asynchronous filter: `main` scans the buffers, the system completes reads and writes
    in any order it likes. Reads and writes are assumed to be full. */
module AsyncFilter {
  import opened Bytes
  import opened Sums

  const BSZ: nat := 4096
  const NBUF: nat := 8

  datatype Op = Unused | ReadPending | WritePending

  /** `done`: the request has completed, so aio_error no longer says EINPROGRESS. */
  datatype Buf = Buf(op: Op, last: bool, offset: nat, nbytes: nat, data: seq<byte>, done: bool)

  /** `i` is the buffer the scan has reached, `n` the last aio_return of a read. `quit`: err_quit was called. */
  datatype State = State(
    bufs: seq<Buf>, aiolist: seq<bool>, off: nat, numop: int, i: nat, n: int,
    suspended: bool, output: seq<byte>, quit: bool)

  datatype Event =
    | Scan              // main goes on
    | ReadDone(k: nat)  // the system completes the read of buffer k
    | WriteDone(k: nat) // the system completes the write of buffer k

  function Init(): State {
    State(seq(NBUF, k => Buf(Unused, false, 0, 0, [], false)), seq(NBUF, k => false), 0, 0, 0, -1, false, [], false)
  }

  function Min(a: int, b: int): int { if a < b then a else b }

  /** The block of the input that starts at `o`. */
  function Block(input: seq<byte>, o: nat): seq<byte>
    requires o <= |input|
  {
    input[o..Min(o + BSZ, |input|)]
  }

  /** What a read of `n` bytes at `o` brings. */
  function ReadAt(input: seq<byte>, o: nat, n: nat): seq<byte>
    requires o <= |input|
  {
    input[o..Min(o + n, |input|)]
  }

  function Translated(tr: byte -> byte, d: seq<byte>): (r: seq<byte>)
    ensures |r| == |d| && forall j :: 0 <= j < |d| ==> r[j] == tr(d[j])
  {
    seq(|d|, j requires 0 <= j < |d| => tr(d[j]))
  }

  /** pwrite: a write past the end fills the gap with zeros. */
  function WriteAt(f: seq<byte>, o: nat, d: seq<byte>): (r: seq<byte>)
    ensures |r| == (if d == [] || o + |d| <= |f| then |f| else o + |d|)
    ensures forall j :: 0 <= j < |d| ==> r[o + j] == d[j]
    ensures forall j :: 0 <= j < |f| && !(o <= j < o + |d|) ==> r[j] == f[j]
  {
    if d == [] then f
    else seq(if o + |d| <= |f| then |f| else o + |d|,
             j requires 0 <= j => if o <= j < o + |d| then d[j - o] else if j < |f| then f[j] else 0)
  }

  /** What follows the switch: leave the inner loop, go on to the next buffer, or suspend. */
  function AfterSwitch(s: State, size: nat): State {
    if s.numop == 0 then (if s.off >= size then s.(i := 0) else s.(i := (s.i + 1) % NBUF))
    else s.(suspended := true)
  }

  function ScanBuf(s: State, tr: byte -> byte, size: nat): State
    requires s.i < |s.bufs| && |s.bufs| == |s.aiolist|
  {
    var b := s.bufs[s.i];
    match b.op
    case Unused =>
      if s.off < size then
        var b' := b.(op := ReadPending, offset := s.off, nbytes := BSZ, done := false,
                     last := b.last || s.off + BSZ >= size);
        AfterSwitch(s.(bufs := s.bufs[s.i := b'], off := s.off + BSZ,
                       aiolist := s.aiolist[s.i := true], numop := s.numop + 1), size)
      else AfterSwitch(s, size)
    case ReadPending =>
      if !b.done then s.(i := (s.i + 1) % NBUF)
      else if |b.data| != BSZ && !b.last then s.(n := |b.data|, quit := true)
      else
        var b' := b.(op := WritePending, nbytes := |b.data|, data := Translated(tr, b.data), done := false);
        AfterSwitch(s.(bufs := s.bufs[s.i := b'], n := |b.data|), size)
    case WritePending =>
      if !b.done then s.(i := (s.i + 1) % NBUF)
      else if s.n != b.nbytes then s.(quit := true)
      else
        AfterSwitch(s.(bufs := s.bufs[s.i := b.(op := Unused)], aiolist := s.aiolist[s.i := false],
                       numop := s.numop - 1), size)
  }

  /** Some request on the list has completed: aio_suspend may return. */
  predicate Awake(s: State)
    requires |s.bufs| == |s.aiolist|
  {
    exists k :: 0 <= k < |s.bufs| && s.aiolist[k] && s.bufs[k].done
  }

  ghost predicate Shaped(s: State) {
    |s.bufs| == |s.aiolist| == NBUF && s.i < NBUF
  }

  function Step(s: State, tr: byte -> byte, input: seq<byte>, e: Event): (s': State)
    requires Shaped(s)
    ensures Shaped(s')
  {
    match e
    case Scan =>
      if s.quit then s
      else if !s.suspended then ScanBuf(s, tr, |input|)
      else if Awake(s) then s.(suspended := false, i := (s.i + 1) % NBUF)
      else s
    case ReadDone(k) =>
      if k < NBUF && s.bufs[k].op == ReadPending && !s.bufs[k].done && s.bufs[k].offset <= |input| then
        s.(bufs := s.bufs[k := s.bufs[k].(data := ReadAt(input, s.bufs[k].offset, s.bufs[k].nbytes), done := true)])
      else s
    case WriteDone(k) =>
      if k < NBUF && s.bufs[k].op == WritePending && !s.bufs[k].done && s.bufs[k].nbytes <= |s.bufs[k].data| then
        s.(bufs := s.bufs[k := s.bufs[k].(done := true)],
           output := WriteAt(s.output, s.bufs[k].offset, s.bufs[k].data[..s.bufs[k].nbytes]))
      else s
  }

  function Run(tr: byte -> byte, input: seq<byte>, es: seq<Event>): (s: State)
    ensures Shaped(s)
    decreases |es|
  {
    if es == [] then Init() else Step(Run(tr, input, es[..|es| - 1]), tr, input, es[|es| - 1])
  }

  // ----- the invariant

  predicate Active(b: Buf) { b.op != Unused }

  /** The block at `o` is in the output, translated, at its own offset. */
  ghost predicate Written(tr: byte -> byte, input: seq<byte>, output: seq<byte>, o: nat) {
    forall j: nat :: o <= j < o + BSZ && j < |input| ==> InPlace(tr, input, output, j)
  }

  ghost predicate InPlace(tr: byte -> byte, input: seq<byte>, output: seq<byte>, j: nat)
    requires j < |input|
  {
    j < |output| && output[j] == tr(input[j])
  }

  ghost predicate BufOk(tr: byte -> byte, input: seq<byte>, output: seq<byte>, off: nat, b: Buf) {
    Active(b) ==>
      && b.offset % BSZ == 0 && b.offset < off && b.offset < |input|
      && (b.offset + BSZ >= |input| ==> b.last)
      && (b.op == ReadPending ==> b.nbytes == BSZ)
      && (b.op == ReadPending && b.done ==> b.data == Block(input, b.offset))
      && (b.op == WritePending ==>
            b.data == Translated(tr, Block(input, b.offset)) && b.nbytes == |b.data|)
      && (b.op == WritePending && b.done ==> Written(tr, input, output, b.offset))
  }

  ghost predicate InFlight(bufs: seq<Buf>, o: nat) {
    exists k :: 0 <= k < |bufs| && Active(bufs[k]) && bufs[k].offset == o
  }

  ghost predicate DistinctOffsets(bufs: seq<Buf>) {
    forall k, l :: 0 <= k < l < |bufs| && Active(bufs[k]) && Active(bufs[l]) ==> bufs[k].offset != bufs[l].offset
  }

  ghost predicate Inv(tr: byte -> byte, input: seq<byte>, s: State) {
    && Shaped(s)
    && s.off % BSZ == 0
    && |s.output| <= |input|
    && (forall k :: 0 <= k < NBUF ==> BufOk(tr, input, s.output, s.off, s.bufs[k]))
    && (forall k :: 0 <= k < NBUF ==> (s.aiolist[k] <==> Active(s.bufs[k])))
    && DistinctOffsets(s.bufs)
    && s.numop == Count(s.bufs, Active)
    && (forall o: nat ::
          o % BSZ == 0 && o < s.off && o < |input| ==> InFlight(s.bufs, o) || Written(tr, input, s.output, o))
  }

  // ----- every step keeps it

  lemma KeepsFlight(bufs: seq<Buf>, k: nat, b: Buf, o: nat)
    requires k < |bufs| && InFlight(bufs, o) && (Active(bufs[k]) && bufs[k].offset == o ==> Active(b) && b.offset == o)
    ensures InFlight(bufs[k := b], o)
  {
    var l :| 0 <= l < |bufs| && Active(bufs[l]) && bufs[l].offset == o;
    assert Active(bufs[k := b][l]) && bufs[k := b][l].offset == o;
  }

  /** Only buffer `k` changes, and it stays on the same block. */
  lemma SameBlock(tr: byte -> byte, input: seq<byte>, s: State, s': State, k: nat, b: Buf)
    requires Inv(tr, input, s) && k < NBUF && Active(s.bufs[k]) && Active(b) && b.offset == s.bufs[k].offset
    requires Shaped(s') && s'.bufs == s.bufs[k := b] && s'.off == s.off && s'.numop == s.numop &&
        s'.aiolist == s.aiolist
    requires |s'.output| <= |input| && BufOk(tr, input, s'.output, s.off, b)
    requires forall o: nat :: Written(tr, input, s.output, o) ==> Written(tr, input, s'.output, o)
    ensures Inv(tr, input, s')
  {
    CountUpdate(s.bufs, k, b, Active);
    forall o: nat | o % BSZ == 0 && o < s'.off && o < |input|
      ensures InFlight(s'.bufs, o) || Written(tr, input, s'.output, o)
    {
      if InFlight(s.bufs, o) { KeepsFlight(s.bufs, k, b, o); }
    }
    forall l | 0 <= l < NBUF ensures BufOk(tr, input, s'.output, s'.off, s'.bufs[l]) {
      assert BufOk(tr, input, s.output, s.off, s.bufs[l]);
    }
  }

  lemma StartRead(tr: byte -> byte, input: seq<byte>, s: State)
    requires Inv(tr, input, s) && s.bufs[s.i].op == Unused
    ensures Inv(tr, input, ScanBuf(s, tr, |input|))
  {
    if s.off < |input| {
      var s' := ScanBuf(s, tr, |input|);
      var b := s'.bufs[s.i];
      assert s'.bufs == s.bufs[s.i := b];
      CountUpdate(s.bufs, s.i, b, Active);
      forall o: nat | o % BSZ == 0 && o < s'.off && o < |input|
        ensures InFlight(s'.bufs, o) || Written(tr, input, s'.output, o)
      {
        if o < s.off {
          if InFlight(s.bufs, o) { KeepsFlight(s.bufs, s.i, b, o); }
        } else {
          assert o == s.off;
          assert Active(s'.bufs[s.i]) && s'.bufs[s.i].offset == o;
        }
      }
      forall l | 0 <= l < NBUF ensures BufOk(tr, input, s'.output, s'.off, s'.bufs[l]) {
        assert BufOk(tr, input, s.output, s.off, s.bufs[l]);
      }
    }
  }

  lemma ReadReturned(tr: byte -> byte, input: seq<byte>, s: State)
    requires Inv(tr, input, s) && s.bufs[s.i].op == ReadPending
    ensures Inv(tr, input, ScanBuf(s, tr, |input|))
    ensures ScanBuf(s, tr, |input|).quit == s.quit
  {
    var b := s.bufs[s.i];
    assert BufOk(tr, input, s.output, s.off, b);
    if b.done {
      var s' := ScanBuf(s, tr, |input|);
      SameBlock(tr, input, s, s', s.i, s'.bufs[s.i]);
    }
  }

  /** Buffer `k`, whose block is in place, becomes free. */
  lemma Released(tr: byte -> byte, input: seq<byte>, s: State, s': State, k: nat)
    requires Inv(tr, input, s) && k < NBUF && Active(s.bufs[k]) && Written(tr, input, s.output, s.bufs[k].offset)
    requires Shaped(s') && s'.bufs == s.bufs[k := s.bufs[k].(op := Unused)] && s'.aiolist == s.aiolist[k := false]
    requires s'.off == s.off && s'.numop == s.numop - 1 && s'.output == s.output
    ensures Inv(tr, input, s')
  {
    hide Written;
    var b' := s.bufs[k].(op := Unused);
    CountUpdate(s.bufs, k, b', Active);
    forall o: nat | o % BSZ == 0 && o < s'.off && o < |input|
      ensures InFlight(s'.bufs, o) || Written(tr, input, s'.output, o)
    {
      if InFlight(s.bufs, o) && o != s.bufs[k].offset { KeepsFlight(s.bufs, k, b', o); }
    }
    forall l | 0 <= l < NBUF ensures BufOk(tr, input, s'.output, s'.off, s'.bufs[l]) {
      assert BufOk(tr, input, s.output, s.off, s.bufs[l]);
    }
  }

  lemma WriteReturned(tr: byte -> byte, input: seq<byte>, s: State)
    requires Inv(tr, input, s) && s.bufs[s.i].op == WritePending
    ensures Inv(tr, input, ScanBuf(s, tr, |input|))
  {
    var b := s.bufs[s.i];
    assert BufOk(tr, input, s.output, s.off, b);
    if b.done && s.n == b.nbytes {
      Released(tr, input, s, ScanBuf(s, tr, |input|), s.i);
    }
  }

  /** Writing a translated block puts it in place and spoils no block already there. */
  lemma BlockWrite(tr: byte -> byte, input: seq<byte>, f: seq<byte>, o: nat, o': nat)
    requires o < |input| && |f| <= |input|
    ensures var f' := WriteAt(f, o, Translated(tr, Block(input, o)));
      && |f'| <= |input| && Written(tr, input, f', o)
      && (Written(tr, input, f, o') ==> Written(tr, input, f', o'))
  {
    var d := Translated(tr, Block(input, o));
    var f' := WriteAt(f, o, d);
    forall j: nat | o <= j < o + BSZ && j < |input| ensures InPlace(tr, input, f', j) {
      assert f'[o + (j - o)] == d[j - o];
    }
    if Written(tr, input, f, o') {
      forall j: nat | o' <= j < o' + BSZ && j < |input| ensures InPlace(tr, input, f', j) {
        assert InPlace(tr, input, f, j);
      }
    }
  }

  lemma WriteCompletes(tr: byte -> byte, input: seq<byte>, s: State, k: nat)
    requires Inv(tr, input, s)
    ensures Inv(tr, input, Step(s, tr, input, WriteDone(k)))
  {
    var s' := Step(s, tr, input, WriteDone(k));
    if k < NBUF && s.bufs[k].op == WritePending && !s.bufs[k].done {
      var b := s.bufs[k];
      assert BufOk(tr, input, s.output, s.off, b);
      assert b.data[..b.nbytes] == Translated(tr, Block(input, b.offset));
      BlockWrite(tr, input, s.output, b.offset, b.offset);
      forall o: nat | Written(tr, input, s.output, o) ensures Written(tr, input, s'.output, o) {
        BlockWrite(tr, input, s.output, b.offset, o);
      }
      SameBlock(tr, input, s, s', k, s'.bufs[k]);
    }
  }

  lemma StepKeepsInv(tr: byte -> byte, input: seq<byte>, s: State, e: Event)
    requires Inv(tr, input, s)
    ensures Inv(tr, input, Step(s, tr, input, e))
  {
    match e
    case WriteDone(k) => WriteCompletes(tr, input, s, k);
    case ReadDone(k) =>
      if k < NBUF && s.bufs[k].op == ReadPending && !s.bufs[k].done {
        assert BufOk(tr, input, s.output, s.off, s.bufs[k]);
        var s' := Step(s, tr, input, e);
        SameBlock(tr, input, s, s', k, s'.bufs[k]);
      }
    case Scan =>
      if !s.quit && !s.suspended {
        match s.bufs[s.i].op {
          case Unused => StartRead(tr, input, s);
          case ReadPending => ReadReturned(tr, input, s);
          case WritePending => WriteReturned(tr, input, s);
        }
      }
  }

  lemma {:induction false} RunsKeepInv(tr: byte -> byte, input: seq<byte>, es: seq<Event>)
    ensures Inv(tr, input, Run(tr, input, es))
    decreases |es|
  {
    if es == [] {
      CountNone(Init().bufs, Active);
    } else {
      RunsKeepInv(tr, input, es[..|es| - 1]);
      StepKeepsInv(tr, input, Run(tr, input, es[..|es| - 1]), es[|es| - 1]);
    }
  }

  // ----- the results

  /** In every reachable state, whatever order requests complete in: `numop` counts the busy buffers,
      which are the listed ones; the blocks in flight are distinct, aligned and below `off`; every other
      block below `off` is in the output already, translated, at its own place. */
  lemma Bookkeeping(tr: byte -> byte, input: seq<byte>, es: seq<Event>, o: nat)
    ensures var s := Run(tr, input, es);
      && s.numop == Count(s.bufs, Active)
      && (forall k :: 0 <= k < NBUF ==> (s.aiolist[k] <==> Active(s.bufs[k])))
      && DistinctOffsets(s.bufs)
      && (forall k :: 0 <= k < NBUF && Active(s.bufs[k]) ==>
            s.bufs[k].offset % BSZ == 0 && s.bufs[k].offset < s.off && s.bufs[k].offset < |input|)
      && (o % BSZ == 0 && o < s.off && o < |input| ==> InFlight(s.bufs, o) || Written(tr, input, s.output, o))
  {
    RunsKeepInv(tr, input, es);
    var s := Run(tr, input, es);
    forall k | 0 <= k < NBUF && Active(s.bufs[k])
      ensures s.bufs[k].offset % BSZ == 0 && s.bufs[k].offset < s.off && s.bufs[k].offset < |input|
    {
      assert BufOk(tr, input, s.output, s.off, s.bufs[k]);
    }
  }

  lemma BlockStart(j: nat) returns (o: nat)
    ensures o % BSZ == 0 && o <= j < o + BSZ
  {
    o := BSZ * (j / BSZ);
  }

  /** Refinement: whenever nothing is in flight and the whole file has been asked for, the output is the
      translated input, as the sequential filter writes it. */
  lemma FinishedOutput(tr: byte -> byte, input: seq<byte>, es: seq<Event>)
    requires Run(tr, input, es).numop == 0 && Run(tr, input, es).off >= |input|
    ensures Run(tr, input, es).output == Translated(tr, input)
  {
    var s := Run(tr, input, es);
    RunsKeepInv(tr, input, es);
    CountNone(s.bufs, Active);
    forall j: nat | j < |input| ensures InPlace(tr, input, s.output, j) {
      var o := BlockStart(j);
      assert !InFlight(s.bufs, o);
      assert Written(tr, input, s.output, o);
    }
    if |input| > 0 { assert InPlace(tr, input, s.output, |input| - 1); }
    forall j: nat | j < |input| ensures s.output[j] == Translated(tr, input)[j] {
      assert InPlace(tr, input, s.output, j);
    }
  }
}
