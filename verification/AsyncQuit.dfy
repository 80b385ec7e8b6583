/** The short-write check of the asynchronous filter compares the write with the length of the last
    *read* that returned. What that means for its runs. */
module AsyncQuit {
  import opened Bytes
  import opened AsyncFilter

  /** A completed write is accepted or makes the program quit by the guard below: the length of its own
      block against the length of whichever block was read last. */
  lemma QuitsIff(tr: byte -> byte, input: seq<byte>, es: seq<Event>)
    requires var s := Run(tr, input, es); !s.quit && !s.suspended && s.bufs[s.i].op == WritePending && s.bufs[s.i].done
    ensures var s := Run(tr, input, es); var o := s.bufs[s.i].offset;
      Step(s, tr, input, Scan).quit <==> s.n != Min(BSZ, |input| - o)
  {
    RunsKeepInv(tr, input, es);
    QuitsHere(tr, input, Run(tr, input, es));
  }

  lemma QuitsHere(tr: byte -> byte, input: seq<byte>, s: State)
    requires Inv(tr, input, s) && !s.quit && !s.suspended && s.bufs[s.i].op == WritePending && s.bufs[s.i].done
    ensures Step(s, tr, input, Scan).quit <==> s.n != Min(BSZ, |input| - s.bufs[s.i].offset)
  {
    hide Written, DistinctOffsets, InFlight;
    assert BufOk(tr, input, s.output, s.off, s.bufs[s.i]);
  }

  /** The other check, on reads: a completed read makes the program quit exactly if it brought no full block
      and was not that of the last one; else its block, translated, is the one to be written. */
  lemma ShortReadQuits(tr: byte -> byte, input: seq<byte>, s: State)
    requires Shaped(s) && !s.quit && !s.suspended && s.bufs[s.i].op == ReadPending && s.bufs[s.i].done
    ensures var b := s.bufs[s.i]; var r := Step(s, tr, input, Scan);
      && r.n == |b.data| && r.output == s.output
      && (r.quit <==> |b.data| != 4096 && !b.last)
      && (!r.quit ==> r.bufs[s.i].op == WritePending && r.bufs[s.i].nbytes == |b.data| &&
                      r.bufs[s.i].offset == b.offset && r.bufs[s.i].data == Translated(tr, b.data))
  {
  }

  ghost predicate Uniform(input: seq<byte>) {
    |input| % BSZ == 0 || |input| <= BSZ
  }

  ghost predicate LengthsAgree(s: State) {
    !s.quit && forall k :: 0 <= k < |s.bufs| && s.bufs[k].op == WritePending ==> s.bufs[k].nbytes == s.n
  }

  lemma BlockLength(input: seq<byte>, o: nat)
    requires Uniform(input) && o % BSZ == 0 && o < |input|
    ensures |Block(input, o)| == Min(BSZ, |input|)
  {
  }

  lemma {:induction false} UniformLengths(tr: byte -> byte, input: seq<byte>, es: seq<Event>)
    requires Uniform(input)
    ensures LengthsAgree(Run(tr, input, es))
    decreases |es|
  {
    if es != [] {
      var s := Run(tr, input, es[..|es| - 1]);
      UniformLengths(tr, input, es[..|es| - 1]);
      RunsKeepInv(tr, input, es[..|es| - 1]);
      UniformStep(tr, input, s, es[|es| - 1]);
    }
  }

  lemma UniformStep(tr: byte -> byte, input: seq<byte>, s: State, e: Event)
    requires Uniform(input) && Inv(tr, input, s) && LengthsAgree(s)
    ensures LengthsAgree(Step(s, tr, input, e))
  {
    hide Written;
    forall k | 0 <= k < NBUF && Active(s.bufs[k])
      ensures s.bufs[k].op == ReadPending && s.bufs[k].done ==> |s.bufs[k].data| == Min(BSZ, |input|)
      ensures s.bufs[k].op == ReadPending && s.bufs[k].done && |s.bufs[k].data| != BSZ ==> s.bufs[k].last
      ensures s.bufs[k].op == WritePending ==> s.bufs[k].nbytes == Min(BSZ, |input|)
    {
      assert BufOk(tr, input, s.output, s.off, s.bufs[k]);
      BlockLength(input, s.bufs[k].offset);
    }
  }

  /** A file of whole blocks, or of one block, never trips the check. */
  lemma UniformNeverQuits(tr: byte -> byte, input: seq<byte>, es: seq<Event>)
    requires |input| % BSZ == 0 || |input| <= BSZ
    ensures !Run(tr, input, es).quit
  {
    UniformLengths(tr, input, es);
  }
}
