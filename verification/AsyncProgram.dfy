/** The two filters as programs: the sequential loop, and the asynchronous scan updating its buffers. */
module AsyncProgram {
  import opened Bytes
  import opened AsyncFilter

  /** The sequential filter: read up to BSZ bytes, translate them in the buffer, write them. `counts`
      decides how much each read delivers; the result does not depend on it. */
  method SequentialFilter(tr: byte -> byte, input: seq<byte>, counts: seq<nat>) returns (output: seq<byte>)
    ensures output == Translated(tr, input)
  {
    var buf := new byte[BSZ];
    output := [];
    var pos, k := 0, 0;
    while pos < |input|
      invariant 0 <= pos <= |input| && output == Translated(tr, input)[..pos]
      decreases |input| - pos
    {
      var n := Min(BSZ, |input| - pos);
      if k < |counts| && 0 < counts[k] < n { n := counts[k]; }
      k := k + 1;
      forall j | 0 <= j < n { buf[j] := input[pos + j]; }
      var i := 0;
      while i < n
        invariant 0 <= i <= n
        invariant forall j :: 0 <= j < i ==> buf[j] == tr(input[pos + j])
        invariant forall j :: i <= j < n ==> buf[j] == input[pos + j]
      {
        buf[i] := tr(buf[i]);
        i := i + 1;
      }
      assert buf[..n] == Translated(tr, input)[pos..pos + n];
      output := output + buf[..n];
      pos := pos + n;
    }
  }

  class Pipeline {
    var bufs: seq<Buf>
    var aiolist: seq<bool>
    var off: nat
    var numop: int
    var i: nat
    var n: int
    var suspended: bool
    var output: seq<byte>
    var quit: bool

    ghost function View(): State
      reads this
    {
      State(bufs, aiolist, off, numop, i, n, suspended, output, quit)
    }

    constructor ()
      ensures View() == Init()
    {
      bufs := seq(NBUF, k => Buf(Unused, false, 0, 0, [], false));
      aiolist := seq(NBUF, k => false);
      off, numop, i, n, suspended, output, quit := 0, 0, 0, -1, false, [], false;
    }

    method NextBuf(size: nat)
      modifies this
      ensures View() == AfterSwitch(old(View()), size)
    {
      if numop == 0 {
        i := if off >= size then 0 else (i + 1) % NBUF;
      } else {
        suspended := true;
      }
    }

    /** One pass through the body of the scanning loop. */
    method ScanOne(tr: byte -> byte, size: nat)
      requires Shaped(View())
      modifies this
      ensures View() == ScanBuf(old(View()), tr, size)
    {
      var b := bufs[i];
      match b.op {
        case Unused =>
          if off < size {
            bufs := bufs[i := b.(op := ReadPending, offset := off, nbytes := BSZ, done := false,
                                 last := b.last || off + BSZ >= size)];
            off := off + BSZ;
            aiolist := aiolist[i := true];
            numop := numop + 1;
          }
          NextBuf(size);
        case ReadPending =>
          if !b.done {
            i := (i + 1) % NBUF;
          } else {
            n := |b.data|;
            if n != BSZ && !b.last {
              quit := true;
            } else {
              var data := TranslateInPlace(tr, b.data);
              bufs := bufs[i := b.(op := WritePending, nbytes := |data|, data := data, done := false)];
              NextBuf(size);
            }
          }
        case WritePending =>
          if !b.done {
            i := (i + 1) % NBUF;
          } else if n != b.nbytes {
            quit := true;
          } else {
            aiolist := aiolist[i := false];
            bufs := bufs[i := b.(op := Unused)];
            numop := numop - 1;
            NextBuf(size);
          }
      }
    }

    /** main and the system, under any order of completions. */
    method Execute(tr: byte -> byte, input: seq<byte>, es: seq<Event>)
      requires View() == Init()
      modifies this
      ensures View() == Run(tr, input, es)
      ensures numop == 0 && off >= |input| ==> output == Translated(tr, input)
    {
      var m := 0;
      while m < |es|
        invariant 0 <= m <= |es| && View() == Run(tr, input, es[..m])
      {
        ghost var before := View();
        match es[m] {
          case Scan =>
            if !quit {
              if !suspended {
                ScanOne(tr, |input|);
              } else if exists k :: 0 <= k < |bufs| && aiolist[k] && bufs[k].done {
                suspended, i := false, (i + 1) % NBUF;
              }
            }
          case ReadDone(k) =>
            if k < NBUF && bufs[k].op == ReadPending && !bufs[k].done && bufs[k].offset <= |input| {
              bufs := bufs[k := bufs[k].(data := ReadAt(input, bufs[k].offset, bufs[k].nbytes), done := true)];
            }
          case WriteDone(k) =>
            if k < NBUF && bufs[k].op == WritePending && !bufs[k].done && bufs[k].nbytes <= |bufs[k].data| {
              output := WriteAt(output, bufs[k].offset, bufs[k].data[..bufs[k].nbytes]);
              bufs := bufs[k := bufs[k].(done := true)];
            }
        }
        assert View() == Step(before, tr, input, es[m]);
        m := m + 1;
        assert es[..m][..m - 1] == es[..m - 1];
      }
      assert es[..m] == es;
      if numop == 0 && off >= |input| { FinishedOutput(tr, input, es); }
    }
  }

  method TranslateInPlace(tr: byte -> byte, data: seq<byte>) returns (d: seq<byte>)
    ensures d == Translated(tr, data)
  {
    d := data;
    for j := 0 to |data|
      invariant |d| == |data|
      invariant forall m :: 0 <= m < j ==> d[m] == tr(data[m])
      invariant forall m :: j <= m < |data| ==> d[m] == data[m]
    {
      d := d[j := tr(d[j])];
    }
  }
}
