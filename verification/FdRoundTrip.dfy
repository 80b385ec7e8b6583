/** What comes out of recv_fd when send_err or send_fd put it in, for every way of cutting the stream. */
module FdRoundTrip {
  import opened Bytes
  import opened FdPassing

  function Join<T>(parts: seq<seq<T>>): seq<T> {
    if parts == [] then [] else parts[0] + Join(parts[1..])
  }

  function AsRecvs(chunks: seq<seq<Cell>>): (r: seq<Recv>)
    ensures |r| == |chunks| && forall i :: 0 <= i < |r| ==> r[i] == Data(chunks[i])
  {
    seq(|chunks|, i requires 0 <= i < |chunks| => Data(chunks[i]))
  }

  /** What the receiver should return for the `fd` given to send_fd. */
  function Expected(fd: int): Outcome {
    if fd < 0 then Status(-(StatusByte(fd) as int)) else Descriptor(fd)
  }

  predicate NoNull(msg: seq<byte>) {
    forall i :: 0 <= i < |msg| ==> msg[i] != 0
  }

  lemma {:induction false} FirstNullOf(data: seq<byte>, z: nat)
    requires z <= |data| && (forall i :: 0 <= i < z ==> data[i] != 0) && (z < |data| ==> data[z] == 0)
    ensures FirstNull(data) == z
  {
    if z > 0 {
      assert forall i :: 0 <= i < z - 1 ==> data[1..][i] == data[i + 1];
      FirstNullOf(data[1..], z - 1);
    }
  }

  lemma {:induction false} AttachedOf(msg: seq<byte>, tail: seq<Cell>)
    ensures Attached(Plain(msg) + tail) == Attached(tail)
  {
    var cells := Plain(msg) + tail;
    if msg == [] {
      assert cells == tail;
    } else {
      assert cells[1..] == Plain(msg[1..]) + tail;
      AttachedOf(msg[1..], tail);
    }
  }

  /** A chunk of message bytes only. */
  lemma PlainChunk(msg: seq<byte>)
    requires NoNull(msg)
    ensures ParseChunk(Plain(msg)) == (More, msg)
  {
    assert Octets(Plain(msg)) == msg;
    FirstNullOf(msg, |msg|);
  }

  /** A chunk that ends with the whole trailer. */
  lemma FinalChunk(msg: seq<byte>, fd: int)
    requires NoNull(msg)
    ensures ParseChunk(Plain(msg) + Trailer(fd)) == (Final(Expected(fd)), msg)
  {
    var cells := Plain(msg) + Trailer(fd);
    FirstNullOf(Octets(cells), |msg|);
    assert Octets(cells)[..|msg|] == msg;
    AttachedOf(msg, Trailer(fd));
  }

  /** A chunk that ends between the null and the status. */
  lemma SplitChunk(msg: seq<byte>, fd: int)
    requires NoNull(msg)
    ensures ParseChunk(Plain(msg) + Trailer(fd)[..1]) == (Final(Dumped), [])
  {
    FirstNullOf(Octets(Plain(msg) + Trailer(fd)[..1]), |msg|);
  }

  predicate NonEmpty(chunks: seq<seq<Cell>>) {
    forall i :: 0 <= i < |chunks| ==> chunks[i] != []
  }

  ghost predicate AcceptsAll(userfunc: seq<byte> -> int) {
    forall d :: userfunc(d) == |d|
  }

  /** One turn of recv_fd on a chunk that does not end the exchange. */
  lemma ReceivedMore(chunks: seq<seq<Cell>>, userfunc: seq<byte> -> int, part: seq<byte>)
    requires chunks != [] && chunks[0] != [] && part != [] && AcceptsAll(userfunc)
    requires ParseChunk(chunks[0]) == (More, part)
    ensures Received(AsRecvs(chunks), userfunc).0 == Received(AsRecvs(chunks[1..]), userfunc).0
    ensures Join(Received(AsRecvs(chunks), userfunc).1) == part + Join(Received(AsRecvs(chunks[1..]), userfunc).1)
  {
    assert AsRecvs(chunks)[1..] == AsRecvs(chunks[1..]);
    var later := Received(AsRecvs(chunks[1..]), userfunc).1;
    assert ([part] + later)[1..] == later;
  }

  /** One turn of recv_fd on a chunk that ends it. */
  lemma ReceivedFinal(chunks: seq<seq<Cell>>, userfunc: seq<byte> -> int, o: Outcome, part: seq<byte>)
    requires chunks != [] && chunks[0] != [] && AcceptsAll(userfunc)
    requires ParseChunk(chunks[0]) == (Final(o), part)
    ensures Received(AsRecvs(chunks), userfunc).0 == o
    ensures o != Dumped ==> Join(Received(AsRecvs(chunks), userfunc).1) == part
  {
    assert [part][1..] == [] && part + [] == part;
    assert Join([part]) == part + Join([]);
  }

  /** How the first chunk of a cut stream begins it. */
  lemma FirstChunk(msg: seq<byte>, fd: int, chunks: seq<seq<Cell>>)
    requires chunks != [] && Join(chunks) == Plain(msg) + Trailer(fd)
    ensures var c := chunks[0]; var rest := chunks[1..];
      && |c| + |Join(rest)| == |msg| + 2
      && (|c| <= |msg| ==> c == Plain(msg[..|c|]) && Join(rest) == Plain(msg[|c|..]) + Trailer(fd))
      && (|c| == |msg| + 1 ==> c == Plain(msg) + Trailer(fd)[..1])
      && (|c| == |msg| + 2 ==> c == Plain(msg) + Trailer(fd))
  {
    var c := chunks[0];
    var wire := Plain(msg) + Trailer(fd);
    assert wire[..|c|] == c && wire[|c|..] == Join(chunks[1..]);
    if |c| <= |msg| {
      assert wire[..|c|] == Plain(msg[..|c|]);
      assert wire[|c|..] == Plain(msg[|c|..]) + Trailer(fd);
    } else if |c| == |msg| + 1 {
      assert wire[..|c|] == Plain(msg) + Trailer(fd)[..1];
    } else {
      assert wire[..|c|] == wire;
    }
  }

  lemma {:induction false} JoinLength(parts: seq<seq<Cell>>)
    requires NonEmpty(parts)
    ensures |Join(parts)| >= |parts|
  {
    if parts != [] { JoinLength(parts[1..]); }
  }

  /** One byte left over fills one chunk. */
  lemma LastIsShort(rest: seq<seq<Cell>>)
    requires |Join(rest)| == 1 && NonEmpty(rest)
    ensures rest != [] && |rest[|rest| - 1]| == 1
  {
    JoinLength(rest);
    if rest != [] { assert Join(rest) == rest[0] + Join(rest[1..]) && rest[1..] == []; }
  }

  /** End to end. Whatever the message (no null bytes) and however the stream is cut into non-empty
      chunks, recv_fd hands over exactly the message bytes in order and returns the status or the
      descriptor, if and only if the cut does not fall inside the two-byte trailer; else it dumps. */
  lemma {:induction false} RoundTrip(msg: seq<byte>, fd: int, chunks: seq<seq<Cell>>, userfunc: seq<byte> -> int)
    requires NoNull(msg) && Join(chunks) == Plain(msg) + Trailer(fd)
    requires NonEmpty(chunks) && AcceptsAll(userfunc)
    ensures chunks != []
    ensures var (o, calls) := Received(AsRecvs(chunks), userfunc);
      if |chunks[|chunks| - 1]| >= 2 then o == Expected(fd) && Join(calls) == msg else o == Dumped
    decreases |chunks|
  {
    hide Received, ParseChunk;
    var c, rest := chunks[0], chunks[1..];
    FirstChunk(msg, fd, chunks);
    JoinLength(rest);
    if |c| <= |msg| {
      PlainChunk(msg[..|c|]);
      ReceivedMore(chunks, userfunc, msg[..|c|]);
      RoundTrip(msg[|c|..], fd, rest, userfunc);
      assert rest[|rest| - 1] == chunks[|chunks| - 1];
      assert msg[..|c|] + msg[|c|..] == msg;
    } else if |c| == |msg| + 1 {
      SplitChunk(msg, fd);
      ReceivedFinal(chunks, userfunc, Dumped, []);
      LastIsShort(rest);
    } else {
      assert rest == [];
      FinalChunk(msg, fd);
      ReceivedFinal(chunks, userfunc, Expected(fd), msg);
    }
  }

  // ----- a callback that refuses

  function Min(a: nat, b: nat): nat { if a < b then a else b }

  /** The message bytes in each of the first `k` chunks. */
  function Pieces(msg: seq<byte>, chunks: seq<seq<Cell>>, k: nat): (p: seq<seq<byte>>)
    requires k <= |chunks|
    ensures |p| == k
  {
    if k == 0 then [] else
    var n := Min(|chunks[0]|, |msg|);
    [msg[..n]] + Pieces(msg[n..], chunks[1..], k - 1)
  }

  lemma ReceivedTaken(chunks: seq<seq<Cell>>, userfunc: seq<byte> -> int, part: seq<byte>)
    requires chunks != [] && chunks[0] != [] && part != [] && userfunc(part) == |part|
    requires ParseChunk(chunks[0]) == (More, part)
    ensures Received(AsRecvs(chunks), userfunc).0 == Received(AsRecvs(chunks[1..]), userfunc).0
    ensures Received(AsRecvs(chunks), userfunc).1 == [part] + Received(AsRecvs(chunks[1..]), userfunc).1
  {
    assert AsRecvs(chunks)[1..] == AsRecvs(chunks[1..]);
  }

  lemma ReceivedRefused(chunks: seq<seq<Cell>>, userfunc: seq<byte> -> int, part: seq<byte>)
    requires chunks != [] && chunks[0] != [] && part != [] && userfunc(part) != |part|
    requires ParseChunk(chunks[0]).0 != Final(Dumped) && ParseChunk(chunks[0]).1 == part
    ensures Received(AsRecvs(chunks), userfunc) == (Failed, [part])
  {
  }

  /** A callback that takes the first `k` pieces and not the next: it is given just these, and recv_fd fails,
      also when the trailer has arrived with the refused piece. Only a cut inside the trailer is noticed
      first. */
  lemma {:induction false} RefusedPiece(msg: seq<byte>, fd: int, chunks: seq<seq<Cell>>, userfunc: seq<byte> -> int,
      k: nat, pieces: seq<seq<byte>>)
    requires NoNull(msg) && Join(chunks) == Plain(msg) + Trailer(fd) && NonEmpty(chunks) && k < |chunks|
    requires |Join(chunks[..k])| < |msg| && |Join(chunks[..k + 1])| != |msg| + 1
    requires pieces == Pieces(msg, chunks, k + 1)
    requires forall i :: 0 <= i < k ==> userfunc(pieces[i]) == |pieces[i]|
    requires userfunc(pieces[k]) != |pieces[k]|
    ensures Received(AsRecvs(chunks), userfunc) == (Failed, pieces)
    decreases k
  {
    hide ParseChunk, Received;
    var c, rest := chunks[0], chunks[1..];
    FirstChunk(msg, fd, chunks);
    var n := Min(|c|, |msg|);
    var later := Pieces(msg[n..], rest, k);
    assert pieces == [msg[..n]] + later;
    assert chunks[..k + 1][0] == c && chunks[..k + 1][1..] == rest[..k];
    assert |Join(chunks[..k + 1])| == |c| + |Join(rest[..k])|;
    if k == 0 {
      if |c| <= |msg| { PlainChunk(msg[..|c|]); } else { FinalChunk(msg, fd); }
      assert pieces == [msg[..n]];
      ReceivedRefused(chunks, userfunc, msg[..n]);
    } else {
      assert chunks[..k][0] == c && chunks[..k][1..] == rest[..k - 1];
      PlainChunk(msg[..|c|]);
      assert later[k - 1] == pieces[k] && pieces[0] == msg[..n];
      forall i | 0 <= i < k - 1 ensures later[i] == pieces[i + 1] { }
      RefusedPiece(msg[n..], fd, rest, userfunc, k - 1, later);
      ReceivedTaken(chunks, userfunc, msg[..n]);
    }
  }

  /** The status that arrives for an error code given to send_err. */
  lemma StatusOfError(errcode: int)
    ensures var o := Expected(if errcode >= 0 then -1 else errcode);
      o == Status(if errcode >= 0 || (-errcode) % 256 == 0 then -1 else -((-errcode) % 256))
  {
  }

  // ----- from sender to receiver

  /** How the stream is cut into the pieces that recvmsg delivers. */
  ghost predicate IsCut(cut: seq<Cell> -> seq<seq<Cell>>) {
    forall w :: Join(cut(w)) == w && NonEmpty(cut(w))
  }

  /** The last piece holds the whole trailer. */
  predicate KeepsTrailer(chunks: seq<seq<Cell>>) { chunks != [] && |chunks[|chunks| - 1]| >= 2 }

  /** send_err at one end, recv_fd at the other: the message arrives, and -((-e) mod 256), or -1. */
  method ExchangeError(errcode: int, msg: seq<byte>, results: nat -> int, cut: seq<Cell> -> seq<seq<Cell>>,
      userfunc: seq<byte> -> int)
    returns (o: Outcome, calls: seq<seq<byte>>)
    requires NoNull(msg) && AcceptsAll(userfunc) && IsCut(cut) && forall k: nat :: results(k) > 0
    ensures var chunks := cut(Plain(msg) + Trailer(Negative(errcode)));
      if KeepsTrailer(chunks)
      then Join(calls) == msg && o == Status(if errcode >= 0 || (-errcode) % 256 == 0 then -1 else -((-errcode) % 256))
      else o == Dumped
  {
    var socket := new Socket();
    var r := socket.SendErr(errcode, msg, results, 2);
    assert socket.wire == Plain(msg) + Trailer(Negative(errcode));
    var chunks := cut(socket.wire);
    o, calls := RecvFd(AsRecvs(chunks), userfunc);
    RoundTrip(msg, Negative(errcode), chunks, userfunc);
    StatusOfError(errcode);
  }

  /** A message and then send_fd at one end, recv_fd at the other: the message arrives, and the descriptor. */
  method ExchangeDescriptor(fd: nat, msg: seq<byte>, results: nat -> int, cut: seq<Cell> -> seq<seq<Cell>>,
      userfunc: seq<byte> -> int)
    returns (o: Outcome, calls: seq<seq<byte>>)
    requires NoNull(msg) && AcceptsAll(userfunc) && IsCut(cut) && forall k: nat :: results(k) > 0
    ensures
      if KeepsTrailer(cut(Plain(msg) + Trailer(fd))) then Join(calls) == msg && o == Descriptor(fd) else o == Dumped
  {
    var socket := new Socket();
    var w := socket.Writen(msg, results);
    assert msg[..w] == msg;
    var r := socket.SendFd(fd, true, 2);
    assert socket.wire == Plain(msg) + Trailer(fd);
    var chunks := cut(socket.wire);
    o, calls := RecvFd(AsRecvs(chunks), userfunc);
    RoundTrip(msg, fd, chunks, userfunc);
  }

  // ----- which messages get cut

  /** A receiver that always gets as much as its buffer holds. */
  function Greedy(wire: seq<Cell>): (chunks: seq<seq<Cell>>) {
    if |wire| == 0 then []
    else if |wire| <= MAXLINE then [wire]
    else [wire[..MAXLINE]] + Greedy(wire[MAXLINE..])
  }

  lemma {:induction false} GreedyCuts(wire: seq<Cell>)
    ensures Join(Greedy(wire)) == wire && NonEmpty(Greedy(wire))
    ensures forall i :: 0 <= i < |Greedy(wire)| ==> |Greedy(wire)[i]| <= MAXLINE
  {
    if 0 < |wire| <= MAXLINE {
      assert [wire][1..] == [];
    } else if |wire| > MAXLINE {
      GreedyCuts(wire[MAXLINE..]);
      assert ([wire[..MAXLINE]] + Greedy(wire[MAXLINE..]))[1..] == Greedy(wire[MAXLINE..]);
    }
  }

  function LastLength(n: nat): nat {
    if n % MAXLINE == 0 then MAXLINE else n % MAXLINE
  }

  lemma LastLengthStep(n: nat)
    requires n > MAXLINE
    ensures LastLength(n) == LastLength(n - MAXLINE)
  {
  }

  lemma {:induction false} GreedyLast(wire: seq<Cell>)
    requires wire != []
    ensures Greedy(wire) != [] && |Greedy(wire)[|Greedy(wire)| - 1]| == LastLength(|wire|)
  {
    if |wire| > MAXLINE {
      LastLengthStep(|wire|);
      GreedyLast(wire[MAXLINE..]);
    }
  }

  /** When message and trailer are read as one run of full buffers, the exchange fails exactly for the
      messages whose length is one less than a multiple of MAXLINE. */
  lemma GreedyReceiver(msg: seq<byte>, fd: int, userfunc: seq<byte> -> int)
    requires NoNull(msg) && AcceptsAll(userfunc)
    ensures var (o, calls) := Received(AsRecvs(Greedy(Plain(msg) + Trailer(fd))), userfunc);
      if (|msg| + 1) % MAXLINE == 0 then o == Dumped else o == Expected(fd) && Join(calls) == msg
  {
    hide Greedy, Received, LastLength, Join, Expected;
    var wire := Plain(msg) + Trailer(fd);
    GreedyLast(wire);
    GreedyCuts(wire);
    var chunks := Greedy(wire);
    RoundTrip(msg, fd, chunks, userfunc);
    LastLengthShort(|msg|);
  }

  lemma LastLengthShort(m: nat)
    ensures LastLength(m + 2) >= 2 <==> (m + 1) % MAXLINE != 0
  {
  }
}
