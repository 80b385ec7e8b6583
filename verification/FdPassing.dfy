/** Passing a descriptor, or an error message and status, over a stream: `writen`, `send_err`, `send_fd`
    and `recv_fd`. */
module FdPassing {
  import opened Bytes
  import opened Options

  const MAXLINE: nat := 4096

  /** One byte of the stream; a descriptor sent along with a message travels with its first byte. */
  datatype Cell = Cell(b: byte, fd: Option<int>)

  function Plain(data: seq<byte>): (c: seq<Cell>)
    ensures |c| == |data| && forall i :: 0 <= i < |data| ==> c[i] == Cell(data[i], None)
  {
    seq(|data|, i requires 0 <= i < |data| => Cell(data[i], None))
  }

  function Octets(c: seq<Cell>): (data: seq<byte>)
    ensures |data| == |c| && forall i :: 0 <= i < |c| ==> data[i] == c[i].b
  {
    seq(|c|, i requires 0 <= i < |c| => c[i].b)
  }

  /** The status byte for an error: never 0, which would announce a descriptor. */
  function StatusByte(fd: int): (b: byte)
    requires fd < 0
    ensures b != 0
    ensures (-fd) % 256 != 0 ==> b == (-fd) % 256
    ensures (-fd) % 256 == 0 ==> b == 1
  {
    var b := (-fd) % 256;
    if b == 0 then 1 else b
  }

  function Trailer(fd: int): seq<Cell> {
    if fd < 0 then [Cell(0, None), Cell(StatusByte(fd), None)] else [Cell(0, Some(fd)), Cell(0, None)]
  }

  /** What send_err makes of an error code. */
  function Negative(errcode: int): (code: int)
    ensures code < 0
  { if errcode >= 0 then -1 else errcode }

  // ----- the sender

  lemma PlainMore(before: seq<Cell>, data: seq<byte>, i: nat, j: nat)
    requires i <= j <= |data|
    ensures (before + Plain(data[..i])) + Plain(data[i..j]) == before + Plain(data[..j])
  {
    assert Plain(data[..i]) + Plain(data[i..j]) == Plain(data[..j]);
  }

  class Socket {
    var wire: seq<Cell>

    constructor ()
      ensures wire == []
    {
      wire := [];
    }

    /** writen: `results(k)` is what the k-th write would return if offered any number of bytes. */
    method Writen(data: seq<byte>, results: nat -> int) returns (r: int)
      modifies this
      ensures -1 <= r <= |data|
      ensures wire == old(wire) + Plain(data[..if r < 0 then 0 else r])
      ensures (forall k: nat :: results(k) > 0) ==> r == |data|
      ensures r == -1 <==> |data| > 0 && results(0) < 0
    {
      var nleft, k: nat := |data|, 0;
      while nleft > 0
        invariant 0 <= nleft <= |data|
        invariant nleft == |data| <==> k == 0
        invariant k > 0 ==> results(0) > 0
        invariant wire == old(wire) + Plain(data[..|data| - nleft])
        decreases nleft
      {
        var nwritten := results(k);
        if nwritten < 0 {
          if nleft == |data| { return -1; }
          break;
        } else if nwritten == 0 {
          break;
        }
        if nwritten > nleft { nwritten := nleft; }
        var ptr := |data| - nleft;
        PlainMore(old(wire), data, ptr, ptr + nwritten);
        wire := wire + Plain(data[ptr..ptr + nwritten]);
        nleft := nleft - nwritten;
        k := k + 1;
      }
      return |data| - nleft;
    }

    /** send_fd. `memory`: malloc gives the control block; `sent`: what sendmsg returns, the number of
        bytes that go out or -1. */
    method SendFd(fdToSend: int, memory: bool, sent: int) returns (r: int)
      requires -1 <= sent <= 2
      modifies this
      ensures wire == old(wire) +
          if fdToSend >= 0 && !memory then [] else Trailer(fdToSend)[..if sent < 0 then 0 else sent]
      ensures r == if sent == 2 && (fdToSend < 0 || memory) then 0 else -1
    {
      var buf0: byte, buf1: byte, control: Option<int> := 0, 0, None;
      if fdToSend < 0 {
        buf1 := (-fdToSend) % 256;
        if buf1 == 0 { buf1 := 1; }
      } else {
        if !memory {
          assert wire + [] == wire;
          return -1;
        }
        control := Some(fdToSend);
        buf1 := 0;
      }
      var out := [Cell(buf0, control), Cell(buf1, None)];
      assert out == Trailer(fdToSend);
      wire := wire + out[..if sent < 0 then 0 else sent];
      if sent != 2 { return -1; }
      return 0;
    }

    /** send_err: the message, then a negative status. */
    method SendErr(errcode: int, msg: seq<byte>, results: nat -> int, sent: int) returns (r: int)
      requires -1 <= sent <= 2
      modifies this
      ensures r == 0 || r == -1
      ensures r == 0 ==> wire == old(wire) + Plain(msg) + Trailer(Negative(errcode))
      ensures sent == 2 && (forall k: nat :: results(k) > 0) ==> r == 0
      ensures sent != 2 ==> r == -1
      ensures r == -1 ==>
          exists m :: 0 <= m < |msg| + 2 && wire == old(wire) + (Plain(msg) + Trailer(Negative(errcode)))[..m]
    {
      ghost var all := Plain(msg) + Trailer(Negative(errcode));
      var n := |msg|;
      if n > 0 {
        var w := Writen(msg, results);
        if w != n {
          var m := if w < 0 then 0 else w;
          assert Plain(msg[..m]) == all[..m];
          return -1;
        }
      }
      assert msg[..n] == msg;
      assert wire == old(wire) + Plain(msg);
      var code := errcode;
      if code >= 0 { code := -1; }
      var f := SendFd(code, false, sent);
      ghost var k := if sent < 0 then 0 else sent;
      assert Plain(msg) + Trailer(code)[..k] == all[..n + k];
      assert (old(wire) + Plain(msg)) + Trailer(code)[..k] == old(wire) + (Plain(msg) + Trailer(code)[..k]);
      assert Trailer(code)[..2] == Trailer(code);
      return f;
    }
  }

  // ----- the receiver

  /** What one recvmsg gives: an error, or up to MAXLINE bytes; no bytes means the peer has closed. */
  datatype Recv = Error | Data(cells: seq<Cell>)

  datatype Outcome =
    | Descriptor(fd: int)
    | Status(value: int)      // negative
    | Failed                  // -1: receive error, end of file, or the callback refused
    | Dumped                  // err_dump: format error, or status 0 without a descriptor

  function Attached(cells: seq<Cell>): (fd: Option<int>) {
    if cells == [] then None else if cells[0].fd.Some? then cells[0].fd else Attached(cells[1..])
  }

  /** The position of the first null byte, or the length. */
  function FirstNull(data: seq<byte>): (z: nat)
    ensures z <= |data|
    ensures forall i :: 0 <= i < z ==> data[i] != 0
    ensures z < |data| ==> data[z] == 0
  {
    if data == [] || data[0] == 0 then 0 else 1 + FirstNull(data[1..])
  }

  datatype Parsed = More | Final(o: Outcome)

  /** What one chunk means: its message bytes, and whether it ends the exchange. */
  function ParseChunk(cells: seq<Cell>): (Parsed, seq<byte>) {
    var data := Octets(cells);
    var z := FirstNull(data);
    if z == |data| then (More, data)
    else if z + 2 != |data| then (Final(Dumped), [])
    else if data[z + 1] != 0 then (Final(Status(-(data[z + 1] as int))), data[..z])
    else if Attached(cells).None? then (Final(Dumped), [])
    else (Final(Descriptor(Attached(cells).value)), data[..z])
  }

  /** A buffer without a null byte is message; one with a null byte ends the exchange, and is a format error
      unless the null is next to last and a status of 0 comes with a descriptor. */
  lemma WhatChunkMeans(cells: seq<Cell>)
    ensures ParseChunk(cells).0 == More <==> 0 !in Octets(cells)
    ensures ParseChunk(cells).0 == Final(Dumped) <==>
      0 in Octets(cells) &&
      !(|cells| >= 2 && cells[|cells| - 2].b == 0 && 0 !in Octets(cells)[..|cells| - 2] &&
        (cells[|cells| - 1].b != 0 || exists i :: 0 <= i < |cells| && cells[i].fd.Some?))
  {
    var data, z := Octets(cells), FirstNull(Octets(cells));
    SomeAttached(cells);
    if z < |data| {
      assert data[z] in data;
      if z + 2 != |data| && |data| >= 2 && data[|data| - 2] == 0 { assert data[z] in data[..|data| - 2]; }
    }
  }

  lemma {:induction false} SomeAttached(cells: seq<Cell>)
    ensures Attached(cells).Some? <==> exists i :: 0 <= i < |cells| && cells[i].fd.Some?
  {
    if cells != [] {
      SomeAttached(cells[1..]);
      if cells[0].fd.None? {
        if i :| 0 <= i < |cells| && cells[i].fd.Some? { assert cells[1..][i - 1].fd.Some?; }
      }
    }
  }

  /** recv_fd as a function of what arrives: the outcome, and the chunks handed to `userfunc`. */
  function Received(recvs: seq<Recv>, userfunc: seq<byte> -> int): (Outcome, seq<seq<byte>>) {
    if recvs == [] || recvs[0].Error? || recvs[0].cells == [] then (Failed, [])
    else
      var (parsed, msg) := ParseChunk(recvs[0].cells);
      if parsed == Final(Dumped) then (Dumped, [])
      else
        var calls := if msg == [] then [] else [msg];
        if msg != [] && userfunc(msg) != |msg| then (Failed, calls)
        else if parsed.Final? then (parsed.o, calls)
        else
          var (o, later) := Received(recvs[1..], userfunc);
          (o, calls + later)
  }

  /** The scan of one buffer, as recv_fd does it: `nr` shrinks when the trailer is found. */
  method ScanBuffer(cells: seq<Cell>) returns (parsed: Parsed, nr: nat)
    requires cells != []
    ensures parsed == ParseChunk(cells).0
    ensures parsed != Final(Dumped) ==> nr <= |cells| && Octets(cells)[..nr] == ParseChunk(cells).1
  {
    var buf := Octets(cells);
    nr := |cells|;
    parsed := More;
    var ptr: nat := 0;
    while ptr < nr
      invariant parsed == More ==> nr == |cells| && ptr <= nr && FirstNull(buf) >= ptr
      invariant parsed == More && ptr < nr && buf[ptr] != 0 ==> FirstNull(buf) >= ptr + 1
      invariant parsed != More ==> ptr >= nr && parsed == ParseChunk(cells).0 != Final(Dumped)
      invariant parsed != More ==> nr <= |cells| && buf[..nr] == ParseChunk(cells).1
      decreases |cells| - ptr
    {
      var c := buf[ptr];
      ptr := ptr + 1;
      if c == 0 {
        assert FirstNull(buf) == ptr - 1;
        if ptr != nr - 1 { return Final(Dumped), nr; }
        var status := buf[ptr];
        if status == 0 {
          var control := Attached(cells);
          if control.None? { return Final(Dumped), nr; }
          parsed := Final(Descriptor(control.value));
        } else {
          parsed := Final(Status(-(status as int)));
        }
        nr := nr - 2;
      }
    }
    if parsed == More { assert buf[..nr] == buf; }
  }

  /** The first `k` receives bring message bytes only, and the next one, if there is one, fails or is empty. */
  ghost predicate BreaksOffAfter(recvs: seq<Recv>, k: nat) {
    && k <= |recvs|
    && (forall i :: 0 <= i < k ==> recvs[i].Data? && recvs[i].cells != [] && 0 !in Octets(recvs[i].cells))
    && (k == |recvs| || recvs[k].Error? || recvs[k].cells == [])
  }

  /** For any callback: it is never given nothing; all but the last of what it was given it took in full; if it
      did not take the last, that is a failure, so a descriptor or a status comes only after it took
      everything. The only other failure is that the stream breaks off in front of the trailer. */
  ghost predicate CallbackDecides(recvs: seq<Recv>, userfunc: seq<byte> -> int, o: Outcome, calls: seq<seq<byte>>) {
    && (forall i :: 0 <= i < |calls| ==> calls[i] != [])
    && (forall i :: 0 <= i < |calls| - 1 ==> userfunc(calls[i]) == |calls[i]|)
    && if calls != [] && userfunc(calls[|calls| - 1]) != |calls[|calls| - 1]| then o == Failed
       else o == Failed ==> exists k: nat :: BreaksOffAfter(recvs, k)
  }

  lemma {:induction false} CallbackDecided(recvs: seq<Recv>, userfunc: seq<byte> -> int)
    ensures CallbackDecides(recvs, userfunc, Received(recvs, userfunc).0, Received(recvs, userfunc).1)
  {
    if recvs == [] || recvs[0].Error? || recvs[0].cells == [] {
      assert BreaksOffAfter(recvs, 0);
    } else {
      CallbackDecided(recvs[1..], userfunc);
      var (parsed, msg) := ParseChunk(recvs[0].cells);
      if parsed == More && userfunc(msg) == |msg| {
        var (o, later) := Received(recvs[1..], userfunc);
        assert Received(recvs, userfunc) == (o, [msg] + later);
        if k: nat :| BreaksOffAfter(recvs[1..], k) {
          forall i | 0 <= i < k + 1
            ensures recvs[i].Data? && recvs[i].cells != [] && 0 !in Octets(recvs[i].cells)
          {
            if i > 0 { assert recvs[i] == recvs[1..][i - 1]; }
          }
          assert BreaksOffAfter(recvs, k + 1);
        }
      }
    }
  }

  lemma StreamEnds(recvs: seq<Recv>, k: nat, userfunc: seq<byte> -> int)
    requires k == |recvs| || (k < |recvs| && (recvs[k].Error? || recvs[k].cells == []))
    ensures Received(recvs[k..], userfunc) == (Failed, [])
  {
  }

  /** One turn of the loop. */
  lemma Turn(recvs: seq<Recv>, k: nat, userfunc: seq<byte> -> int)
    requires k < |recvs| && recvs[k].Data? && recvs[k].cells != []
    ensures var (parsed, msg) := ParseChunk(recvs[k].cells);
      var (o, calls) := Received(recvs[k..], userfunc);
      var given := if msg == [] then [] else [msg];
      if parsed == Final(Dumped) then o == Dumped && calls == []
      else if msg != [] && userfunc(msg) != |msg| then o == Failed && calls == given
      else if parsed.Final? then o == parsed.o && calls == given
      else o == Received(recvs[k + 1..], userfunc).0 && calls == given + Received(recvs[k + 1..], userfunc).1
  {
    assert recvs[k..][0] == recvs[k] && recvs[k..][1..] == recvs[k + 1..];
  }

  /** recv_fd. */
  method RecvFd(recvs: seq<Recv>, userfunc: seq<byte> -> int) returns (o: Outcome, calls: seq<seq<byte>>)
    ensures (o, calls) == Received(recvs, userfunc)
    ensures CallbackDecides(recvs, userfunc, o, calls)
  {
    hide CallbackDecides, Received, ParseChunk;
    CallbackDecided(recvs, userfunc);
    calls := [];
    var k := 0;
    assert recvs[0..] == recvs;
    while true
      invariant 0 <= k <= |recvs|
      invariant Received(recvs, userfunc).0 == Received(recvs[k..], userfunc).0
      invariant Received(recvs, userfunc).1 == calls + Received(recvs[k..], userfunc).1
      decreases |recvs| - k
    {
      if k == |recvs| || recvs[k].Error? || recvs[k].cells == [] {
        StreamEnds(recvs, k, userfunc);
        assert calls + [] == calls;
        return Failed, calls;
      }
      Turn(recvs, k, userfunc);
      var parsed, nr := ScanBuffer(recvs[k].cells);
      if parsed == Final(Dumped) {
        assert calls + [] == calls;
        return Dumped, calls;
      }
      if nr > 0 {
        var msg := Octets(recvs[k].cells)[..nr];
        calls := calls + [msg];
        if userfunc(msg) != nr { return Failed, calls; }
      } else {
        assert calls + [] == calls;
      }
      if parsed.Final? { return parsed.o, calls; }
      k := k + 1;
    }
  }
}
