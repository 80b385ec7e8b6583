/** traceroute's probes and the acceptance of replies: the reply must quote the destination port of the
    probe just sent. Replies may be delayed, reordered and duplicated. */
module Traceroute {
  import opened Bytes
  import opened Options
  import opened Sums

  const PACKET: nat := 512            // the receive buffer, which keeps old bytes behind the new ones
  type Packet = s: seq<byte> | |s| == PACKET witness seq(PACKET, i => 0)
  const ICMP_MINLEN: nat := 8
  const ICMP_UNREACH: nat := 3
  const ICMP_TIMXCEED: nat := 11
  const ICMP_TIMXCEED_INTRANS: nat := 0
  const ICMP_UNREACH_NET: nat := 0
  const ICMP_UNREACH_HOST: nat := 1
  const ICMP_UNREACH_PROTOCOL: nat := 2
  const ICMP_UNREACH_PORT: nat := 3
  const ICMP_UNREACH_NEEDFRAG: nat := 4
  const ICMP_UNREACH_SRCFAIL: nat := 5
  const IPPROTO_UDP: nat := 17
  const IP_HEADER: nat := 20
  const PORTS: nat := 0x1_0000

  /** htons: a number cut to 16 bits, high byte first. */
  function Htons(n: nat): (b: seq<byte>)
    ensures |b| == 2
  {
    [n / 256 % 256, n % 256]
  }

  /** The destination port of probe `q`, as it stands in the header. */
  function Dport(port: nat, q: nat): (b: seq<byte>)
    ensures |b| == 2
  {
    Htons(port + q)
  }

  lemma TwoDigits(n: nat)
    ensures n % PORTS == 256 * (Htons(n)[0] as int) + Htons(n)[1] as int
  {
  }

  lemma HtonsInjective(m: nat, n: nat)
    ensures Htons(m) == Htons(n) <==> m % PORTS == n % PORTS
  {
    TwoDigits(m);
    TwoDigits(n);
    assert Htons(m) == Htons(n) ==> Htons(m)[0] == Htons(n)[0] && Htons(m)[1] == Htons(n)[1];
  }

  /** send_probe: IP and UDP header of the probe, as they leave. Bytes that no one reads back are free. */
  function Probe(ident: nat, port: nat, seqno: nat, ttl: nat, free: nat -> byte): (p: seq<byte>)
    ensures |p| == IP_HEADER + 8
  {
    [0x45, free(1), free(2), free(3), free(4), free(5), 0, 0, ttl % 256, IPPROTO_UDP,
     free(10), free(11), free(12), free(13), free(14), free(15), free(16), free(17), free(18), free(19)]
    + Htons(ident) + Dport(port, seqno) + [free(24), free(25), 0, 0]
  }

  /** The header read back: version 4, five words, no fragment, the ttl, UDP, and the two ports. */
  lemma ProbeHeader(ident: nat, port: nat, seqno: nat, ttl: nat, free: nat -> byte)
    ensures var p := Probe(ident, port, seqno, ttl, free);
      && p[0] / 16 == 4 && p[0] % 16 == 5
      && p[6] == p[7] == 0 && p[8] == ttl % 256 && p[9] == 17
      && 256 * (p[20] as int) + p[21] as int == ident % 0x1_0000
      && 256 * (p[22] as int) + p[23] as int == (port + seqno) % 0x1_0000
      && p[26] == p[27] == 0
  {
    TwoDigits(ident);
    TwoDigits(port + seqno);
  }

  function HeaderLength(b: byte): nat { 4 * (b % 16) }

  /** packet_ok, on the whole receive buffer of which `cc` bytes are new; -1 stands for a failed recvfrom. */
  method PacketOk(buf: Packet, cc: int, ident: nat, port: nat, seqno: nat) returns (r: int)
    ensures r == Verdict(buf, cc, Htons(ident), Dport(port, seqno))
  {
    var hlen := HeaderLength(buf[0]);
    if cc < hlen + ICMP_MINLEN { return 0; }
    var left := cc - hlen;
    var kind, code := buf[hlen], buf[hlen + 1];
    if (kind == ICMP_TIMXCEED && code == ICMP_TIMXCEED_INTRANS) || kind == ICMP_UNREACH {
      var hip := hlen + 8;
      var hlen2 := HeaderLength(buf[hip]);
      var up := hip + hlen2;
      if hlen2 + 12 <= left && buf[hip + 9] == IPPROTO_UDP && buf[up..up + 2] == Htons(ident) &&
         buf[up + 2..up + 4] == Dport(port, seqno) {
        return if kind == ICMP_TIMXCEED then -1 else (code as int) + 1;
      }
    }
    return 0;
  }

  /** The ports of the UDP datagram that an ICMP error quotes, when it is long enough to show them. */
  function Quote(buf: Packet, cc: int): Option<(seq<byte>, seq<byte>)>
  {
    var hip := HeaderLength(buf[0]) + 8;
    var up := hip + HeaderLength(buf[hip]);
    if cc >= up + 4 && buf[hip + 9] == IPPROTO_UDP then Some((buf[up..up + 2], buf[up + 2..up + 4])) else None
  }

  /** The kind of error: -1 for "time exceeded in transit", code + 1 for "unreachable", 0 for the rest. */
  function ErrorKind(buf: Packet): int
  {
    var hlen := HeaderLength(buf[0]);
    if buf[hlen] == ICMP_TIMXCEED && buf[hlen + 1] == ICMP_TIMXCEED_INTRANS then -1
    else if buf[hlen] == ICMP_UNREACH then (buf[hlen + 1] as int) + 1
    else 0
  }

  function Verdict(buf: Packet, cc: int, sport: seq<byte>, dport: seq<byte>): int
  {
    if Quote(buf, cc) == Some((sport, dport)) then ErrorKind(buf) else 0
  }

  // ----- a router's answer

  /** An ICMP error message: the router's IP header, type and code, and the quoted beginning of the
      datagram, in which the router has changed the time to live and the checksum. */
  predicate Answers(buf: Packet, cc: int, kind: byte, code: byte, probe: seq<byte>)
    requires |probe| == IP_HEADER + 8
  {
    cc >= HeaderLength(buf[0]) + 8 + IP_HEADER + 8 && Begins(buf, kind, code, probe)
  }

  /** The receive buffer begins with such a message, however much of it has come with the last packet. */
  predicate Begins(buf: Packet, kind: byte, code: byte, probe: seq<byte>)
    requires |probe| == IP_HEADER + 8
  {
    var hlen := HeaderLength(buf[0]);
    && buf[hlen] == kind && buf[hlen + 1] == code
    && forall i :: 0 <= i < IP_HEADER + 8 && i != 8 && i != 10 && i != 11 ==> buf[hlen + 8 + i] == probe[i]
  }

  lemma AnswerQuotes(buf: Packet, cc: int, kind: byte, code: byte, ident: nat, port: nat, q: nat, ttl: nat,
      free: nat -> byte)
    requires Answers(buf, cc, kind, code, Probe(ident, port, q, ttl, free))
    ensures Quote(buf, cc) == Some((Htons(ident), Dport(port, q)))
  {
    var p := Probe(ident, port, q, ttl, free);
    var hip := HeaderLength(buf[0]) + 8;
    assert p[0] == 0x45 && p[9] == IPPROTO_UDP;
    assert buf[hip] == p[0] && buf[hip + 9] == p[9];
    assert p[20] == Htons(ident)[0] && p[21] == Htons(ident)[1];
    assert p[22] == Dport(port, q)[0] && p[23] == Dport(port, q)[1];
    assert buf[hip + 20..hip + 22] == Htons(ident) && buf[hip + 22..hip + 24] == Dport(port, q);
  }

  /** A packet that is cut off is accepted if and only if it still shows the two ports; what stands behind
      its end in the buffer, from an earlier packet, does not count. */
  lemma TruncatedAnswer(buf: Packet, cc: int, kind: byte, code: byte, ident: nat, port: nat, s: nat, ttl: nat,
      free: nat -> byte)
    requires Begins(buf, kind, code, Probe(ident, port, s, ttl, free))
    requires (kind == ICMP_TIMXCEED && code == ICMP_TIMXCEED_INTRANS) || kind == ICMP_UNREACH
    ensures Verdict(buf, cc, Htons(ident), Dport(port, s)) != 0 <==> cc >= HeaderLength(buf[0]) + 8 + 20 + 4
  {
    var whole := HeaderLength(buf[0]) + 8 + IP_HEADER + 8;
    hide Htons;
    AnswerQuotes(buf, whole, kind, code, ident, port, s, ttl, free);
    assert buf[HeaderLength(buf[0]) + 8] == Probe(ident, port, s, ttl, free)[0] == 0x45;
  }

  /** An error message about anything but a UDP datagram is not accepted. */
  lemma OtherProtocol(buf: Packet, cc: int, ident: nat, port: nat, s: nat)
    requires buf[HeaderLength(buf[0]) + 8 + 9] != 17
    ensures Verdict(buf, cc, Htons(ident), Dport(port, s)) == 0
  {
  }

  /** The answer to probe `q` is accepted while probe `s` is awaited exactly when the two have the same
      port, and then with the right kind. */
  lemma AnswerAccepted(buf: Packet, cc: int, kind: byte, code: byte, ident: nat, port: nat, q: nat, ttl: nat,
      free: nat -> byte, s: nat)
    requires Answers(buf, cc, kind, code, Probe(ident, port, q, ttl, free))
    requires (kind == ICMP_TIMXCEED && code == ICMP_TIMXCEED_INTRANS) || kind == ICMP_UNREACH
    ensures Verdict(buf, cc, Htons(ident), Dport(port, s)) ==
      if (port + q) % PORTS != (port + s) % PORTS then 0
      else if kind == ICMP_TIMXCEED then -1 else (code as int) + 1
  {
    AnswerQuotes(buf, cc, kind, code, ident, port, q, ttl, free);
    HtonsInjective(port + q, port + s);
  }

  // ----- a whole run

  /** A packet that arrives: where from, and, for the theorem only, which of our probes it answers. */
  datatype Arrival = Arrival(buf: Packet, cc: int, from: nat, origin: Option<nat>)

  /** The network delivers answers to probes already sent, any number of times and in any order, and
      other traffic, none of which quotes our source port (other users have other idents). */
  predicate Genuine(a: Arrival, ident: nat, port: nat, sent: nat) {
    && match a.origin
       case Some(q) =>
         1 <= q <= sent &&
         (Quote(a.buf, a.cc).None? || Quote(a.buf, a.cc).value == (Htons(ident), Dport(port, q)))
       case None => Quote(a.buf, a.cc).None? || Quote(a.buf, a.cc).value.0 != Htons(ident)
  }

  /** One accepted reply: on which line it was printed, for which probe, and its verdict. */
  datatype Reply = Reply(ttl: nat, probe: nat, a: Arrival, verdict: int)

  lemma NearPorts(port: nat, q: nat, s: nat)
    requires q <= s < q + PORTS && Dport(port, q) == Dport(port, s)
    ensures q == s
  {
    HtonsInjective(port + q, port + s);
    var d := s - q;
    assert (port + q + d) % PORTS == (port + q) % PORTS;
  }

  /** The destination ports of the first `total` probes are distinct if and only if there are at most
      65536 of them. */
  lemma PortsDistinct(port: nat, total: nat)
    ensures (forall q, s :: 1 <= q <= s <= total && Dport(port, q) == Dport(port, s) ==> q == s) <==> total <= PORTS
  {
    hide Htons;
    if total <= PORTS {
      forall q, s | 1 <= q <= s <= total && Dport(port, q) == Dport(port, s) ensures q == s {
        NearPorts(port, q, s);
      }
    } else {
      HtonsInjective(port + 1, port + (PORTS + 1));
      assert Dport(port, 1) == Dport(port, PORTS + 1);
    }
  }

  /** A reply accepted for probe `s` answers probe `s`. */
  lemma AcceptedIsCurrent(a: Arrival, ident: nat, port: nat, s: nat)
    requires Genuine(a, ident, port, s) && s <= PORTS
    requires Verdict(a.buf, a.cc, Htons(ident), Dport(port, s)) != 0
    ensures a.origin == Some(s)
  {
    NearPorts(port, a.origin.value, s);
  }

  /** With more than 65536 probes a stale reply can be taken for a fresh one. */
  lemma StaleReplyAccepted(buf: Packet, cc: int, ident: nat, port: nat, ttl: nat, free: nat -> byte, from: nat)
    requires Answers(buf, cc, ICMP_TIMXCEED, ICMP_TIMXCEED_INTRANS, Probe(ident, port, 1, ttl, free))
    ensures Genuine(Arrival(buf, cc, from, Some(1)), ident, port, PORTS + 1)
    ensures Verdict(buf, cc, Htons(ident), Dport(port, PORTS + 1)) == -1
  {
    hide Answers, Probe, Verdict, Quote, Dport, Htons;
    assert (port + 1) % PORTS == (port + (PORTS + 1)) % PORTS;
    AnswerQuotes(buf, cc, ICMP_TIMXCEED, ICMP_TIMXCEED_INTRANS, ident, port, 1, ttl, free);
    AnswerAccepted(buf, cc, ICMP_TIMXCEED, ICMP_TIMXCEED_INTRANS, ident, port, 1, ttl, free, PORTS + 1);
  }

  /** The switch on the verdict: port or protocol unreachable means the destination answered ... */
  predicate ReachesEnd(v: int) { v - 1 == 3 || v - 1 == 2 }

  /** ... and net, host, fragmentation and source-route failures that it cannot be reached. */
  predicate Unreachable(v: int) { v - 1 == 0 || v - 1 == 1 || v - 1 == 4 || v - 1 == 5 }

  // ----- what a run prints

  predicate Accepted(a: Arrival, ident: nat, port: nat, s: nat) {
    Verdict(a.buf, a.cc, Htons(ident), Dport(port, s)) != 0
  }

  /** The reply printed for probe `s`: the first accepted one of those that arrive, if any. */
  function ReplyTo(arrivals: seq<Arrival>, ident: nat, port: nat, ttl: nat, s: nat): seq<Reply> {
    if arrivals == [] then []
    else if Accepted(arrivals[0], ident, port, s) then
      [Reply(ttl, s, arrivals[0], Verdict(arrivals[0].buf, arrivals[0].cc, Htons(ident), Dport(port, s)))]
    else ReplyTo(arrivals[1..], ident, port, ttl, s)
  }

  /** The replies to the `n` probes after number `first`, all sent with `ttl`. */
  function Line(arrivals: nat -> seq<Arrival>, ident: nat, port: nat, ttl: nat, first: nat, n: nat): seq<Reply> {
    if n == 0 then []
    else Line(arrivals, ident, port, ttl, first, n - 1) + ReplyTo(arrivals(first + n), ident, port, ttl, first + n)
  }

  /** How many probes the first `ttl` lines take. */
  function Sent(ttl: nat, nprobes: nat): nat {
    if ttl == 0 then 0 else Sent(ttl - 1, nprobes) + nprobes
  }

  lemma {:induction false} SentIsProduct(ttl: nat, nprobes: nat)
    ensures Sent(ttl, nprobes) == ttl * nprobes
  {
    if ttl > 0 { SentIsProduct(ttl - 1, nprobes); }
  }

  lemma {:induction false} SentGrows(t: nat, ttl: nat, nprobes: nat)
    requires t <= ttl
    ensures Sent(t, nprobes) <= Sent(ttl, nprobes)
  {
    if t < ttl { SentGrows(t, ttl - 1, nprobes); }
  }

  function LineOf(arrivals: nat -> seq<Arrival>, ident: nat, port: nat, nprobes: nat, ttl: nat): seq<Reply>
    requires ttl >= 1
  { Line(arrivals, ident, port, ttl, Sent(ttl - 1, nprobes), nprobes) }

  /** Everything printed up to and including the line of `ttl`. */
  function Printed(arrivals: nat -> seq<Arrival>, ident: nat, port: nat, nprobes: nat, ttl: nat): seq<Reply> {
    if ttl == 0 then []
    else Printed(arrivals, ident, port, nprobes, ttl - 1) + LineOf(arrivals, ident, port, nprobes, ttl)
  }

  predicate Reached(r: Reply) { ReachesEnd(r.verdict) }

  predicate Refused(r: Reply) { Unreachable(r.verdict) }

  /** The line of `ttl` ends the run: the destination answered, or all but one probe found it unreachable. */
  ghost predicate Ends(arrivals: nat -> seq<Arrival>, ident: nat, port: nat, nprobes: nat, ttl: nat)
    requires ttl >= 1
  {
    var line := LineOf(arrivals, ident, port, nprobes, ttl);
    Count(line, Reached) > 0 || Count(line, Refused) >= nprobes - 1
  }

  /** The run goes on to the first line that ends it, or to the last ttl. */
  ghost predicate StopsAfter(arrivals: nat -> seq<Arrival>, ident: nat, port: nat, nprobes: nat, max_ttl: nat,
      last: nat) {
    && last <= max_ttl
    && (forall t :: 1 <= t < last ==> !Ends(arrivals, ident, port, nprobes, t))
    && (last < max_ttl ==> last > 0 && Ends(arrivals, ident, port, nprobes, last))
  }

  /** The wait loop. */
  method AwaitReply(arrivals: seq<Arrival>, ident: nat, port: nat, ttl: nat, s: nat) returns (r: seq<Reply>)
    ensures r == ReplyTo(arrivals, ident, port, ttl, s)
  {
    var i := 0;
    assert arrivals[0..] == arrivals;
    while i < |arrivals|
      invariant 0 <= i <= |arrivals|
      invariant ReplyTo(arrivals, ident, port, ttl, s) == ReplyTo(arrivals[i..], ident, port, ttl, s)
    {
      var v := PacketOk(arrivals[i].buf, arrivals[i].cc, ident, port, s);
      assert arrivals[i..][0] == arrivals[i] && arrivals[i..][1..] == arrivals[i + 1..];
      if v != 0 { return [Reply(ttl, s, arrivals[i], v)]; }
      i := i + 1;
    }
    return [];
  }

  lemma {:induction false} CountMore(line: seq<Reply>, r: Reply, f: Reply -> bool)
    ensures Count(line + [r], f) == Count(line, f) + if f(r) then 1 else 0
  {
    if line == [] {
      assert line + [r] == [r] && [r][1..] == [];
    } else {
      assert (line + [r])[1..] == line[1..] + [r];
      CountMore(line[1..], r, f);
    }
  }

  /** The inner loop: the probes of one line, with the two tallies of the switch. */
  method ProbeLine(ident: nat, port: nat, ttl: nat, first: nat, nprobes: nat, arrivals: nat -> seq<Arrival>,
      free: nat -> nat -> byte)
    returns (line: seq<Reply>, gotThere: nat, unreachable: nat, sent: seq<seq<byte>>)
    ensures line == Line(arrivals, ident, port, ttl, first, nprobes)
    ensures gotThere == Count(line, Reached)
    ensures unreachable == Count(line, Refused)
    ensures |sent| == nprobes
    ensures forall k :: 0 <= k < nprobes ==> sent[k] == Probe(ident, port, first + k + 1, ttl, free(first + k + 1))
  {
    hide ReplyTo, Probe;
    line, gotThere, unreachable, sent := [], 0, 0, [];
    var seqno := first;
    for probe := 0 to nprobes
      invariant seqno == first + probe && line == Line(arrivals, ident, port, ttl, first, probe)
      invariant gotThere == Count(line, Reached)
      invariant unreachable == Count(line, Refused)
      invariant |sent| == probe
      invariant forall k :: 0 <= k < probe ==> sent[k] == Probe(ident, port, first + k + 1, ttl, free(first + k + 1))
    {
      seqno := seqno + 1;
      sent := sent + [Probe(ident, port, seqno, ttl, free(seqno))];
      var reply := AwaitReply(arrivals(seqno), ident, port, ttl, seqno);
      OneReply(arrivals(seqno), ident, port, ttl, seqno);
      if reply == [] {
        assert line + reply == line;
      } else {
        assert reply == [reply[0]];
        CountMore(line, reply[0], Reached);
        CountMore(line, reply[0], Refused);
        var v := reply[0].verdict;
        if ReachesEnd(v) { gotThere := gotThere + 1; } else if Unreachable(v) { unreachable := unreachable + 1; }
      }
      line := line + reply;
    }
  }

  lemma {:induction false} OneReply(arrivals: seq<Arrival>, ident: nat, port: nat, ttl: nat, s: nat)
    ensures |ReplyTo(arrivals, ident, port, ttl, s)| <= 1
  {
    if arrivals != [] { OneReply(arrivals[1..], ident, port, ttl, s); }
  }

  /** Probe `s` is on the line of `ttl`. */
  predicate OnLine(s: nat, nprobes: nat, ttl: nat)
    requires ttl >= 1
  {
    Sent(ttl - 1, nprobes) < s <= Sent(ttl, nprobes)
  }

  /** The probes that go out, each on its line with the ttl of that line. */
  ghost predicate SentProbes(sent: seq<seq<byte>>, ident: nat, port: nat, nprobes: nat, last: nat,
      free: nat -> nat -> byte) {
    && |sent| == Sent(last, nprobes)
    && forall s: nat, ttl: nat :: 1 <= ttl <= last && OnLine(s, nprobes, ttl) ==>
         s <= |sent| && sent[s - 1] == Probe(ident, port, s, ttl, free(s))
  }

  lemma MoreSent(sent: seq<seq<byte>>, more: seq<seq<byte>>, ident: nat, port: nat, nprobes: nat, last: nat,
      free: nat -> nat -> byte)
    requires SentProbes(sent, ident, port, nprobes, last, free) && |more| == nprobes
    requires forall k :: 0 <= k < nprobes ==>
      more[k] == Probe(ident, port, |sent| + k + 1, last + 1, free(|sent| + k + 1))
    ensures SentProbes(sent + more, ident, port, nprobes, last + 1, free)
  {
    hide Probe;
    forall s: nat, ttl: nat | 1 <= ttl <= last + 1 && OnLine(s, nprobes, ttl)
      ensures s <= |sent + more| && (sent + more)[s - 1] == Probe(ident, port, s, ttl, free(s))
    {
      if ttl <= last {
        assert (sent + more)[s - 1] == sent[s - 1];
      } else {
        assert (sent + more)[s - 1] == more[s - 1 - |sent|];
      }
    }
  }

  /** The probe loop. `arrivals(s)` is what wait_for_reply delivers, in order, after probe number `s`
      until it times out. The lines come out one after the other until one of them ends the run. */
  method Trace(ident: nat, port: nat, max_ttl: nat, nprobes: nat, arrivals: nat -> seq<Arrival>,
      free: nat -> nat -> byte)
    returns (log: seq<Reply>, last: nat, sent: seq<seq<byte>>)
    ensures log == Printed(arrivals, ident, port, nprobes, last)
    ensures StopsAfter(arrivals, ident, port, nprobes, max_ttl, last)
    ensures SentProbes(sent, ident, port, nprobes, last, free)
  {
    hide Line, Probe, OnLine;
    log, last, sent := [], 0, [];
    var seqno := 0;
    while last < max_ttl
      invariant 0 <= last <= max_ttl && seqno == Sent(last, nprobes)
      invariant log == Printed(arrivals, ident, port, nprobes, last)
      invariant SentProbes(sent, ident, port, nprobes, last, free)
      invariant forall t :: 1 <= t <= last ==> !Ends(arrivals, ident, port, nprobes, t)
    {
      var line, gotThere, unreachable, probes := ProbeLine(ident, port, last + 1, seqno, nprobes, arrivals, free);
      MoreSent(sent, probes, ident, port, nprobes, last, free);
      sent := sent + probes;
      log, last, seqno := log + line, last + 1, seqno + nprobes;
      if gotThere > 0 || unreachable >= nprobes - 1 { return; }
    }
  }

  // ----- what the lines mean

  ghost predicate GoodReply(r: Reply, nprobes: nat, max_ttl: nat) {
    r.a.origin == Some(r.probe) && 1 <= r.ttl <= max_ttl && r.verdict != 0 &&
    Sent(r.ttl - 1, nprobes) < r.probe <= Sent(r.ttl, nprobes)
  }

  /** The network is genuine towards each of the first `total` probes. */
  ghost predicate GenuineRun(arrivals: nat -> seq<Arrival>, ident: nat, port: nat, total: nat) {
    forall s, i :: 1 <= s <= total && 0 <= i < |arrivals(s)| ==> Genuine(arrivals(s)[i], ident, port, s)
  }

  lemma {:induction false} ReplyIsCurrent(arrivals: seq<Arrival>, ident: nat, port: nat, ttl: nat, s: nat)
    requires s <= PORTS && forall i :: 0 <= i < |arrivals| ==> Genuine(arrivals[i], ident, port, s)
    ensures forall r :: r in ReplyTo(arrivals, ident, port, ttl, s) ==>
      r.ttl == ttl && r.probe == s && r.a.origin == Some(s) && r.verdict != 0
  {
    if arrivals != [] {
      if Accepted(arrivals[0], ident, port, s) {
        AcceptedIsCurrent(arrivals[0], ident, port, s);
      } else {
        ReplyIsCurrent(arrivals[1..], ident, port, ttl, s);
      }
    }
  }

  lemma {:induction false} LineIsGood(arrivals: nat -> seq<Arrival>, ident: nat, port: nat, ttl: nat, nprobes: nat,
      n: nat, max_ttl: nat)
    requires 1 <= ttl <= max_ttl && n <= nprobes && Sent(max_ttl, nprobes) <= PORTS
    requires GenuineRun(arrivals, ident, port, Sent(max_ttl, nprobes))
    ensures forall r :: r in Line(arrivals, ident, port, ttl, Sent(ttl - 1, nprobes), n) ==>
        GoodReply(r, nprobes, max_ttl)
  {
    hide ReplyTo, Genuine;
    if n > 0 {
      SentGrows(ttl, max_ttl, nprobes);
      LineIsGood(arrivals, ident, port, ttl, nprobes, n - 1, max_ttl);
      ReplyIsCurrent(arrivals(Sent(ttl - 1, nprobes) + n), ident, port, ttl, Sent(ttl - 1, nprobes) + n);
    }
  }

  /** Every reply on the line of a ttl answers a probe sent with that ttl, whatever the network delays,
      reorders or duplicates, provided there are at most 65536 probes in all. */
  lemma {:induction false} EveryLineIsTrue(arrivals: nat -> seq<Arrival>, ident: nat, port: nat, nprobes: nat,
      ttl: nat, max_ttl: nat)
    requires ttl <= max_ttl && max_ttl * nprobes <= PORTS && GenuineRun(arrivals, ident, port, max_ttl * nprobes)
    ensures forall r :: r in Printed(arrivals, ident, port, nprobes, ttl) ==> GoodReply(r, nprobes, max_ttl)
  {
    if ttl > 0 {
      SentIsProduct(max_ttl, nprobes);
      EveryLineIsTrue(arrivals, ident, port, nprobes, ttl - 1, max_ttl);
      LineIsGood(arrivals, ident, port, ttl, nprobes, nprobes, max_ttl);
    }
  }

  // ----- which messages end a run

  /** The packet is an ICMP message of this type and code. */
  predicate Says(buf: Packet, kind: nat, code: nat) {
    buf[HeaderLength(buf[0])] == kind && buf[HeaderLength(buf[0]) + 1] == code
  }

  /** The destination answered: nothing listens on the port, or not to the protocol. */
  predicate FromDestination(r: Reply) {
    Says(r.a.buf, ICMP_UNREACH, ICMP_UNREACH_PORT) || Says(r.a.buf, ICMP_UNREACH, ICMP_UNREACH_PROTOCOL)
  }

  /** A router gave up on the destination. */
  predicate GivenUp(r: Reply) {
    || Says(r.a.buf, ICMP_UNREACH, ICMP_UNREACH_NET) || Says(r.a.buf, ICMP_UNREACH, ICMP_UNREACH_HOST)
    || Says(r.a.buf, ICMP_UNREACH, ICMP_UNREACH_NEEDFRAG) || Says(r.a.buf, ICMP_UNREACH, ICMP_UNREACH_SRCFAIL)
  }

  /** The two tallies count by type and code of the packet. */
  lemma {:induction false} TalliesMean(arrivals: seq<Arrival>, ident: nat, port: nat, ttl: nat, s: nat)
    ensures forall r :: r in ReplyTo(arrivals, ident, port, ttl, s) ==>
      (Reached(r) <==> FromDestination(r)) && (Refused(r) <==> GivenUp(r)) && r.probe == s && r.ttl == ttl
  {
    hide Quote;
    if arrivals != [] && !Accepted(arrivals[0], ident, port, s) {
      TalliesMean(arrivals[1..], ident, port, ttl, s);
    }
  }

  /** So an answer to the probe awaited counts as one from the destination for the codes "port" and
      "protocol", as one that gives up for "net", "host", "fragmentation needed" and "source route failed",
      and as neither for any other code and for "time exceeded". */
  lemma AnswerCounts(a: Arrival, kind: byte, code: byte, ident: nat, port: nat, ttl: nat, free: nat -> byte, s: nat)
    requires Answers(a.buf, a.cc, kind, code, Probe(ident, port, s, ttl, free))
    requires (kind == ICMP_TIMXCEED && code == ICMP_TIMXCEED_INTRANS) || kind == ICMP_UNREACH
    ensures var line := ReplyTo([a], ident, port, ttl, s);
      && |line| == 1
      && (Reached(line[0]) <==> kind == ICMP_UNREACH && (code == 3 || code == 2))
      && (Refused(line[0]) <==> kind == ICMP_UNREACH && (code == 0 || code == 1 || code == 4 || code == 5))
  {
    hide Probe, Quote, Answers, Verdict;
    AnswerAccepted(a.buf, a.cc, kind, code, ident, port, s, ttl, free, s);
  }

  /** Every reply on a line is the reply to one of its probes, and every such reply is on it. */
  lemma {:induction false} LineHas(arrivals: nat -> seq<Arrival>, ident: nat, port: nat, ttl: nat, first: nat, n: nat)
    ensures forall r :: r in Line(arrivals, ident, port, ttl, first, n) ==>
      exists s: nat :: first < s <= first + n && r in ReplyTo(arrivals(s), ident, port, ttl, s)
    ensures forall s: nat, r :: first < s <= first + n && r in ReplyTo(arrivals(s), ident, port, ttl, s) ==>
      r in Line(arrivals, ident, port, ttl, first, n)
  {
    hide ReplyTo;
    if n > 0 { LineHas(arrivals, ident, port, ttl, first, n - 1); }
  }

  /** No reply but that to probe `only` gives up. */
  lemma {:induction false} OneGivesUp(
    arrivals: nat -> seq<Arrival>, ident: nat, port: nat, ttl: nat, first: nat, n: nat, only: nat)
    requires forall s: nat, r ::
      first < s <= first + n && s != only && r in ReplyTo(arrivals(s), ident, port, ttl, s) ==> !Refused(r)
    ensures Count(Line(arrivals, ident, port, ttl, first, n), Refused) <= if first < only <= first + n then 1 else 0
  {
    hide ReplyTo, Refused;
    if n > 0 {
      OneGivesUp(arrivals, ident, port, ttl, first, n - 1, only);
      var line, s := Line(arrivals, ident, port, ttl, first, n - 1), first + n;
      var reply := ReplyTo(arrivals(s), ident, port, ttl, s);
      OneReply(arrivals(s), ident, port, ttl, s);
      if reply == [] {
        assert line + reply == line;
      } else {
        assert reply == [reply[0]] && reply[0] in reply;
        CountMore(line, reply[0], Refused);
      }
    }
  }

  /** The replies stand in the order of their probes, one each at most. */
  ghost predicate InProbeOrder(log: seq<Reply>) {
    forall i, j :: 0 <= i < j < |log| ==> log[i].probe < log[j].probe
  }

  lemma {:induction false} LineInOrder(arrivals: nat -> seq<Arrival>, ident: nat, port: nat, ttl: nat, first: nat,
      n: nat)
    ensures var line := Line(arrivals, ident, port, ttl, first, n);
      InProbeOrder(line) && forall r :: r in line ==> first < r.probe <= first + n && r.ttl == ttl
  {
    hide ReplyTo;
    if n > 0 {
      LineInOrder(arrivals, ident, port, ttl, first, n - 1);
      TalliesMean(arrivals(first + n), ident, port, ttl, first + n);
      OneReply(arrivals(first + n), ident, port, ttl, first + n);
      var line := Line(arrivals, ident, port, ttl, first, n - 1);
      forall i | 0 <= i < |line| ensures line[i].probe < first + n { assert line[i] in line; }
    }
  }

  /** So does everything a run prints. */
  lemma {:induction false} PrintedInOrder(arrivals: nat -> seq<Arrival>, ident: nat, port: nat, nprobes: nat, ttl: nat)
    ensures var log := Printed(arrivals, ident, port, nprobes, ttl);
      InProbeOrder(log) && forall r :: r in log ==> r.probe <= Sent(ttl, nprobes)
  {
    hide Line;
    if ttl > 0 {
      PrintedInOrder(arrivals, ident, port, nprobes, ttl - 1);
      LineInOrder(arrivals, ident, port, ttl, Sent(ttl - 1, nprobes), nprobes);
      var log, line := Printed(arrivals, ident, port, nprobes, ttl - 1), LineOf(arrivals, ident, port, nprobes, ttl);
      forall i, j | 0 <= i < |log| && 0 <= j < |line| ensures log[i].probe < line[j].probe {
        assert log[i] in log && line[j] in line;
      }
    }
  }

  lemma {:induction false} SameCount(line: seq<Reply>, f: Reply -> bool, g: Reply -> bool)
    requires forall r :: r in line ==> f(r) == g(r)
    ensures Count(line, f) == Count(line, g)
  {
    if line != [] {
      assert line[0] in line;
      SameCount(line[1..], f, g);
    }
  }

  /** A run stops behind a line exactly if it is the last one allowed, or the destination answered on it, or
      all its probes but one at most were given up on. */
  lemma RunStopsIff(arrivals: nat -> seq<Arrival>, ident: nat, port: nat, nprobes: nat, max_ttl: nat, last: nat,
      ttl: nat)
    requires StopsAfter(arrivals, ident, port, nprobes, max_ttl, last) && 1 <= ttl <= last
    ensures var line := LineOf(arrivals, ident, port, nprobes, ttl);
      last == ttl <==>
        ttl == max_ttl || (exists r :: r in line && FromDestination(r)) || Count(line, GivenUp) + 1 >= nprobes
  {
    hide ReplyTo, Reached, Refused, FromDestination, GivenUp;
    var line := LineOf(arrivals, ident, port, nprobes, ttl);
    LineHas(arrivals, ident, port, ttl, Sent(ttl - 1, nprobes), nprobes);
    forall r | r in line ensures (Reached(r) <==> FromDestination(r)) && (Refused(r) <==> GivenUp(r)) {
      var s: nat :| r in ReplyTo(arrivals(s), ident, port, ttl, s);
      TalliesMean(arrivals(s), ident, port, ttl, s);
    }
    SameCount(line, Refused, GivenUp);
    SomeReached(line);
    assert Ends(arrivals, ident, port, nprobes, ttl) <==>
      (exists r :: r in line && FromDestination(r)) || Count(line, GivenUp) + 1 >= nprobes;
  }

  lemma SomeReached(line: seq<Reply>)
    requires forall r :: r in line ==> (Reached(r) <==> FromDestination(r))
    ensures Count(line, Reached) > 0 <==> exists r :: r in line && FromDestination(r)
  {
    hide Reached, FromDestination;
    CountNone(line, Reached);
    if r :| r in line && FromDestination(r) {
      assert Reached(r);
    } else {
      forall i | 0 <= i < |line| ensures !Reached(line[i]) { assert line[i] in line; }
    }
  }

  /** The probe is answered by `a`, all that arrives before it being passed over. */
  ghost predicate AnsweredBy(arrivals: seq<Arrival>, a: Arrival, ident: nat, port: nat, s: nat) {
    exists i :: 0 <= i < |arrivals| && arrivals[i] == a && Accepted(a, ident, port, s) &&
      forall j :: 0 <= j < i ==> !Accepted(arrivals[j], ident, port, s)
  }

  lemma {:induction false} FirstAccepted(arrivals: seq<Arrival>, a: Arrival, ident: nat, port: nat, ttl: nat, s: nat)
    requires AnsweredBy(arrivals, a, ident, port, s)
    ensures ReplyTo(arrivals, ident, port, ttl, s) ==
      [Reply(ttl, s, a, Verdict(a.buf, a.cc, Htons(ident), Dport(port, s)))]
  {
    hide Verdict;
    var i :| 0 <= i < |arrivals| && arrivals[i] == a && Accepted(a, ident, port, s) &&
      forall j :: 0 <= j < i ==> !Accepted(arrivals[j], ident, port, s);
    if i > 0 {
      assert !Accepted(arrivals[0], ident, port, s);
      assert arrivals[1..][i - 1] == a;
      assert forall j :: 0 <= j < i - 1 ==> arrivals[1..][j] == arrivals[j + 1];
      assert AnsweredBy(arrivals[1..], a, ident, port, s);
      FirstAccepted(arrivals[1..], a, ident, port, ttl, s);
    }
  }

  /** One port-unreachable answer, or protocol-unreachable, and no further line is printed. */
  lemma DestinationEndsRun(
    arrivals: nat -> seq<Arrival>, ident: nat, port: nat, nprobes: nat, max_ttl: nat, last: nat, ttl: nat,
    s: nat, a: Arrival)
    requires StopsAfter(arrivals, ident, port, nprobes, max_ttl, last) && ttl >= 1 && OnLine(s, nprobes, ttl)
    requires AnsweredBy(arrivals(s), a, ident, port, s)
    requires Says(a.buf, ICMP_UNREACH, 3) || Says(a.buf, ICMP_UNREACH, 2)
    ensures last <= ttl
  {
    hide Verdict, ReplyTo, AnsweredBy, Accepted, Reached;
    var r := Reply(ttl, s, a, Verdict(a.buf, a.cc, Htons(ident), Dport(port, s)));
    FirstAccepted(arrivals(s), a, ident, port, ttl, s);
    TalliesMean(arrivals(s), ident, port, ttl, s);
    assert r in ReplyTo(arrivals(s), ident, port, ttl, s);
    LineHas(arrivals, ident, port, ttl, Sent(ttl - 1, nprobes), nprobes);
    var line := LineOf(arrivals, ident, port, nprobes, ttl);
    assert r in line && Reached(r);
    CountNone(line, Reached);
    assert Ends(arrivals, ident, port, nprobes, ttl);
  }

  /** A line on which the destination did not answer, and on which one probe at most was given up on, does not
      end the run: of two probes or more if none was, of three or more if one was. */
  lemma RunGoesOn(arrivals: nat -> seq<Arrival>, ident: nat, port: nat, nprobes: nat, max_ttl: nat, last: nat,
      ttl: nat, only: nat)
    requires StopsAfter(arrivals, ident, port, nprobes, max_ttl, last) && 1 <= ttl < max_ttl
    requires nprobes >= if OnLine(only, nprobes, ttl) then 3 else 2
    requires forall s: nat, i :: OnLine(s, nprobes, ttl) && 0 <= i < |arrivals(s)| ==>
      Accepted(arrivals(s)[i], ident, port, s) ==>
      || Says(arrivals(s)[i].buf, ICMP_TIMXCEED, ICMP_TIMXCEED_INTRANS)
      || (s == only && Says(arrivals(s)[i].buf, ICMP_UNREACH, 1))
    ensures last != ttl
  {
    hide Verdict, ReplyTo, Accepted, Reached, Refused;
    var first := Sent(ttl - 1, nprobes);
    forall s: nat, r | first < s <= first + nprobes && r in ReplyTo(arrivals(s), ident, port, ttl, s)
      ensures !Reached(r) && (s != only ==> !Refused(r))
    {
      assert OnLine(s, nprobes, ttl);
      TalliesMean(arrivals(s), ident, port, ttl, s);
      ReplyArrived(arrivals(s), ident, port, ttl, s);
    }
    LineHas(arrivals, ident, port, ttl, first, nprobes);
    OneGivesUp(arrivals, ident, port, ttl, first, nprobes, only);
    var line := LineOf(arrivals, ident, port, nprobes, ttl);
    forall i | 0 <= i < |line| ensures !Reached(line[i]) { assert line[i] in line; }
    CountNone(line, Reached);
    assert !Ends(arrivals, ident, port, nprobes, ttl);
  }

  lemma {:induction false} ReplyArrived(arrivals: seq<Arrival>, ident: nat, port: nat, ttl: nat, s: nat)
    ensures forall r :: r in ReplyTo(arrivals, ident, port, ttl, s) ==>
      exists i :: 0 <= i < |arrivals| && arrivals[i] == r.a && Accepted(r.a, ident, port, s)
  {
    hide Verdict;
    if arrivals != [] {
      if Accepted(arrivals[0], ident, port, s) {
        assert arrivals[0] == ReplyTo(arrivals, ident, port, ttl, s)[0].a;
      } else {
        ReplyArrived(arrivals[1..], ident, port, ttl, s);
        assert forall i :: 0 <= i < |arrivals[1..]| ==> arrivals[1..][i] == arrivals[i + 1];
      }
    }
  }

  // ----- and when they can lie

  /** With one probe a line, or none, the test "all but one unreachable" is met by an empty line: every run
      ends after the first ttl. */
  lemma SingleProbeStopsAtOnce(arrivals: nat -> seq<Arrival>, ident: nat, port: nat, nprobes: nat, max_ttl: nat,
      last: nat)
    requires nprobes <= 1 && max_ttl > 0
    ensures StopsAfter(arrivals, ident, port, nprobes, max_ttl, last) <==> last == 1
  {
    hide LineOf;
    assert Ends(arrivals, ident, port, nprobes, 1);
    if last > 1 { assert StopsAfter(arrivals, ident, port, nprobes, max_ttl, last) ==> false; }
  }

  /** A router's answer to probe `q`, as it comes in: the router's IP header, type and code, the probe. */
  function AnswerTo(ident: nat, port: nat, q: nat): Packet {
    Around(Probe(ident, port, q, 1, i => 0))
  }

  function Around(probe: seq<byte>): Packet
    requires |probe| == IP_HEADER + 8
  {
    seq(28, i => if i == 0 then 0x45 else if i == 20 then ICMP_TIMXCEED else 0) + probe + seq(PACKET - 56, i => 0)
  }

  lemma AnswerAnswers(ident: nat, port: nat, q: nat)
    ensures Answers(AnswerTo(ident, port, q), 56, ICMP_TIMXCEED, ICMP_TIMXCEED_INTRANS,
        Probe(ident, port, q, 1, i => 0))
  {
    hide Probe;
  }

  /** The network loses everything, except that the answer to the first probe arrives 65536 probes late. */
  function Late(ident: nat, port: nat): nat -> seq<Arrival> {
    (s: nat) => if s == PORTS + 1 then [Arrival(AnswerTo(ident, port, 1), 56, 0, Some(1))] else []
  }

  /** A reply printed for probe 65537 that answers the first. */
  predicate IsLate(r: Reply) { r.probe == PORTS + 1 && r.a.origin == Some(1) }

  lemma LateIsGenuine(ident: nat, port: nat, total: nat)
    ensures GenuineRun(Late(ident, port), ident, port, total)
    ensures var a := Late(ident, port)(PORTS + 1)[0];
      a.origin == Some(1) && Verdict(a.buf, a.cc, Htons(ident), Dport(port, PORTS + 1)) == -1
  {
    hide AnswerTo, Probe, Answers, Verdict, Dport, Htons;
    AnswerAnswers(ident, port, 1);
    StaleReplyAccepted(AnswerTo(ident, port, 1), 56, ident, port, 1, i => 0, 0);
  }

  lemma {:induction false} LateLine(ident: nat, port: nat, ttl: nat, first: nat, n: nat)
    ensures forall r :: r in Line(Late(ident, port), ident, port, ttl, first, n) ==> r.verdict == -1
    ensures first < PORTS + 1 <= first + n ==>
      exists r :: r in Line(Late(ident, port), ident, port, ttl, first, n) && IsLate(r)
  {
    hide Verdict;
    if n > 0 {
      LateLine(ident, port, ttl, first, n - 1);
      LateIsGenuine(ident, port, 0);
      LateReply(ident, port, ttl, first + n);
      var line := Line(Late(ident, port), ident, port, ttl, first, n - 1);
      var reply := ReplyTo(Late(ident, port)(first + n), ident, port, ttl, first + n);
      assert Line(Late(ident, port), ident, port, ttl, first, n) == line + reply;
      if first + n == PORTS + 1 {
        assert reply[0] in line + reply;
      }
    }
  }

  lemma LateReply(ident: nat, port: nat, ttl: nat, s: nat)
    ensures var reply := ReplyTo(Late(ident, port)(s), ident, port, ttl, s);
      if s == PORTS + 1 then |reply| == 1 && reply[0].verdict == -1 && IsLate(reply[0])
      else reply == []
  {
    hide Verdict, AnswerTo;
    LateIsGenuine(ident, port, 0);
  }

  lemma LateNeverEnds(ident: nat, port: nat, nprobes: nat, ttl: nat)
    requires nprobes >= 2 && ttl >= 1
    ensures !Ends(Late(ident, port), ident, port, nprobes, ttl)
  {
    hide Late;
    LateLine(ident, port, ttl, Sent(ttl - 1, nprobes), nprobes);
    CountNone(LineOf(Late(ident, port), ident, port, nprobes, ttl), Reached);
    CountNone(LineOf(Late(ident, port), ident, port, nprobes, ttl), Refused);
  }

  lemma {:induction false} LateIsPrinted(ident: nat, port: nat, nprobes: nat, ttl: nat)
    requires Sent(ttl, nprobes) >= PORTS + 1
    ensures exists r :: r in Printed(Late(ident, port), ident, port, nprobes, ttl) && IsLate(r)
  {
    hide Late, Line;
    var before := Printed(Late(ident, port), ident, port, nprobes, ttl - 1);
    var line := LineOf(Late(ident, port), ident, port, nprobes, ttl);
    if Sent(ttl - 1, nprobes) >= PORTS + 1 {
      LateIsPrinted(ident, port, nprobes, ttl - 1);
      assert forall r :: r in before ==> r in before + line;
    } else {
      LateLine(ident, port, ttl, Sent(ttl - 1, nprobes), nprobes);
      assert forall r :: r in line ==> r in before + line;
    }
  }

  /** Whatever a genuine network does, every line a run prints is true. */
  ghost predicate LinesAreTrue(ident: nat, port: nat, nprobes: nat, max_ttl: nat) {
    forall arrivals: nat -> seq<Arrival>, last: nat, r: Reply ::
      && GenuineRun(arrivals, ident, port, max_ttl * nprobes)
      && StopsAfter(arrivals, ident, port, nprobes, max_ttl, last)
      && r in Printed(arrivals, ident, port, nprobes, last)
      ==> GoodReply(r, nprobes, max_ttl)
  }

  /** That is so exactly if all probes together are at most 65536, or there is one probe a line at most. */
  lemma LinesAreTrueIff(ident: nat, port: nat, nprobes: nat, max_ttl: nat)
    ensures LinesAreTrue(ident, port, nprobes, max_ttl) <==> nprobes <= 1 || max_ttl * nprobes <= PORTS
  {
    hide Printed, StopsAfter, GenuineRun, GoodReply;
    if nprobes <= 1 || max_ttl * nprobes <= PORTS {
      forall arrivals: nat -> seq<Arrival>, last: nat, r: Reply |
        && GenuineRun(arrivals, ident, port, max_ttl * nprobes)
        && StopsAfter(arrivals, ident, port, nprobes, max_ttl, last)
        && r in Printed(arrivals, ident, port, nprobes, last)
        ensures GoodReply(r, nprobes, max_ttl)
      {
        PrintedIsTrue(arrivals, ident, port, nprobes, max_ttl, last, r);
      }
    } else {
      SentIsProduct(max_ttl, nprobes);
      LateIsPrinted(ident, port, nprobes, max_ttl);
      LateIsGenuine(ident, port, max_ttl * nprobes);
      LateGoesOn(ident, port, nprobes, max_ttl);
      var r :| r in Printed(Late(ident, port), ident, port, nprobes, max_ttl) && IsLate(r);
      assert !GoodReply(r, nprobes, max_ttl) by { NotGood(r, nprobes, max_ttl); }
    }
  }

  lemma NotGood(r: Reply, nprobes: nat, max_ttl: nat)
    requires r.a.origin != Some(r.probe)
    ensures !GoodReply(r, nprobes, max_ttl)
  {
  }

  lemma LateGoesOn(ident: nat, port: nat, nprobes: nat, max_ttl: nat)
    requires nprobes >= 2
    ensures StopsAfter(Late(ident, port), ident, port, nprobes, max_ttl, max_ttl)
  {
    hide Late, Ends;
    forall t | 1 <= t < max_ttl ensures !Ends(Late(ident, port), ident, port, nprobes, t) {
      LateNeverEnds(ident, port, nprobes, t);
    }
  }

  lemma PrintedIsTrue(
    arrivals: nat -> seq<Arrival>, ident: nat, port: nat, nprobes: nat, max_ttl: nat, last: nat, r: Reply)
    requires nprobes <= 1 || max_ttl * nprobes <= PORTS
    requires GenuineRun(arrivals, ident, port, max_ttl * nprobes)
    requires StopsAfter(arrivals, ident, port, nprobes, max_ttl, last)
    requires r in Printed(arrivals, ident, port, nprobes, last)
    ensures GoodReply(r, nprobes, max_ttl)
  {
    if max_ttl * nprobes <= PORTS {
      EveryLineIsTrue(arrivals, ident, port, nprobes, last, max_ttl);
    } else {
      SingleProbeStopsAtOnce(arrivals, ident, port, nprobes, max_ttl, last);
      EveryLineIsTrue(arrivals, ident, port, nprobes, 1, 1);
    }
  }
}
