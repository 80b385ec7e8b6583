/** The popen/pclose library: the `childpid` table, the parent's descriptors, and what each child has
    open when it executes its command. */
module Popen {
  import opened Options

  const STDIN: int := 0
  const STDOUT: int := 1

  /** An open file: one end of a pipe, or anything else. */
  datatype File = PipeEnd(pipe: nat, reading: bool) | OtherFile(id: int)
  type FdTable = map<int, File>

  /** How the system calls of one popen come out. */
  datatype Outcome = PipeFails | ForkFails | FdopenFails | Succeeds
  datatype WaitResult = Interrupted | Error | Exited(stat: int)

  /** The descriptor a child of this type talks to its parent through, and the end that belongs there. */
  function Target(reading: bool): int { if reading then STDOUT else STDIN }

  /** `table` holds exactly the open popen streams and their children. */
  ghost predicate TableIs(table: seq<int>, streams: map<int, int>) {
    && (forall fd :: fd in streams ==> 0 <= fd < |table| && table[fd] == streams[fd] > 0)
    && (forall fd :: 0 <= fd < |table| && fd !in streams ==> table[fd] == 0)
  }

  lemma NewStream(table: seq<int>, streams: map<int, int>, fd: int, pid: int)
    requires TableIs(table, streams) && 0 <= fd < |table| && pid > 0
    ensures TableIs(table[fd := pid], streams[fd := pid])
  {
  }

  // ----- the effect of the calls

  /** The parent's open descriptors, its popen streams with their children, the children it has not waited
      for yet, and the number of the next pipe. */
  datatype World = World(fds: FdTable, streams: map<int, int>, unwaited: set<int>, nextPipe: nat)

  /** One popen: its argument and what the system does with it. `pfd0`, `pfd1` are the descriptors given
      to the pipe, `pid` is the number of the child. */
  datatype Call = Call(mode: string, pfd0: int, pfd1: int, pid: int, outcome: Outcome)

  predicate ValidMode(mode: string) { mode == "r" || mode == "w" }

  function Mine(c: Call): int { if c.mode == "r" then c.pfd0 else c.pfd1 }

  predicate Forks(c: Call, maxfd: nat) {
    ValidMode(c.mode) && c.pfd0 < maxfd && c.pfd1 < maxfd && c.outcome != PipeFails && c.outcome != ForkFails
  }

  predicate Opens(c: Call, maxfd: nat) { Forks(c, maxfd) && c.outcome == Succeeds }

  /** The system gives out free descriptors and process numbers. */
  predicate Fair(w: World, c: Call) {
    0 <= c.pfd0 && 0 <= c.pfd1 && c.pfd0 != c.pfd1 && c.pfd0 !in w.fds && c.pfd1 !in w.fds && c.pid > 0 &&
        c.pid !in w.unwaited
  }

  /** The parent's descriptors with both ends of the new pipe, as the child inherits them. */
  function BothEnds(w: World, c: Call): FdTable {
    w.fds[c.pfd0 := PipeEnd(w.nextPipe, true)][c.pfd1 := PipeEnd(w.nextPipe, false)]
  }

  /** A popen that fails early changes nothing; a failing fork leaves both ends of the pipe open, a
      failing fdopen one end and a child; success adds the stream. */
  function AfterPopen(w: World, c: Call, maxfd: nat): World {
    if !ValidMode(c.mode) || c.outcome == PipeFails then w
    else if c.pfd0 >= maxfd || c.pfd1 >= maxfd then w.(nextPipe := w.nextPipe + 1)
    else if c.outcome == ForkFails then w.(fds := BothEnds(w, c), nextPipe := w.nextPipe + 1)
    else
      World(w.fds[Mine(c) := PipeEnd(w.nextPipe, c.mode == "r")],
            if c.outcome == Succeeds then w.streams[Mine(c) := c.pid] else w.streams,
            w.unwaited + {c.pid}, w.nextPipe + 1)
  }

  /** What waitpid says first that is not an interruption decides. */
  predicate Waited(flushed: bool, waits: seq<WaitResult>) {
    flushed && FirstNotInterrupted(waits) < |waits| && waits[FirstNotInterrupted(waits)].Exited?
  }

  function AfterPclose(w: World, fd: int, flushed: bool, waits: seq<WaitResult>): World {
    if fd !in w.streams then w else
    w.(fds := w.fds - {fd}, streams := w.streams - {fd},
       unwaited := if Waited(flushed, waits) then w.unwaited - {w.streams[fd]} else w.unwaited)
  }

  function FirstNotInterrupted(waits: seq<WaitResult>): nat {
    if waits == [] || waits[0] != Interrupted then 0 else 1 + FirstNotInterrupted(waits[1..])
  }

  lemma {:induction false} FirstIs(waits: seq<WaitResult>, k: nat)
    requires k <= |waits| && (forall j :: 0 <= j < k ==> waits[j] == Interrupted)
    requires k < |waits| ==> waits[k] != Interrupted
    ensures FirstNotInterrupted(waits) == k
  {
    if k > 0 {
      assert forall j :: 0 <= j < k - 1 ==> waits[1..][j] == waits[j + 1];
      FirstIs(waits[1..], k - 1);
    }
  }

  /** Streams are pipe ends with a child of their own that is still to be waited for. */
  ghost predicate Inv(w: World) {
    && (forall fd :: fd in w.streams ==> fd in w.fds && w.fds[fd].PipeEnd? && w.streams[fd] in w.unwaited)
    && (forall f, g :: f in w.streams && g in w.streams && f != g ==> w.streams[f] != w.streams[g])
    && (forall fd :: fd in w.fds && w.fds[fd].PipeEnd? ==> w.fds[fd].pipe < w.nextPipe)
  }

  lemma PopenKeepsInv(w: World, c: Call, maxfd: nat)
    requires Inv(w) && Fair(w, c)
    ensures Inv(AfterPopen(w, c, maxfd))
  {
  }

  lemma PcloseKeepsInv(w: World, fd: int, flushed: bool, waits: seq<WaitResult>)
    requires Inv(w)
    ensures Inv(AfterPclose(w, fd, flushed, waits))
  {
  }

  // ----- whole sessions

  datatype Request = Popen(c: Call) | Pclose(fd: int, flushed: bool, waits: seq<WaitResult>)

  function After(w: World, r: Request, maxfd: nat): World {
    match r
    case Popen(c) => AfterPopen(w, c, maxfd)
    case Pclose(fd, flushed, waits) => AfterPclose(w, fd, flushed, waits)
  }

  function Run(fds: FdTable, maxfd: nat, rs: seq<Request>): World
    decreases |rs|
  {
    if rs == [] then World(fds, map[], {}, 0) else After(Run(fds, maxfd, rs[..|rs| - 1]), rs[|rs| - 1], maxfd)
  }

  /** The system is fair at every popen; descriptors are not negative. */
  predicate FairRun(fds: FdTable, maxfd: nat, rs: seq<Request>)
    decreases |rs|
  {
    rs == [] ||
    (FairRun(fds, maxfd, rs[..|rs| - 1]) &&
     match rs[|rs| - 1]
     case Popen(c) => Fair(Run(fds, maxfd, rs[..|rs| - 1]), c)
     case Pclose(fd, _, _) => 0 <= fd)
  }

  ghost predicate NoPipes(fds: FdTable) { forall fd :: fd in fds ==> fds[fd].OtherFile? }

  lemma {:induction false} RunsKeepInv(fds: FdTable, maxfd: nat, rs: seq<Request>)
    requires NoPipes(fds) && FairRun(fds, maxfd, rs)
    ensures Inv(Run(fds, maxfd, rs))
    decreases |rs|
  {
    if rs != [] {
      var w := Run(fds, maxfd, rs[..|rs| - 1]);
      RunsKeepInv(fds, maxfd, rs[..|rs| - 1]);
      match rs[|rs| - 1]
      case Popen(c) => PopenKeepsInv(w, c, maxfd);
      case Pclose(fd, flushed, waits) => PcloseKeepsInv(w, fd, flushed, waits);
    }
  }

  /** The children forked in a session, and those a pclose has waited for, with multiplicity. */
  function Forked(maxfd: nat, rs: seq<Request>): multiset<int> {
    if rs == [] then multiset{} else
    Forked(maxfd, rs[..|rs| - 1]) +
    (if rs[|rs| - 1].Popen? && Forks(rs[|rs| - 1].c, maxfd) then multiset{rs[|rs| - 1].c.pid} else multiset{})
  }

  function ReapedBy(w: World, r: Request): multiset<int> {
    if r.Pclose? && r.fd in w.streams && Waited(r.flushed, r.waits) then multiset{w.streams[r.fd]} else multiset{}
  }

  function Reaped(fds: FdTable, maxfd: nat, rs: seq<Request>): multiset<int> {
    if rs == [] then multiset{} else
    Reaped(fds, maxfd, rs[..|rs| - 1]) + ReapedBy(Run(fds, maxfd, rs[..|rs| - 1]), rs[|rs| - 1])
  }

  lemma AddChild(unwaited: set<int>, pid: int, reaped: multiset<int>)
    requires pid !in unwaited
    ensures (reaped + multiset(unwaited)) + multiset{pid} == reaped + multiset(unwaited + {pid})
  {
    assert multiset(unwaited + {pid}) == multiset(unwaited) + multiset{pid};
  }

  lemma ReapChild(unwaited: set<int>, pid: int, reaped: multiset<int>)
    requires pid in unwaited
    ensures (reaped + multiset{pid}) + multiset(unwaited - {pid}) == reaped + multiset(unwaited)
  {
    assert multiset(unwaited) == multiset(unwaited - {pid}) + multiset{pid};
  }

  /** How one request moves a child from "forked" to "to be waited for" to "waited for". */
  lemma RequestMoves(w: World, r: Request, maxfd: nat, forked: multiset<int>, reaped: multiset<int>)
    requires Inv(w) && (r.Popen? ==> Fair(w, r.c)) && forked == reaped + multiset(w.unwaited)
    ensures var forked' := forked + if r.Popen? && Forks(r.c, maxfd) then multiset{r.c.pid} else multiset{};
      var reaped' := reaped + ReapedBy(w, r);
      forked' == reaped' + multiset(After(w, r, maxfd).unwaited)
  {
    hide FirstNotInterrupted, BothEnds;
    if r.Popen? && Forks(r.c, maxfd) {
      AddChild(w.unwaited, r.c.pid, reaped);
    } else if r.Pclose? && r.fd in w.streams && Waited(r.flushed, r.waits) {
      ReapChild(w.unwaited, w.streams[r.fd], reaped);
    } else {
      assert forked + multiset{} == forked && reaped + multiset{} == reaped;
    }
  }

  /** Conservation: the children forked are those waited for and those still to be waited for, so no
      child is waited for more often than it was forked. */
  lemma {:induction false} EachChildOnce(fds: FdTable, maxfd: nat, rs: seq<Request>)
    requires NoPipes(fds) && FairRun(fds, maxfd, rs)
    ensures Forked(maxfd, rs) == Reaped(fds, maxfd, rs) + multiset(Run(fds, maxfd, rs).unwaited)
    decreases |rs|
  {
    hide After, ReapedBy, Inv;
    if rs != [] {
      var front := rs[..|rs| - 1];
      EachChildOnce(fds, maxfd, front);
      RunsKeepInv(fds, maxfd, front);
      RequestMoves(Run(fds, maxfd, front), rs[|rs| - 1], maxfd, Forked(maxfd, front), Reaped(fds, maxfd, front));
    }
  }

  // ----- the child

  /** What POSIX asks of popen's child: its end of the new pipe on standard input or output and nowhere
      else, no stream of an earlier popen, everything else inherited. The first part holds exactly when
      that standard descriptor is not itself such a stream. */
  ghost predicate ChildIs(table: FdTable, c: Call, w: World) {
    var target, both := Target(c.mode == "r"), BothEnds(w, c);
    && (target in table && table[target] == PipeEnd(w.nextPipe, c.mode != "r") <==> target !in w.streams)
    && (forall fd :: fd in table && table[fd].PipeEnd? && table[fd].pipe == w.nextPipe ==> fd == target)
    && (forall fd :: fd in table && (fd == c.pfd0 || fd == c.pfd1) ==> fd == target)
    && (forall fd :: fd in w.streams ==> fd !in table)
    && (forall fd :: fd != c.pfd0 && fd != c.pfd1 && fd != target && fd !in w.streams ==>
          (fd in table <==> fd in both) && (fd in table ==> table[fd] == both[fd]))
  }

  /** Descriptor `fd` of the child is what the parent had there, unless that was an earlier popen stream. */
  ghost predicate Inherits(table: FdTable, w: World, fd: int) {
    if fd in w.fds && fd !in w.streams then fd in table && table[fd] == w.fds[fd] else fd !in table
  }

  /** In so many words: a child of "r" has the writing end of the new pipe as its standard output, one of
      "w" the reading end as its standard input, if and only if the parent had no popen stream there. Of the
      two, the other is the parent's. */
  ghost predicate ChildTalks(table: FdTable, mode: string, w: World) {
    && (mode == "r" ==>
          && (1 in table && table[1] == PipeEnd(w.nextPipe, false) <==> 1 !in w.streams)
          && Inherits(table, w, 0))
    && (mode == "w" ==>
          && (0 in table && table[0] == PipeEnd(w.nextPipe, true) <==> 0 !in w.streams)
          && Inherits(table, w, 1))
  }

  /** And the parent has the opposite end: the reading one of "r", the writing one of "w". */
  ghost predicate ParentTalks(fds: FdTable, fp: int, mode: string, pipe: nat) {
    fp in fds && (mode == "r" ==> fds[fp] == PipeEnd(pipe, true)) && (mode == "w" ==> fds[fp] == PipeEnd(pipe, false))
  }

  lemma ChildIsTalks(table: FdTable, c: Call, w: World)
    requires Inv(w) && Fair(w, c) && ChildIs(table, c, w)
    ensures ChildTalks(table, c.mode, w)
  {
  }

  /** The child between fork and exec: it keeps its end of the new pipe as stdin or stdout, closes the
      other, and closes every descriptor in `childpid`. */
  method ChildExec(inherited: FdTable, c: Call, childpid: array<int>, ghost w: World) returns (table: FdTable)
    requires Inv(w) && Fair(w, c) && inherited == BothEnds(w, c) && TableIs(childpid[..], w.streams)
    ensures ChildIs(table, c, w) && ChildTalks(table, c.mode, w)
  {
    hide ChildTalks;
    var mine, other := if c.mode == "r" then c.pfd1 else c.pfd0, Mine(c);
    var target := Target(c.mode == "r");
    table := inherited - {other};
    if mine != target {
      table := table[target := table[mine]];
      table := table - {mine};
    }
    ghost var start := table;
    var i := 0;
    while i < childpid.Length
      invariant 0 <= i <= childpid.Length
      invariant forall fd :: fd in table <==> fd in start && !(fd in w.streams && fd < i)
      invariant forall fd :: fd in table ==> table[fd] == start[fd]
    {
      if childpid[i] > 0 { table := table - {i}; }
      i := i + 1;
    }
    ChildIsTalks(table, c, w);
  }

  lemma OneEndLeft(w: World, c: Call)
    requires Fair(w, c)
    ensures BothEnds(w, c) - {if c.mode == "r" then c.pfd1 else c.pfd0} ==
        w.fds[Mine(c) := PipeEnd(w.nextPipe, c.mode == "r")]
  {
  }

  /** A parent that starts without a standard input, opens a stream to read, which gets descriptor 0, and then
      one to write: the second child is left without a standard input, and nobody reads that pipe. */
  lemma ChildLosesItsPipe()
    ensures
      var fds := map[1 := OtherFile(1), 2 := OtherFile(2)];
      var rs, c := [Popen(Call("r", 0, 3, 100, Succeeds))], Call("w", 4, 5, 101, Succeeds);
      && NoPipes(fds) && FairRun(fds, 10, rs + [Popen(c)]) && Opens(c, 10)
      && forall table :: ChildIs(table, c, Run(fds, 10, rs)) ==>
           STDIN !in table && forall fd :: fd in table ==> table[fd] != PipeEnd(1, true)
  {
    var fds := map[1 := OtherFile(1), 2 := OtherFile(2)];
    var first, c := Call("r", 0, 3, 100, Succeeds), Call("w", 4, 5, 101, Succeeds);
    var rs := [Popen(first)];
    assert rs[..0] == [] && Run(fds, 10, []) == World(fds, map[], {}, 0);
    assert Run(fds, 10, rs) == World(fds[0 := PipeEnd(0, true)], map[0 := 100], {100}, 1);
    assert (rs + [Popen(c)])[..1] == rs;
    assert FairRun(fds, 10, []);
    assert FairRun(fds, 10, rs);
  }

  /** What a popen leaves open in the parent: nothing but its stream, except that a failing fork leaves both
      ends of the pipe and a failing fdopen one. */
  lemma PopenLeaks(w: World, c: Call, maxfd: nat)
    requires Inv(w) && Fair(w, c)
    ensures var w' := AfterPopen(w, c, maxfd);
      var begun := (c.mode == "r" || c.mode == "w") && c.pfd0 < maxfd && c.pfd1 < maxfd && c.outcome != PipeFails;
      var own := if c.mode == "r" then c.pfd0 else c.pfd1;
      && (forall fd :: fd in w.fds ==> fd in w'.fds && w'.fds[fd] == w.fds[fd])
      && w'.fds.Keys - w.fds.Keys == (
           if !begun then {} else if c.outcome == ForkFails then {c.pfd0, c.pfd1} else {own})
      && (own in w'.streams <==> begun && c.outcome == Succeeds)
      && w'.streams.Keys - {own} == w.streams.Keys
  {
    assert c.pfd0 !in w.streams && c.pfd1 !in w.streams;
  }

  /** The waitpid number `k` reports the child, and all before it were interrupted. */
  ghost predicate ReportsAt(waits: seq<WaitResult>, k: int) {
    0 <= k < |waits| && waits[k].Exited? && forall j :: 0 <= j < k ==> waits[j] == Interrupted
  }

  /** What a pclose of a stream takes away: the stream and its descriptor in any case, and its child exactly
      if the stream could be flushed and waitpid, interrupted or not, came to report it. */
  lemma PcloseTakes(w: World, fd: int, flushed: bool, waits: seq<WaitResult>)
    requires Inv(w) && fd in w.streams
    ensures var w' := AfterPclose(w, fd, flushed, waits);
      && w'.fds == w.fds - {fd} && w'.streams == w.streams - {fd}
      && (w.streams[fd] !in w'.unwaited <==>
            flushed && exists k :: ReportsAt(waits, k))
      && w'.unwaited + {w.streams[fd]} == w.unwaited
  {
    if k :| ReportsAt(waits, k) {
      FirstIs(waits, k);
    } else {
      FirstBefore(waits);
      assert !ReportsAt(waits, FirstNotInterrupted(waits));
    }
  }

  lemma {:induction false} FirstBefore(waits: seq<WaitResult>)
    ensures FirstNotInterrupted(waits) <= |waits|
    ensures forall j :: 0 <= j < FirstNotInterrupted(waits) ==> waits[j] == Interrupted
  {
    if waits != [] { FirstBefore(waits[1..]); }
  }

  // ----- the program, with its table

  class Parent {
    var childpid: array?<int>
    const maxfd: nat                     // open_max()
    var fds: FdTable
    var unwaited: set<int>
    var nextPipe: nat
    ghost var streams: map<int, int>

    ghost function View(): World
      reads this
    {
      World(fds, streams, unwaited, nextPipe)
    }

    ghost predicate Valid()
      reads this, childpid
    {
      && Inv(View())
      && (childpid == null ==> streams == map[])
      && (childpid != null ==> childpid.Length == maxfd && TableIs(childpid[..], streams))
    }

    constructor (maxfd: nat, fds: FdTable)
      requires NoPipes(fds)
      ensures Valid() && View() == World(fds, map[], {}, 0) && this.maxfd == maxfd && childpid == null
    {
      this.maxfd, this.fds := maxfd, fds;
      childpid, unwaited, nextPipe, streams := null, {}, 0, map[];
    }

    /** popen: the descriptor of the stream, None for NULL, and what the child had open at its exec. */
    method Open(c: Call) returns (fp: Option<int>, child: Option<FdTable>)
      requires Valid() && Fair(View(), c)
      modifies this, childpid
      ensures Valid() && (childpid == old(childpid) || fresh(childpid))
      ensures View() == AfterPopen(old(View()), c, maxfd)
      ensures fp == if Opens(c, maxfd) then Some(Mine(c)) else None
      ensures child.Some? <==> Forks(c, maxfd)
      ensures child.Some? ==> ChildIs(child.value, c, old(View())) && ChildTalks(child.value, c.mode, old(View()))
      ensures fp.Some? ==> ParentTalks(fds, fp.value, c.mode, old(nextPipe))
    {
      fp, child := None, None;
      if |c.mode| != 1 || (c.mode[0] != 'r' && c.mode[0] != 'w') { return; }
      assert c.mode == [c.mode[0]];
      if childpid == null { childpid := new int[maxfd](i => 0); }
      if c.outcome == PipeFails { return; }
      if c.pfd0 >= maxfd || c.pfd1 >= maxfd {            // both ends are closed again: EMFILE
        nextPipe := nextPipe + 1;
        return;
      }
      fp, child := Fork(c);
    }

    /** popen from the fork on. */
    method Fork(c: Call) returns (fp: Option<int>, child: Option<FdTable>)
      requires Valid() && Fair(View(), c) && childpid != null
      requires ValidMode(c.mode) && c.pfd0 < maxfd && c.pfd1 < maxfd && c.outcome != PipeFails
      modifies this`fds, this`unwaited, this`nextPipe, this`streams, childpid
      ensures Valid() && View() == AfterPopen(old(View()), c, maxfd)
      ensures fp == if Opens(c, maxfd) then Some(Mine(c)) else None
      ensures child.Some? <==> Forks(c, maxfd)
      ensures child.Some? ==> ChildIs(child.value, c, old(View())) && ChildTalks(child.value, c.mode, old(View()))
      ensures fp.Some? ==> ParentTalks(fds, fp.value, c.mode, old(nextPipe))
    {
      hide ChildIs, ChildTalks, Inv, TableIs;
      ghost var w := View();
      PopenKeepsInv(w, c, maxfd);
      fp, child := None, None;
      fds := fds[c.pfd0 := PipeEnd(nextPipe, true)][c.pfd1 := PipeEnd(nextPipe, false)];
      nextPipe := nextPipe + 1;
      if c.outcome == ForkFails { return; }              // the two ends stay open
      unwaited := unwaited + {c.pid};
      var table := ChildExec(fds, c, childpid, w);
      child := Some(table);
      OneEndLeft(w, c);
      fds := fds - {if c.mode == "r" then c.pfd1 else c.pfd0};
      if c.outcome == FdopenFails { return; }
      NewStream(childpid[..], streams, Mine(c), c.pid);
      childpid[Mine(c)] := c.pid;
      assert childpid[..] == old(childpid[..])[Mine(c) := c.pid];
      streams := streams[Mine(c) := c.pid];
      fp := Some(Mine(c));
    }

    /** pclose on the stream at `fd`. `flushed`: fclose succeeds; `waits`: what waitpid says, call by call. */
    method Close(fd: int, flushed: bool, waits: seq<WaitResult>) returns (r: int)
      requires Valid() && 0 <= fd
      modifies this, childpid
      ensures Valid() && childpid == old(childpid)
      ensures View() == AfterPclose(old(View()), fd, flushed, waits)
      ensures r == if fd in old(streams) && Waited(flushed, waits) then waits[FirstNotInterrupted(waits)].stat else -1
    {
      PcloseKeepsInv(View(), fd, flushed, waits);
      if childpid == null || fd >= maxfd { return -1; }
      var pid := childpid[fd];
      if pid == 0 { return -1; }
      childpid[fd] := 0;
      streams := streams - {fd};
      fds := fds - {fd};
      if !flushed { return -1; }
      var k := 0;
      while k < |waits| && waits[k] == Interrupted
        invariant 0 <= k <= |waits| && forall j :: 0 <= j < k ==> waits[j] == Interrupted
      {
        k := k + 1;
      }
      FirstIs(waits, k);
      if k == |waits| || waits[k].Error? { return -1; }
      unwaited := unwaited - {pid};
      return waits[k].stat;
    }
  }

  /** Any sequence of calls: at the end the table holds exactly the streams of the run. */
  method Session(maxfd: nat, fds: FdTable, rs: seq<Request>) returns (p: Parent)
    requires NoPipes(fds) && FairRun(fds, maxfd, rs)
    ensures p.Valid() && p.View() == Run(fds, maxfd, rs)
  {
    p := new Parent(maxfd, fds);
    var i := 0;
    while i < |rs|
      invariant 0 <= i <= |rs| && p.Valid() && fresh(p) && (p.childpid == null || fresh(p.childpid))
      invariant p.maxfd == maxfd && p.View() == Run(fds, maxfd, rs[..i])
    {
      FairPrefix(fds, maxfd, rs, i + 1);
      assert rs[..i + 1][..i] == rs[..i];
      match rs[i] {
        case Popen(c) => var fp, child := p.Open(c);
        case Pclose(fd, flushed, waits) => var r := p.Close(fd, flushed, waits);
      }
      i := i + 1;
    }
    assert rs[..i] == rs;
  }

  lemma {:induction false} FairPrefix(fds: FdTable, maxfd: nat, rs: seq<Request>, i: nat)
    requires FairRun(fds, maxfd, rs) && i <= |rs|
    ensures FairRun(fds, maxfd, rs[..i])
    decreases |rs|
  {
    if i == |rs| {
      assert rs[..i] == rs;
    } else {
      FairPrefix(fds, maxfd, rs[..|rs| - 1], i);
      assert rs[..|rs| - 1][..i] == rs[..i];
    }
  }

  /** What a pclose gives back is the status of the child that the popen of that stream started. */
  lemma StreamKeepsChild(fds: FdTable, maxfd: nat, rs: seq<Request>, c: Call, rest: seq<Request>)
    requires NoPipes(fds) && FairRun(fds, maxfd, rs + [Popen(c)] + rest) && Opens(c, maxfd)
    requires forall r :: r in rest ==> !(r.Pclose? && r.fd == Mine(c))
    ensures var w := Run(fds, maxfd, rs + [Popen(c)] + rest);
      Mine(c) in w.streams && w.streams[Mine(c)] == c.pid
    decreases |rest|
  {
    var all := rs + [Popen(c)] + rest;
    if rest == [] {
      assert all[..|all| - 1] == rs;
    } else {
      var front := rest[..|rest| - 1];
      assert all[..|all| - 1] == rs + [Popen(c)] + front;
      StreamKeepsChild(fds, maxfd, rs, c, front);
      RunsKeepInv(fds, maxfd, rs + [Popen(c)] + front);
    }
  }
}
