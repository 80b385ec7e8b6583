/** The file tree a walk should see, and the calls it should make: the specification of `dopath`. */
module DirTree {
  datatype Kind = Regular | Block | Character | Fifo | Link | Socket
  /** A name in the file system: `lstat` fails, a file that is no directory, a directory that cannot be
      opened, or a directory with what readdir delivers, "." and ".." included. */
  datatype Node = Unstatable | File(kind: Kind) | Closed | Dir(entries: seq<Entry>)
  datatype Entry = Entry(name: string, node: Node)

  /** The `type` of a callback, with the file type that goes with FTW_F. */
  datatype Flag = F(kind: Kind) | D | DNR | NS
  datatype Call = Call(path: string, flag: Flag)

  predicate IsDot(name: string) { name == "." || name == ".." }

  /** The callbacks for `node` at `path`, in pre-order. */
  function PreOrder(node: Node, path: string): seq<Call> {
    match node
    case Unstatable => [Call(path, NS)]
    case File(kind) => [Call(path, F(kind))]
    case Closed => [Call(path, D), Call(path + "/", DNR)]
    case Dir(entries) => [Call(path, D)] + PreOrders(entries, path)
  }

  function PreOrders(entries: seq<Entry>, path: string): seq<Call> {
    if entries == [] then []
    else (if IsDot(entries[0].name) then [] else PreOrder(entries[0].node, path + "/" + entries[0].name))
         + PreOrders(entries[1..], path)
  }

  /** Making calls in order until one returns nonzero: all calls made so far, and the last value. `func`
      may depend on everything it has been called with. */
  function Walked(calls: seq<Call>, done: seq<Call>, func: seq<Call> -> int): (seq<Call>, int) {
    if calls == [] then (done, 0)
    else if func(done + [calls[0]]) != 0 then (done + [calls[0]], func(done + [calls[0]]))
    else Walked(calls[1..], done + [calls[0]], func)
  }

  /** The calls made are a prefix of the given ones, all of them exactly when nothing stopped the walk;
      it stops at the first call whose value is nonzero, and returns that value. */
  lemma {:induction false} WalkedIsPrefix(calls: seq<Call>, done: seq<Call>, func: seq<Call> -> int) returns (m: nat)
    ensures m <= |calls|
    ensures var (now, ret) := Walked(calls, done, func);
      && now == done + calls[..m]
      && (ret == 0 <==> m == |calls| && (m > 0 ==> func(now) == 0))
      && (ret != 0 ==> m > 0 && func(now) == ret)
    ensures forall k :: 0 < k < m ==> func(done + calls[..k]) == 0
  {
    if calls == [] {
      m := 0;
      assert done + calls[..0] == done;
    } else if func(done + [calls[0]]) != 0 {
      m := 1;
      assert calls[..1] == [calls[0]];
    } else {
      var d := done + [calls[0]];
      var l := WalkedIsPrefix(calls[1..], d, func);
      m := l + 1;
      PrefixStep(calls, done, m);
      forall k | 0 < k < m ensures func(done + calls[..k]) == 0 {
        PrefixStep(calls, done, k);
        if k == 1 { assert d + calls[1..][..0] == d; }
      }
      if l == 0 { assert d + calls[1..][..0] == d; }
    }
  }

  lemma PrefixStep(calls: seq<Call>, done: seq<Call>, k: nat)
    requires 0 < k <= |calls|
    ensures done + calls[..k] == (done + [calls[0]]) + calls[1..][..k - 1]
  {
  }

  lemma {:induction false} WalkedAppend(a: seq<Call>, b: seq<Call>, done: seq<Call>, func: seq<Call> -> int)
    ensures Walked(a + b, done, func) ==
      if Walked(a, done, func).1 != 0 then Walked(a, done, func) else Walked(b, Walked(a, done, func).0, func)
  {
    if a == [] {
      assert a + b == b;
    } else {
      WalkedAppend(a[1..], b, done + [a[0]], func);
      assert (a + b)[1..] == a[1..] + b;
    }
  }

  lemma {:induction false} PreOrdersAppend(a: seq<Entry>, b: seq<Entry>, path: string)
    ensures PreOrders(a + b, path) == PreOrders(a, path) + PreOrders(b, path)
  {
    if a == [] {
      assert a + b == b;
    } else {
      assert (a + b)[1..] == a[1..] + b;
      PreOrdersAppend(a[1..], b, path);
    }
  }

  function EntryCalls(e: Entry, path: string): seq<Call> {
    if IsDot(e.name) then [] else PreOrder(e.node, path + "/" + e.name)
  }

  /** An entry of a directory is walked unless it is the directory itself or its parent. */
  lemma WalkedUnlessDot(e: Entry, path: string)
    ensures EntryCalls(e, path) == [] <==> e.name == "." || e.name == ".."
    ensures EntryCalls(e, path) != [] ==> EntryCalls(e, path)[0].path == path + "/" + e.name
  {
  }

  /** A directory as readdir delivers it, with a file and an empty directory in it. */
  lemma SmallWalk()
    ensures
      var empty := Dir([Entry(".", Unstatable), Entry("..", Unstatable)]);
      var top := Dir([Entry(".", Unstatable), Entry("..", Unstatable), Entry("a", File(Regular)), Entry("b", empty)]);
      PreOrder(top, "t") == [Call("t", D), Call("t/a", F(Regular)), Call("t/b", D)]
  {
    var dots := [Entry(".", Unstatable), Entry("..", Unstatable)];
    var a, b := [Entry("a", File(Regular))], [Entry("b", Dir(dots))];
    assert dots[1..] == [dots[1]] && dots[1..][1..] == [] && a[1..] == [] && b[1..] == [];
    assert "t" + "/" + "a" == "t/a" && "t" + "/" + "b" == "t/b";
    PreOrdersAppend(dots, a, "t");
    PreOrdersAppend(dots + a, b, "t");
    assert dots + a + b == [dots[0], dots[1], a[0], b[0]];
  }

  lemma NoEntries(path: string, done: seq<Call>, func: seq<Call> -> int)
    ensures Walked(PreOrders([], path), done, func) == (done, 0)
  {
  }

  /** One entry further in the readdir loop. */
  lemma NextEntry(entries: seq<Entry>, i: nat, path: string, done: seq<Call>, func: seq<Call> -> int)
    requires i < |entries| && Walked(PreOrders(entries[..i], path), done, func).1 == 0
    ensures Walked(PreOrders(entries[..i + 1], path), done, func) ==
      Walked(EntryCalls(entries[i], path), Walked(PreOrders(entries[..i], path), done, func).0, func)
  {
    var one := [entries[i]];
    assert entries[..i + 1] == entries[..i] + one && one[1..] == [];
    PreOrdersAppend(entries[..i], one, path);
    assert PreOrders(one, path) == EntryCalls(entries[i], path) + [] == EntryCalls(entries[i], path);
    WalkedAppend(PreOrders(entries[..i], path), EntryCalls(entries[i], path), done, func);
  }

  /** The loop may stop early: what is left of the directory does not matter then. */
  lemma EntriesDone(entries: seq<Entry>, i: nat, path: string, done: seq<Call>, func: seq<Call> -> int)
    requires i <= |entries|
    requires i == |entries| || Walked(PreOrders(entries[..i], path), done, func).1 != 0
    ensures Walked(PreOrders(entries, path), done, func) == Walked(PreOrders(entries[..i], path), done, func)
  {
    if i == |entries| {
      assert entries[..i] == entries;
    } else {
      assert entries == entries[..i] + entries[i..];
      PreOrdersAppend(entries[..i], entries[i..], path);
      WalkedAppend(PreOrders(entries[..i], path), PreOrders(entries[i..], path), done, func);
    }
  }

  // ----- what the counters add up to

  datatype Tally = Tally(nreg: nat, ndir: nat, nblk: nat, nchr: nat, nfifo: nat, nslink: nat, nsock: nat)

  function Total(t: Tally): nat {
    t.nreg + t.ndir + t.nblk + t.nchr + t.nfifo + t.nslink + t.nsock
  }

  function Counted(t: Tally, c: Call): Tally {
    match c.flag
    case F(Regular) => t.(nreg := t.nreg + 1)
    case F(Block) => t.(nblk := t.nblk + 1)
    case F(Character) => t.(nchr := t.nchr + 1)
    case F(Fifo) => t.(nfifo := t.nfifo + 1)
    case F(Link) => t.(nslink := t.nslink + 1)
    case F(Socket) => t.(nsock := t.nsock + 1)
    case D => t.(ndir := t.ndir + 1)
    case DNR => t
    case NS => t
  }

  function TallyOf(calls: seq<Call>): Tally {
    if calls == [] then Tally(0, 0, 0, 0, 0, 0, 0)
    else Counted(TallyOf(calls[..|calls| - 1]), calls[|calls| - 1])
  }

  lemma TallyMore(calls: seq<Call>, c: Call)
    ensures TallyOf(calls + [c]) == Counted(TallyOf(calls), c)
  {
    assert (calls + [c])[..|calls + [c]| - 1] == calls;
  }

  /** The nodes of a tree, and those that lstat can see. */
  function Nodes(node: Node): nat {
    match node
    case Dir(entries) => 1 + NodesOf(entries)
    case _ => 1
  }

  function NodesOf(entries: seq<Entry>): nat {
    if entries == [] then 0
    else (if IsDot(entries[0].name) then 0 else Nodes(entries[0].node)) + NodesOf(entries[1..])
  }

  function Statable(node: Node): nat {
    match node
    case Unstatable => 0
    case Dir(entries) => 1 + StatableOf(entries)
    case _ => 1
  }

  function StatableOf(entries: seq<Entry>): nat {
    if entries == [] then 0
    else (if IsDot(entries[0].name) then 0 else Statable(entries[0].node)) + StatableOf(entries[1..])
  }

  function Visits(calls: seq<Call>): nat {
    if calls == [] then 0 else (if calls[0].flag == DNR then 0 else 1) + Visits(calls[1..])
  }

  function Hits(calls: seq<Call>): nat {
    if calls == [] then 0 else (if calls[0].flag == DNR || calls[0].flag == NS then 0 else 1) + Hits(calls[1..])
  }

  lemma {:induction false} VisitsAppend(a: seq<Call>, b: seq<Call>)
    ensures Visits(a + b) == Visits(a) + Visits(b) && Hits(a + b) == Hits(a) + Hits(b)
  {
    if a == [] {
      assert a + b == b;
    } else {
      assert (a + b)[1..] == a[1..] + b;
      VisitsAppend(a[1..], b);
    }
  }

  /** Each node is visited once; the extra call for an unreadable directory is the only other one. */
  lemma {:induction false} EachNodeOnce(node: Node, path: string)
    ensures Visits(PreOrder(node, path)) == Nodes(node)
    ensures Hits(PreOrder(node, path)) == Statable(node)
    decreases node, 1
  {
    match node
    case Dir(entries) =>
      EachEntryOnce(node, entries, path);
      VisitsAppend([Call(path, D)], PreOrders(entries, path));
      assert Visits([Call(path, D)]) == 1 && Hits([Call(path, D)]) == 1;
    case Closed =>
      VisitsAppend([Call(path, D)], [Call(path + "/", DNR)]);
      assert [Call(path, D)] + [Call(path + "/", DNR)] == PreOrder(node, path);
    case _ =>
  }

  lemma {:induction false} EachEntryOnce(node: Node, entries: seq<Entry>, path: string)
    requires node.Dir? && forall e :: e in entries ==> e in node.entries
    ensures Visits(PreOrders(entries, path)) == NodesOf(entries)
    ensures Hits(PreOrders(entries, path)) == StatableOf(entries)
    decreases node, 0, |entries|
  {
    if entries != [] {
      EachEntryOnce(node, entries[1..], path);
      if !IsDot(entries[0].name) {
        assert entries[0] in node.entries;
        EachNodeOnce(entries[0].node, path + "/" + entries[0].name);
        VisitsAppend(PreOrder(entries[0].node, path + "/" + entries[0].name), PreOrders(entries[1..], path));
      } else {
        assert [] + PreOrders(entries[1..], path) == PreOrders(entries[1..], path);
      }
    }
  }

  lemma CountedHit(t: Tally, c: Call)
    ensures Total(Counted(t, c)) == Total(t) + Hits([c])
  {
    assert [c][1..] == [];
  }

  lemma {:induction false} TallyHits(calls: seq<Call>)
    ensures Total(TallyOf(calls)) == Hits(calls)
    decreases |calls|
  {
    if calls != [] {
      hide Hits, Counted, Total;
      var init, last := calls[..|calls| - 1], calls[|calls| - 1];
      TallyHits(init);
      assert calls == init + [last];
      VisitsAppend(init, [last]);
      CountedHit(TallyOf(init), last);
    }
  }

  /** ntot: after a walk that nothing stopped, the counters add up to the nodes lstat could see. */
  lemma CountersAddUp(node: Node, path: string)
    ensures Total(TallyOf(PreOrder(node, path))) == Statable(node)
  {
    TallyHits(PreOrder(node, path));
    EachNodeOnce(node, path);
  }

  // ----- and what each of them counts

  /** The calls with this flag. */
  function Flagged(calls: seq<Call>, flag: Flag): nat {
    if calls == [] then 0 else (if calls[0].flag == flag then 1 else 0) + Flagged(calls[1..], flag)
  }

  lemma {:induction false} FlaggedAppend(a: seq<Call>, b: seq<Call>, flag: Flag)
    ensures Flagged(a + b, flag) == Flagged(a, flag) + Flagged(b, flag)
  {
    if a == [] {
      assert a + b == b;
    } else {
      assert (a + b)[1..] == a[1..] + b;
      FlaggedAppend(a[1..], b, flag);
    }
  }

  lemma FlaggedOne(c: Call, flag: Flag)
    ensures Flagged([c], flag) == if c.flag == flag then 1 else 0
  {
    assert [c][1..] == [];
  }

  /** Each counter is the number of calls for its kind of file, `ndir` that of FTW_D; FTW_DNR and FTW_NS
      are not counted. */
  ghost predicate CountsCalls(t: Tally, calls: seq<Call>) {
    && t.nreg == Flagged(calls, F(Regular))
    && t.ndir == Flagged(calls, D)
    && t.nblk == Flagged(calls, F(Block))
    && t.nchr == Flagged(calls, F(Character))
    && t.nfifo == Flagged(calls, F(Fifo))
    && t.nslink == Flagged(calls, F(Link))
    && t.nsock == Flagged(calls, F(Socket))
  }

  lemma OneMoreCall(t: Tally, calls: seq<Call>, c: Call)
    requires CountsCalls(t, calls)
    ensures CountsCalls(Counted(t, c), calls + [c])
  {
    hide Flagged;
    forall flag ensures Flagged(calls + [c], flag) == Flagged(calls, flag) + if c.flag == flag then 1 else 0 {
      FlaggedAppend(calls, [c], flag);
      FlaggedOne(c, flag);
    }
  }

  lemma {:induction false} TallyCountsCalls(calls: seq<Call>)
    ensures CountsCalls(TallyOf(calls), calls)
    decreases |calls|
  {
    hide CountsCalls, Counted;
    if calls == [] {
      assert CountsCalls(TallyOf(calls), calls) by { NoCalls(); }
    } else {
      var front, last := calls[..|calls| - 1], calls[|calls| - 1];
      TallyCountsCalls(front);
      OneMoreCall(TallyOf(front), front, last);
      assert front + [last] == calls;
    }
  }

  lemma NoCalls()
    ensures CountsCalls(TallyOf([]), [])
  {
  }

  /** The nodes of the tree that are files of this kind, and the directories, readable or not. */
  function Files(node: Node, kind: Kind): nat {
    match node
    case File(k) => if k == kind then 1 else 0
    case Dir(entries) => FilesOf(entries, kind)
    case _ => 0
  }

  function FilesOf(entries: seq<Entry>, kind: Kind): nat {
    if entries == [] then 0
    else (if IsDot(entries[0].name) then 0 else Files(entries[0].node, kind)) + FilesOf(entries[1..], kind)
  }

  function Directories(node: Node): nat {
    match node
    case Closed => 1
    case Dir(entries) => 1 + DirectoriesOf(entries)
    case _ => 0
  }

  function DirectoriesOf(entries: seq<Entry>): nat {
    if entries == [] then 0
    else (if IsDot(entries[0].name) then 0 else Directories(entries[0].node)) + DirectoriesOf(entries[1..])
  }

  lemma {:induction false} FlaggedNodes(node: Node, path: string, kind: Kind)
    ensures Flagged(PreOrder(node, path), F(kind)) == Files(node, kind)
    ensures Flagged(PreOrder(node, path), D) == Directories(node)
    decreases node, 1
  {
    match node
    case Dir(entries) =>
      FlaggedEntries(node, entries, path, kind);
      FlaggedAppend([Call(path, D)], PreOrders(entries, path), F(kind));
      FlaggedAppend([Call(path, D)], PreOrders(entries, path), D);
      FlaggedOne(Call(path, D), F(kind));
      FlaggedOne(Call(path, D), D);
    case Closed =>
      var first, last := Call(path, D), Call(path + "/", DNR);
      assert PreOrder(node, path) == [first] + [last];
      forall flag ensures Flagged([first] + [last], flag) == Flagged([first], flag) + Flagged([last], flag) {
        FlaggedAppend([first], [last], flag);
      }
      FlaggedOne(first, F(kind));
      FlaggedOne(last, F(kind));
      FlaggedOne(first, D);
      FlaggedOne(last, D);
    case File(k) => FlaggedOne(Call(path, F(k)), F(kind));
    case Unstatable =>
  }

  lemma {:induction false} FlaggedEntries(node: Node, entries: seq<Entry>, path: string, kind: Kind)
    requires node.Dir? && forall e :: e in entries ==> e in node.entries
    ensures Flagged(PreOrders(entries, path), F(kind)) == FilesOf(entries, kind)
    ensures Flagged(PreOrders(entries, path), D) == DirectoriesOf(entries)
    decreases node, 0, |entries|
  {
    hide PreOrder, Files, Directories;
    if entries != [] {
      var e := entries[0];
      FlaggedEntries(node, entries[1..], path, kind);
      if IsDot(e.name) {
        assert [] + PreOrders(entries[1..], path) == PreOrders(entries[1..], path);
      } else {
        assert e in node.entries;
        FlaggedNodes(e.node, path + "/" + e.name, kind);
        FlaggedAppend(PreOrder(e.node, path + "/" + e.name), PreOrders(entries[1..], path), F(kind));
        FlaggedAppend(PreOrder(e.node, path + "/" + e.name), PreOrders(entries[1..], path), D);
      }
    }
  }

  /** After a walk that nothing stopped each counter is the number of nodes of its own kind. */
  ghost predicate CountsNodes(t: Tally, node: Node) {
    && t.nreg == Files(node, Regular)
    && t.ndir == Directories(node)
    && t.nblk == Files(node, Block)
    && t.nchr == Files(node, Character)
    && t.nfifo == Files(node, Fifo)
    && t.nslink == Files(node, Link)
    && t.nsock == Files(node, Socket)
  }

  lemma EachCounter(node: Node, path: string)
    ensures CountsNodes(TallyOf(PreOrder(node, path)), node)
  {
    hide TallyOf, PreOrder, Flagged, Files, Directories;
    TallyCountsCalls(PreOrder(node, path));
    forall kind ensures Flagged(PreOrder(node, path), F(kind)) == Files(node, kind) {
      FlaggedNodes(node, path, kind);
    }
    FlaggedNodes(node, path, Regular);
  }
}
