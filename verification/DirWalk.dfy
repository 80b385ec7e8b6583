/** `myftw` and `dopath`: a recursive walk over one shared, reallocated path buffer. Every write is
    checked against the buffer's length by the verifier. */
module DirWalk {
  import opened DirTree
  import opened Options

  const NAME_MAX: nat := 255
  const NUL: char := '\0'

  /** What lstat and opendir/readdir answer for a path; the tree does not change during the walk. */
  datatype FileSystem = FileSystem(
    lstat: string -> Option<Option<Kind>>,        // None: fails; Some(None): a directory
    opendir: string -> Option<seq<string>>)       // None: fails; else the names, in readdir order

  predicate ValidName(name: string) { 0 < |name| <= NAME_MAX && NUL !in name }

  function Names(entries: seq<Entry>): (names: seq<string>)
    ensures |names| == |entries| && forall i :: 0 <= i < |entries| ==> names[i] == entries[i].name
  {
    seq(|entries|, i requires 0 <= i < |entries| => entries[i].name)
  }

  /** The file system answers as the tree `node` says, below `path`. */
  ghost predicate Shows(fs: FileSystem, node: Node, path: string) {
    match node
    case Unstatable => fs.lstat(path) == None
    case File(kind) => fs.lstat(path) == Some(Some(kind))
    case Closed => fs.lstat(path) == Some(None) && fs.opendir(path + "/") == None
    case Dir(entries) =>
      && fs.lstat(path) == Some(None)
      && fs.opendir(path + "/") == Some(Names(entries))
      && forall i :: 0 <= i < |entries| ==>
           ValidName(entries[i].name) &&
           (IsDot(entries[i].name) || Shows(fs, entries[i].node, path + "/" + entries[i].name))
  }

  lemma ShowsEntry(fs: FileSystem, node: Node, path: string, i: nat)
    requires node.Dir? && Shows(fs, node, path) && i < |node.entries|
    ensures ValidName(node.entries[i].name)
    ensures IsDot(node.entries[i].name) || Shows(fs, node.entries[i].node, path + "/" + node.entries[i].name)
  {
  }

  /** `buf` holds the C string `path`. */
  ghost predicate Holds(buf: array<char>, path: string)
    reads buf
  {
    |path| < buf.Length && Starts(buf, path) && buf[|path|] == NUL && NUL !in path
  }

  ghost predicate Starts(buf: array<char>, path: string)
    reads buf
  {
    |path| <= buf.Length && forall i :: 0 <= i < |path| ==> buf[i] == path[i]
  }

  /** How long the buffer is after the reallocation, for a path of length `n` in `len` characters. */
  function Reserved(n: nat, len: nat): nat {
    if n + NAME_MAX + 2 > len then 2 * len else len
  }

  /** The single doubling is enough for every path the buffer can hold if and only if the buffer has at
      least NAME_MAX + 1 characters (or none). */
  lemma OneDoublingSuffices(len: nat)
    ensures (forall n: nat :: n < len ==> n + NAME_MAX + 2 <= Reserved(n, len)) <==> len == 0 || len >= NAME_MAX + 1
  {
    if 0 < len < NAME_MAX + 1 {
      var n := len - 1;
      assert n + NAME_MAX + 2 > Reserved(n, len);
    }
  }

  /** The flag that lstat's answer for a path deserves. */
  predicate TrueFlag(fs: FileSystem, c: Call) {
    match c.flag
    case NS => fs.lstat(c.path) == None
    case F(kind) => fs.lstat(c.path) == Some(Some(kind))
    case D => fs.lstat(c.path) == Some(None)
    case DNR => fs.opendir(c.path) == None && c.path != "" && c.path[|c.path| - 1] == '/' &&
                fs.lstat(c.path[..|c.path| - 1]) == Some(None)
  }

  /** Every call of the walk names a place that is what the flag says. */
  lemma {:induction false} TruePaths(fs: FileSystem, node: Node, path: string)
    requires Shows(fs, node, path)
    ensures forall c :: c in PreOrder(node, path) ==> TrueFlag(fs, c)
    decreases node, 1
  {
    match node
    case Dir(entries) => TrueEntries(fs, node, path, 0);
    case Closed => assert (path + "/")[..|path + "/"| - 1] == path;
    case _ =>
  }

  lemma {:induction false} TrueEntries(fs: FileSystem, node: Node, path: string, i: nat)
    requires node.Dir? && Shows(fs, node, path) && i <= |node.entries|
    ensures forall c :: c in PreOrders(node.entries[i..], path) ==> TrueFlag(fs, c)
    decreases node, 0, |node.entries| - i
  {
    if i < |node.entries| {
      TrueEntries(fs, node, path, i + 1);
      assert node.entries[i..][1..] == node.entries[i + 1..];
      var e := node.entries[i];
      if !IsDot(e.name) { TruePaths(fs, e.node, path + "/" + e.name); }
    }
  }

  /** What the answer of lstat says about the calls to come. */
  lemma LstatSays(fs: FileSystem, node: Node, path: string, done: seq<Call>,
      func: seq<Call> -> int) returns (rest: seq<Call>)
    requires Shows(fs, node, path)
    ensures match fs.lstat(path)
      case None => Walked(PreOrder(node, path), done, func) == (done + [Call(path, NS)], func(done + [Call(path, NS)]))
      case Some(Some(kind)) =>
        Walked(PreOrder(node, path), done, func) == (done + [Call(path, F(kind))], func(done + [Call(path, F(kind))]))
      case Some(None) =>
        && Below(node, path, rest)
        && var now := done + [Call(path, D)];
        Walked(PreOrder(node, path), done, func) == if func(now) != 0 then (now, func(now)) else Walked(rest, now, func)
  {
    rest := PreOrder(node, path)[1..];
    if node.Dir? { assert rest == PreOrders(node.entries, path); }
  }

  /** The calls of a directory after its own. */
  ghost predicate Below(node: Node, path: string, rest: seq<Call>) {
    || (node.Closed? && rest == [Call(path + "/", DNR)])
    || (node.Dir? && rest == PreOrders(node.entries, path))
  }

  /** What the answer of opendir says about them. */
  lemma OpendirSays(fs: FileSystem, node: Node, path: string, rest: seq<Call>, done: seq<Call>, func: seq<Call> -> int)
    requires Shows(fs, node, path) && Below(node, path, rest)
    ensures match fs.opendir(path + "/")
      case None => var now := done + [Call(path + "/", DNR)]; Walked(rest, done, func) == (now, func(now))
      case Some(names) => node.Dir? && names == Names(node.entries) && rest == PreOrders(node.entries, path)
  {
  }

  class Walker {
    var fullpath: array<char>
    var tally: Tally
    var trace: seq<Call>
    const fs: FileSystem
    const func: seq<Call> -> int   // what the callback returns, given all its calls so far

    constructor (fs: FileSystem, func: seq<Call> -> int, size: nat)
      ensures this.fs == fs && this.func == func && trace == [] && tally == TallyOf([])
      ensures fresh(fullpath) && fullpath.Length == size
    {
      this.fs, this.func := fs, func;
      trace, tally := [], Tally(0, 0, 0, 0, 0, 0, 0);
      fullpath := new char[size];
    }

    /** The callback: myfunc's counters, and the value that steers the walk. */
    method Callback(ghost path: string, flag: Flag) returns (ret: int)
      requires Holds(fullpath, path) && tally == TallyOf(trace)
      modifies this`trace, this`tally
      ensures trace == old(trace) + [Call(path, flag)] && ret == func(trace) && tally == TallyOf(trace)
      ensures CountsCalls(old(tally), old(trace)) ==> CountsCalls(tally, trace)
    {
      hide TallyOf, CountsCalls;
      var n := Strlen(path);
      assert fullpath[..n] == path;
      var c := Call(fullpath[..n], flag);
      TallyMore(trace, c);
      if CountsCalls(tally, trace) { OneMoreCall(tally, trace, c); }
      trace := trace + [c];
      match flag {
        case F(kind) =>
          match kind {
            case Regular => tally := tally.(nreg := tally.nreg + 1);
            case Block => tally := tally.(nblk := tally.nblk + 1);
            case Character => tally := tally.(nchr := tally.nchr + 1);
            case Fifo => tally := tally.(nfifo := tally.nfifo + 1);
            case Link => tally := tally.(nslink := tally.nslink + 1);
            case Socket => tally := tally.(nsock := tally.nsock + 1);
          }
        case D => tally := tally.(ndir := tally.ndir + 1);
        case DNR =>
        case NS =>
      }
      ret := func(trace);
    }

    method Strlen(ghost path: string) returns (n: nat)
      requires Holds(fullpath, path)
      ensures n == |path|
    {
      n := 0;
      while fullpath[n] != NUL
        invariant n <= |path|
        decreases |path| - n
      {
        n := n + 1;
      }
    }

    /** strcpy(&fullpath[at], name): the string at `at`, its terminator, and nothing before. */
    method Strcpy(at: nat, name: string, ghost prefix: string)
      requires at + |name| + 1 <= fullpath.Length && NUL !in name
      requires at == |prefix| && Starts(fullpath, prefix) && NUL !in prefix
      modifies fullpath
      ensures Holds(fullpath, prefix + name)
    {
      var i := 0;
      while i < |name|
        invariant 0 <= i <= |name| && Starts(fullpath, prefix)
        invariant forall k :: 0 <= k < i ==> fullpath[at + k] == name[k]
      {
        fullpath[at + i] := name[i];
        i := i + 1;
      }
      fullpath[at + i] := NUL;
      forall k | 0 <= k < |prefix + name| ensures fullpath[k] == (prefix + name)[k] {
        if k >= at { assert fullpath[at + (k - at)] == name[k - at]; }
      }
    }

    /** The reallocation: one doubling always makes room for a slash, a name and the terminator. */
    method Reserve(n: nat, ghost path: string)
      requires n == |path| && Holds(fullpath, path) && fullpath.Length >= NAME_MAX + 1
      modifies this`fullpath
      ensures Holds(fullpath, path)
      ensures n + NAME_MAX + 2 <= fullpath.Length && fullpath.Length >= old(fullpath.Length)
      ensures fullpath == old(fullpath) || fresh(fullpath)
    {
      if n + NAME_MAX + 2 > fullpath.Length {
        var bigger := new char[2 * fullpath.Length];
        forall i | 0 <= i < fullpath.Length { bigger[i] := fullpath[i]; }
        fullpath := bigger;
      }
    }

    /** dopath: at the path now in the buffer, which is to be `path`, a place where the file system shows
        `node`. The calls made and the value returned are those of the pre-order walk; the buffer, moved
        or not, still starts with `path`. */
    method DoPath(ghost node: Node, ghost path: string) returns (ret: int)
      requires Shows(fs, node, path) && Holds(fullpath, path)
      requires fullpath.Length >= NAME_MAX + 1 && tally == TallyOf(trace)
      modifies this, fullpath
      ensures fullpath == old(fullpath) || fresh(fullpath)
      ensures fullpath.Length >= old(fullpath.Length) && Starts(fullpath, path)
      ensures (trace, ret) == Walked(PreOrder(node, path), old(trace), func)
      ensures tally == TallyOf(trace)
      decreases node, 2
    {
      var len := Strlen(path);
      assert fullpath[..len] == path;
      var st := fs.lstat(fullpath[..len]);
      ghost var rest := LstatSays(fs, node, path, trace, func);
      if st.None? {
        ret := Callback(path, NS);
      } else if st.value.Some? {
        ret := Callback(path, F(st.value.value));
      } else {
        ret := Callback(path, D);
        if ret == 0 { ret := Descend(node, path, rest); }
      }
    }

    /** dopath from the strlen on: append the slash, open the directory, walk it, cut the slash off. */
    method Descend(ghost node: Node, ghost path: string, ghost rest: seq<Call>) returns (ret: int)
      requires Shows(fs, node, path) && Holds(fullpath, path)
      requires Below(node, path, rest)
      requires fullpath.Length >= NAME_MAX + 1 && tally == TallyOf(trace)
      modifies this, fullpath
      ensures fullpath == old(fullpath) || fresh(fullpath)
      ensures fullpath.Length >= old(fullpath.Length) && Starts(fullpath, path)
      ensures (trace, ret) == Walked(rest, old(trace), func)
      ensures tally == TallyOf(trace)
      decreases node, 1
    {
      hide Shows, Below, Walked, PreOrders, TallyOf;
      OpendirSays(fs, node, path, rest, trace, func);
      var n := Strlen(path);
      Reserve(n, path);
      fullpath[n] := '/';
      n := n + 1;
      fullpath[n] := NUL;
      ghost var dir := path + "/";
      assert fullpath[..n] == dir;
      var names := fs.opendir(fullpath[..n]);
      if names.None? {
        ret := Callback(dir, DNR);
        return;
      }
      ret := ReadDir(names.value, n, node, path);
      fullpath[n - 1] := NUL;
    }

    /** One entry of a directory: skipped if it is a dot, else its name follows the prefix and is walked. */
    method VisitEntry(name: string, n: nat, ghost child: Node, ghost path: string) returns (ret: int)
      requires ValidName(name) && (IsDot(name) || Shows(fs, child, path + "/" + name))
      requires n == |path| + 1 && fullpath.Length >= n + NAME_MAX + 1 && Starts(fullpath, path + "/")
      requires NUL !in path && tally == TallyOf(trace)
      modifies this, fullpath
      ensures fullpath == old(fullpath) || fresh(fullpath)
      ensures fullpath.Length >= old(fullpath.Length) && Starts(fullpath, path + "/")
      ensures (trace, ret) == Walked(EntryCalls(Entry(name, child), path), old(trace), func)
      ensures tally == TallyOf(trace)
      decreases child, 3
    {
      ret := 0;
      if !IsDot(name) {
        Strcpy(n, name, path + "/");
        ret := DoPath(child, path + "/" + name);
      }
    }

    /** The readdir loop of dopath. */
    method ReadDir(names: seq<string>, n: nat, ghost node: Node, ghost path: string) returns (ret: int)
      requires node.Dir? && names == Names(node.entries) && Shows(fs, node, path)
      requires n == |path| + 1 && fullpath.Length >= n + NAME_MAX + 1 && Starts(fullpath, path + "/")
      requires NUL !in path && tally == TallyOf(trace)
      modifies this, fullpath
      ensures fullpath == old(fullpath) || fresh(fullpath)
      ensures fullpath.Length >= old(fullpath.Length) && Starts(fullpath, path + "/")
      ensures (trace, ret) == Walked(PreOrders(node.entries, path), old(trace), func)
      ensures tally == TallyOf(trace)
      decreases node, 0
    {
      hide Shows, PreOrders, Walked, TallyOf;
      ghost var entries, start := node.entries, trace;
      ret := 0;
      var i := 0;
      assert entries[..0] == [];
      NoEntries(path, start, func);
      while i < |names| && ret == 0
        invariant 0 <= i <= |names|
        invariant fullpath == old(fullpath) || fresh(fullpath)
        invariant fullpath.Length >= old(fullpath.Length) && Starts(fullpath, path + "/")
        invariant tally == TallyOf(trace)
        invariant (trace, ret) == Walked(PreOrders(entries[..i], path), start, func)
      {
        NextEntry(entries, i, path, start, func);
        ShowsEntry(fs, node, path, i);
        ret := VisitEntry(names[i], n, entries[i].node, path);
        i := i + 1;
      }
      EntriesDone(entries, i, path, start, func);
    }

    /** myftw: the buffer starts with `size` characters (what path_alloc gave), and grows to twice the
        length of a starting path that does not fit. */
    method Myftw(pathname: string, size: nat, ghost node: Node) returns (ret: int)
      requires NUL !in pathname && size >= NAME_MAX + 1 && Shows(fs, node, pathname)
      requires trace == [] && tally == TallyOf([])
      modifies this
      ensures (trace, ret) == Walked(PreOrder(node, pathname), [], func)
      ensures tally == TallyOf(trace) && CountsCalls(tally, trace)
      ensures ret == 0 ==> CountsNodes(tally, node) && Total(tally) == Statable(node)
    {
      hide CountsCalls, CountsNodes, TallyOf, PreOrder, Shows;
      fullpath := new char[if size <= |pathname| then 2 * |pathname| else size];
      assert Starts(fullpath, "");
      Strcpy(0, pathname, "");
      assert "" + pathname == pathname;
      ret := DoPath(node, pathname);
      ghost var m := WalkedIsPrefix(PreOrder(node, pathname), [], func);
      assert ret == 0 ==> trace == PreOrder(node, pathname);
      TallyCountsCalls(trace);
      EachCounter(node, pathname);
      CountersAddUp(node, pathname);
    }
  }
}
