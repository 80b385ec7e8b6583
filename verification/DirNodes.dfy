/** Which node each call of the walk is for. A node is addressed by the positions of the entries that
    lead to it. */
module DirNodes {
  import opened DirTree

  type Address = seq<nat>

  predicate IsNode(node: Node, a: Address) {
    a == [] ||
    (node.Dir? && a[0] < |node.entries| && !IsDot(node.entries[a[0]].name) && IsNode(node.entries[a[0]].node, a[1..]))
  }

  /** What the path of the addressed node adds to the path of `node`. */
  function Suffix(node: Node, a: Address): string {
    if a == [] || !node.Dir? || a[0] >= |node.entries| then ""
    else "/" + node.entries[a[0]].name + Suffix(node.entries[a[0]].node, a[1..])
  }

  /** Pre-order on addresses: a directory before what is in it, entries in the order of readdir. */
  predicate Precedes(a: Address, b: Address) {
    b != [] && (a == [] || a[0] < b[0] || (a[0] == b[0] && Precedes(a[1..], b[1..])))
  }

  function Under(k: nat, s: seq<Address>): (r: seq<Address>)
    ensures |r| == |s| && forall i :: 0 <= i < |s| ==> r[i] == [k] + s[i]
  {
    seq(|s|, i requires 0 <= i < |s| => [k] + s[i])
  }

  /** The addresses of the nodes, in the order in which the walk comes to them. */
  function Addresses(node: Node): seq<Address>
    decreases node, 1
  {
    if node.Dir? then [[]] + AddressesFrom(node, 0) else [[]]
  }

  function AddressesFrom(node: Node, k: nat): seq<Address>
    requires node.Dir? && k <= |node.entries|
    decreases node, 0, |node.entries| - k
  {
    if k == |node.entries| then []
    else
      var e := node.entries[k];
      (if IsDot(e.name) then [] else Under(k, Addresses(e.node))) + AddressesFrom(node, k + 1)
  }

  function Paths(node: Node, path: string, s: seq<Address>): (r: seq<string>)
    ensures |r| == |s| && forall i :: 0 <= i < |s| ==> r[i] == path + Suffix(node, s[i])
  {
    seq(|s|, i requires 0 <= i < |s| => path + Suffix(node, s[i]))
  }

  /** The paths of the calls that are not FTW_DNR. */
  function Visited(calls: seq<Call>): seq<string> {
    if calls == [] then []
    else (if calls[0].flag == DNR then [] else [calls[0].path]) + Visited(calls[1..])
  }

  lemma {:induction false} VisitedAppend(a: seq<Call>, b: seq<Call>)
    ensures Visited(a + b) == Visited(a) + Visited(b)
  {
    if a == [] {
      assert a + b == b;
    } else {
      assert (a + b)[1..] == a[1..] + b;
      VisitedAppend(a[1..], b);
    }
  }

  // ----- the calls are the nodes

  lemma OneVisited(c: Call)
    ensures Visited([c]) == if c.flag == DNR then [] else [c.path]
  {
    assert [c][1..] == [];
  }

  lemma RootPath(node: Node, path: string)
    ensures Paths(node, path, [[]]) == [path]
  {
    assert path + "" == path;
  }

  lemma {:induction false} VisitsAddresses(node: Node, path: string)
    ensures Visited(PreOrder(node, path)) == Paths(node, path, Addresses(node))
    decreases node, 1
  {
    hide Visited, Paths, PreOrders;
    RootPath(node, path);
    OneVisited(Call(path, D));
    match node
    case Dir(entries) =>
      EntriesVisited(node, path, 0);
      assert entries[0..] == entries;
      VisitedAppend([Call(path, D)], PreOrders(entries, path));
      PathsAppend(node, path, [[]], AddressesFrom(node, 0));
    case Closed =>
      VisitedAppend([Call(path, D)], [Call(path + "/", DNR)]);
      OneVisited(Call(path + "/", DNR));
      assert [Call(path, D)] + [Call(path + "/", DNR)] == PreOrder(node, path);
    case Unstatable => OneVisited(Call(path, NS));
    case File(kind) => OneVisited(Call(path, F(kind)));
  }

  lemma PathsAppend(node: Node, path: string, s: seq<Address>, t: seq<Address>)
    ensures Paths(node, path, s + t) == Paths(node, path, s) + Paths(node, path, t)
  {
  }

  /** The paths of what is in an entry, seen from the directory. */
  lemma EntryPaths(node: Node, path: string, k: nat, s: seq<Address>)
    requires node.Dir? && k < |node.entries|
    ensures Paths(node.entries[k].node, path + "/" + node.entries[k].name, s) == Paths(node, path, Under(k, s))
  {
    var e := node.entries[k];
    forall i | 0 <= i < |s| ensures path + "/" + e.name + Suffix(e.node, s[i]) == path + Suffix(node, [k] + s[i]) {
      assert ([k] + s[i])[1..] == s[i];
      assert path + "/" + e.name + Suffix(e.node, s[i]) == path + ("/" + e.name + Suffix(e.node, s[i]));
    }
  }

  lemma {:induction false} EntriesVisited(node: Node, path: string, k: nat)
    requires node.Dir? && k <= |node.entries|
    ensures Visited(PreOrders(node.entries[k..], path)) == Paths(node, path, AddressesFrom(node, k))
    decreases node, 0, |node.entries| - k
  {
    hide Visited, Paths, Suffix, Under, PreOrder;
    if k == |node.entries| {
      NothingVisited(node, path);
    } else {
      var e, rest := node.entries[k], AddressesFrom(node, k + 1);
      var calls := PreOrders(node.entries[k + 1..], path);
      assert node.entries[k..][1..] == node.entries[k + 1..] && node.entries[k..][0] == e;
      EntriesVisited(node, path, k + 1);
      if IsDot(e.name) {
        assert [] + calls == calls && [] + rest == rest;
      } else {
        VisitsAddresses(e.node, path + "/" + e.name);
        VisitedAppend(PreOrder(e.node, path + "/" + e.name), calls);
        EntryPaths(node, path, k, Addresses(e.node));
        PathsAppend(node, path, Under(k, Addresses(e.node)), rest);
      }
    }
  }

  lemma NothingVisited(node: Node, path: string)
    ensures Visited([]) == Paths(node, path, [])
  {
  }

  // ----- the addresses are all the nodes, once each, in pre-order

  lemma {:induction false} AddressesAreNodes(node: Node, a: Address)
    ensures a in Addresses(node) <==> IsNode(node, a)
    decreases node, 1
  {
    if node.Dir? && a != [] {
      EntryAddresses(node, 0, a);
    }
  }

  lemma {:induction false} EntryAddresses(node: Node, k: nat, a: Address)
    requires node.Dir? && k <= |node.entries| && a != []
    ensures a in AddressesFrom(node, k) <==> k <= a[0] && IsNode(node, a)
    decreases node, 0, |node.entries| - k
  {
    if k < |node.entries| {
      EntryAddresses(node, k + 1, a);
      if !IsDot(node.entries[k].name) {
        var here := Addresses(node.entries[k].node);
        AddressesAreNodes(node.entries[k].node, a[1..]);
        if a[0] == k && a[1..] in here {
          var i :| 0 <= i < |here| && here[i] == a[1..];
          assert Under(k, here)[i] == a;
        }
        if a in Under(k, here) {
          var i :| 0 <= i < |here| && Under(k, here)[i] == a;
          assert a[1..] == here[i];
        }
      }
    }
  }

  ghost predicate InOrder(s: seq<Address>) {
    forall i, j :: 0 <= i < j < |s| ==> Precedes(s[i], s[j])
  }

  lemma {:induction false} AddressesInOrder(node: Node)
    ensures InOrder(Addresses(node))
    decreases node, 1
  {
    if node.Dir? {
      EntriesInOrder(node, 0);
      var rest := AddressesFrom(node, 0);
      forall j | 0 <= j < |rest| ensures Precedes([], rest[j]) { FromEntry(node, 0, j); }
    }
  }

  lemma {:induction false} FromEntry(node: Node, k: nat, j: nat)
    requires node.Dir? && k <= |node.entries| && j < |AddressesFrom(node, k)|
    ensures AddressesFrom(node, k)[j] != [] && AddressesFrom(node, k)[j][0] >= k
    decreases |node.entries| - k
  {
    var here := if IsDot(node.entries[k].name) then [] else Under(k, Addresses(node.entries[k].node));
    if j >= |here| { FromEntry(node, k + 1, j - |here|); }
  }

  lemma UnderInOrder(k: nat, s: seq<Address>)
    requires InOrder(s)
    ensures InOrder(Under(k, s))
  {
    forall i, j | 0 <= i < j < |s| ensures Precedes(Under(k, s)[i], Under(k, s)[j]) {
      assert Under(k, s)[i][1..] == s[i] && Under(k, s)[j][1..] == s[j];
    }
  }

  lemma InOrderAppend(s: seq<Address>, t: seq<Address>)
    requires InOrder(s) && InOrder(t) && forall i, j :: 0 <= i < |s| && 0 <= j < |t| ==> Precedes(s[i], t[j])
    ensures InOrder(s + t)
  {
    hide Precedes;
  }

  lemma {:induction false} EntriesInOrder(node: Node, k: nat)
    requires node.Dir? && k <= |node.entries|
    ensures InOrder(AddressesFrom(node, k))
    decreases node, 0, |node.entries| - k
  {
    hide InOrder;
    if k < |node.entries| {
      EntriesInOrder(node, k + 1);
      var rest := AddressesFrom(node, k + 1);
      if IsDot(node.entries[k].name) {
        assert [] + rest == rest;
      } else {
        var here := Under(k, Addresses(node.entries[k].node));
        AddressesInOrder(node.entries[k].node);
        UnderInOrder(k, Addresses(node.entries[k].node));
        forall i, j | 0 <= i < |here| && 0 <= j < |rest| ensures Precedes(here[i], rest[j]) {
          FromEntry(node, k + 1, j);
        }
        InOrderAppend(here, rest);
      }
    } else {
      NothingInOrder();
    }
  }

  lemma NothingInOrder()
    ensures InOrder([])
  {
  }

  lemma {:induction false} NeverItself(a: Address)
    ensures !Precedes(a, a)
  {
    if a != [] { NeverItself(a[1..]); }
  }

  // ----- different nodes have different paths

  /** Names as a directory has them: without slashes, and no name twice. */
  predicate ProperNames(node: Node) {
    node.Dir? ==>
      && (forall i :: 0 <= i < |node.entries| ==> '/' !in node.entries[i].name)
      && (forall i, j :: 0 <= i < j < |node.entries| ==> node.entries[i].name != node.entries[j].name)
      && (forall i :: 0 <= i < |node.entries| ==> ProperNames(node.entries[i].node))
  }

  predicate Rooted(s: string) { s == "" || s[0] == '/' }

  lemma SlashAt(x: string, r: string, y: string, t: string)
    requires Rooted(r) && x + r == y + t && |x| < |y|
    ensures y[|x|] == '/'
  {
    assert (x + r)[|x|] == (y + t)[|x|];
  }

  /** A path determines its first name and the rest. */
  lemma FirstName(x: string, r: string, y: string, t: string)
    requires '/' !in x && '/' !in y && Rooted(r) && Rooted(t) && "/" + x + r == "/" + y + t
    ensures x == y && r == t
  {
    assert x + r == ("/" + x + r)[1..] == ("/" + y + t)[1..] == y + t;
    if |x| < |y| { SlashAt(x, r, y, t); }
    if |y| < |x| { SlashAt(y, t, x, r); }
    assert x == (x + r)[..|x|] == (y + t)[..|y|] == y;
    assert r == (x + r)[|x|..] == (y + t)[|y|..] == t;
  }

  lemma SuffixRooted(node: Node, a: Address)
    ensures Rooted(Suffix(node, a))
    ensures IsNode(node, a) && a != [] ==>
      Suffix(node, a) == "/" + node.entries[a[0]].name + Suffix(node.entries[a[0]].node, a[1..]) != ""
  {
  }

  lemma {:induction false} PathsDiffer(node: Node, a: Address, b: Address)
    requires ProperNames(node) && IsNode(node, a) && IsNode(node, b) && Suffix(node, a) == Suffix(node, b)
    ensures a == b
  {
    hide Suffix;
    SuffixRooted(node, a);
    SuffixRooted(node, b);
    if a == [] || b == [] {
      RootSuffix(node);
    } else {
      var x, y := node.entries[a[0]], node.entries[b[0]];
      SuffixRooted(x.node, a[1..]);
      SuffixRooted(y.node, b[1..]);
      FirstName(x.name, Suffix(x.node, a[1..]), y.name, Suffix(y.node, b[1..]));
      PathsDiffer(x.node, a[1..], b[1..]);
      assert a == [a[0]] + a[1..] && b == [b[0]] + b[1..];
    }
  }

  lemma RootSuffix(node: Node)
    ensures Suffix(node, []) == ""
  {
  }

  /** The calls other than FTW_DNR are exactly the nodes, one call each, in pre-order, each with the path
      of its own node; and in a file system with proper names no path occurs twice. */
  lemma OneCallPerNode(node: Node, path: string)
    ensures Visited(PreOrder(node, path)) == Paths(node, path, Addresses(node))
    ensures forall a :: a in Addresses(node) <==> IsNode(node, a)
    ensures forall i, j :: 0 <= i < j < |Addresses(node)| ==>
      Precedes(Addresses(node)[i], Addresses(node)[j]) && Addresses(node)[i] != Addresses(node)[j]
    ensures ProperNames(node) ==> forall i, j :: 0 <= i < j < |Visited(PreOrder(node, path))| ==>
      Visited(PreOrder(node, path))[i] != Visited(PreOrder(node, path))[j]
  {
    VisitsAddresses(node, path);
    forall a ensures a in Addresses(node) <==> IsNode(node, a) { AddressesAreNodes(node, a); }
    AddressesInOrder(node);
    var s := Addresses(node);
    forall i, j | 0 <= i < j < |s| ensures s[i] != s[j] { NeverItself(s[i]); }
    if ProperNames(node) {
      forall i, j | 0 <= i < j < |s| ensures path + Suffix(node, s[i]) != path + Suffix(node, s[j]) {
        assert s[i] in s && s[j] in s;
        if path + Suffix(node, s[i]) == path + Suffix(node, s[j]) {
          assert (path + Suffix(node, s[i]))[|path|..] == Suffix(node, s[i]);
          assert (path + Suffix(node, s[j]))[|path|..] == Suffix(node, s[j]);
          PathsDiffer(node, s[i], s[j]);
        }
      }
    }
  }
}
