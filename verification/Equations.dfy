/** The checker for systems of equations and inequations between the variables a to z. */
module Equations {
  import opened Options

  const SHRT_MAX := 0x7FFF

  predicate IsLetter(c: char) { 'a' <= c <= 'z' }

  /** An entry is four characters such as a==b or a!=b; only the second one is looked at. */
  predicate WellFormed(e: string) { |e| == 4 && IsLetter(e[0]) && IsLetter(e[3]) }

  predicate AllWellFormed(es: seq<string>) { forall i :: 0 <= i < |es| ==> WellFormed(es[i]) }

  function Left(e: string): nat
    requires WellFormed(e)
  { (e[0] - 'a') as int }

  function Right(e: string): nat
    requires WellFormed(e)
  { (e[3] - 'a') as int }

  // ----- what the entries mean

  type Assignment = v: seq<int> | |v| == 26 witness seq(26, _ => 0)

  lemma LetterBound(e: string)
    requires WellFormed(e)
    ensures Left(e) < 26 && Right(e) < 26
  {
  }

  predicate MeetsEqualities(v: Assignment, es: seq<string>)
    requires AllWellFormed(es)
  {
    forall i :: 0 <= i < |es| && es[i][1] == '=' ==> v[Left(es[i])] == v[Right(es[i])]
  }

  predicate MeetsInequalities(v: Assignment, es: seq<string>)
    requires AllWellFormed(es)
  {
    forall i :: 0 <= i < |es| && es[i][1] == '!' ==> v[Left(es[i])] != v[Right(es[i])]
  }

  ghost predicate Satisfiable(es: seq<string>)
    requires AllWellFormed(es)
  {
    exists v: Assignment :: MeetsEqualities(v, es) && MeetsInequalities(v, es)
  }

  // ----- the table eq_set

  /** -1 marks a variable not seen in an equality; the link of a variable that was seen leads to one
      that was seen. */
  predicate Valid(s: seq<int>) {
    && |s| == 26
    && (forall x :: 0 <= x < 26 ==> -1 <= s[x] < 26)
    && forall x :: 0 <= x < 26 && s[x] != -1 ==> s[s[x]] != -1
  }

  /** What the loop of find_root comes to: it never follows more than two links. */
  function Root(s: seq<int>, x: nat): int
    requires Valid(s) && x < 26
  { if s[x] == -1 then -1 else s[s[x]] }

  method FindRoot(x0: nat, s: array<int>) returns (root: int)
    requires Valid(s[..]) && x0 < 26
    ensures root == Root(s[..], x0)
  {
    var x := x0;
    root := -1;
    ghost var turns := 1;
    while s[x] != root
      invariant 0 <= x < 26 && turns >= 0
      invariant turns == 1 ==> x == x0 && root == -1
      invariant turns == 0 ==> s[x0] != -1 && x == s[x0] && root == s[x]
      invariant turns <= 1
      decreases turns
    {
      x := s[x];
      root := s[x];
      turns := turns - 1;
    }
  }

  /** The effect of one equality on the table. */
  function Join(s: seq<int>, j: nat, k: nat): (s': seq<int>)
    requires Valid(s) && j < 26 && k < 26
    ensures Valid(s') && s'[j] != -1 && s'[k] != -1
  {
    if Root(s, j) != -1 then
      if Root(s, k) != -1 then s[k := Root(s, j)][s[k] := Root(s, j)] else s[k := Root(s, j)]
    else if Root(s, k) != -1 then s[j := Root(s, k)]
    else s[j := j][k := j]
  }

  /** The table after the first loop has read `es`. */
  function Table(es: seq<string>): (s: seq<int>)
    requires AllWellFormed(es)
    ensures Valid(s)
  {
    if |es| == 0 then seq(26, _ => -1)
    else
      var s, e := Table(es[..|es| - 1]), es[|es| - 1];
      LetterBound(e);
      if e[1] == '=' then Join(s, Left(e), Right(e)) else s
  }

  /** The second loop: no inequation of `es` is between equal letters or letters with one root. */
  predicate Accepts(s: seq<int>, es: seq<string>)
    requires Valid(s) && AllWellFormed(es)
  {
    forall i :: 0 <= i < |es| ==> !Refutes(s, es[i])
  }

  predicate Refutes(s: seq<int>, e: string)
    requires Valid(s) && WellFormed(e)
  {
    e[1] == '!' &&
    (Left(e) == Right(e) || (Root(s, Left(e)) != -1 && Root(s, Left(e)) == Root(s, Right(e))))
  }

  // ----- soundness: whatever the table links is equal

  /** Every link is a consequence of the equalities in `es`. */
  ghost predicate Sound(s: seq<int>, es: seq<string>)
    requires Valid(s) && AllWellFormed(es)
  {
    forall v: Assignment :: MeetsEqualities(v, es) ==> Respects(v, s)
  }

  ghost predicate Respects(v: Assignment, s: seq<int>)
    requires Valid(s)
  {
    forall x :: 0 <= x < 26 && s[x] != -1 ==> v[s[x]] == v[x]
  }

  lemma JoinRespects(v: Assignment, s: seq<int>, j: nat, k: nat)
    requires Valid(s) && j < 26 && k < 26 && Respects(v, s) && v[j] == v[k]
    ensures Respects(v, Join(s, j, k))
  {
  }

  lemma {:induction false} TableIsSound(es: seq<string>)
    requires AllWellFormed(es)
    ensures Sound(Table(es), es)
  {
    if |es| > 0 {
      var front, e := es[..|es| - 1], es[|es| - 1];
      TableIsSound(front);
      forall v: Assignment | MeetsEqualities(v, es) ensures Respects(v, Table(es)) {
        MeetsFront(v, es);
        if e[1] == '=' { JoinRespects(v, Table(front), Left(e), Right(e)); }
      }
    }
  }

  lemma MeetsFront(v: Assignment, es: seq<string>)
    requires AllWellFormed(es) && |es| > 0
    ensures MeetsEqualities(v, es) <==>
            MeetsEqualities(v, es[..|es| - 1]) &&
            (es[|es| - 1][1] == '=' ==> v[Left(es[|es| - 1])] == v[Right(es[|es| - 1])])
  {
    var front := es[..|es| - 1];
    assert forall i :: 0 <= i < |front| ==> front[i] == es[i];
  }

  /** A rejected system has no solution. */
  lemma RejectionIsSound(es: seq<string>)
    requires AllWellFormed(es) && !Accepts(Table(es), es)
    ensures !Satisfiable(es)
  {
    TableIsSound(es);
    var s := Table(es);
    var i :| 0 <= i < |es| && Refutes(s, es[i]);
    forall v: Assignment | MeetsEqualities(v, es) ensures !MeetsInequalities(v, es) {
      assert Respects(v, s);
      assert v[Left(es[i])] == v[Right(es[i])];
    }
  }

  // ----- completeness: the assignment that gives every variable its root

  function Representative(s: seq<int>): (v: Assignment)
    requires Valid(s)
  { seq(26, x requires 0 <= x < 26 => if s[x] == -1 then x else s[s[x]]) }

  /** The table knows every equality read: variables made equal have one root. A caller can look. */
  predicate Exact(es: seq<string>)
    requires AllWellFormed(es)
  {
    MeetsEqualities(Representative(Table(es)), es)
  }

  /** On an exact table the answer is right. */
  lemma ExactDecides(es: seq<string>)
    requires AllWellFormed(es) && Exact(es)
    ensures Accepts(Table(es), es) <==> Satisfiable(es)
  {
    var s := Table(es);
    var v := Representative(s);
    if Accepts(s, es) {
      forall i | 0 <= i < |es| && es[i][1] == '!' ensures v[Left(es[i])] != v[Right(es[i])] {
        assert !Refutes(s, es[i]);
      }
      assert MeetsInequalities(v, es);
    } else {
      RejectionIsSound(es);
    }
  }

  /** The guard of the branch that can lose equalities: when j's class and k's class differ, everything
      in k's class must hang directly on its root, or on k. */
  predicate KeepsExact(s: seq<int>, j: nat, k: nat)
    requires Valid(s) && j < 26 && k < 26
  {
    s[j] == -1 || s[k] == -1 || Root(s, j) == Root(s, k) ||
    forall x :: 0 <= x < 26 && Root(s, x) == Root(s, k) ==> s[x] == Root(s, k) || s[x] == k
  }

  /** In a table that is sound and exact all links end after two steps. */
  ghost predicate Flat(s: seq<int>)
    requires Valid(s)
  {
    forall x :: 0 <= x < 26 && s[x] != -1 ==> s[s[s[x]]] == s[s[x]]
  }

  lemma ExactIsFlat(s: seq<int>)
    requires Valid(s) && Respects(Representative(s), s)
    ensures Flat(s)
  {
    var v := Representative(s);
    forall x | 0 <= x < 26 && s[x] != -1 ensures s[s[s[x]]] == s[s[x]] {
      assert v[s[x]] == v[x];
    }
  }

  /** Under the guard a step renames one representative: the classes of j and k become one, all
      other classes stay. */
  lemma JoinMerges(s: seq<int>, j: nat, k: nat, x: nat, y: nat)
    requires Valid(s) && Flat(s) && j < 26 && k < 26 && x < 26 && y < 26 && KeepsExact(s, j, k)
    ensures Representative(s)[x] == Representative(s)[y] ==>
            Representative(Join(s, j, k))[x] == Representative(Join(s, j, k))[y]
    ensures Representative(Join(s, j, k))[j] == Representative(Join(s, j, k))[k]
  {
    var v := Representative(s);
    JoinRenames(s, j, k, x);
    JoinRenames(s, j, k, y);
    JoinRenames(s, j, k, j);
    JoinRenames(s, j, k, k);
  }

  /** The representative that gives way, and the one that takes its place. */
  function Loser(s: seq<int>, j: nat, k: nat): int
    requires Valid(s) && j < 26 && k < 26
  { if s[j] == -1 && s[k] != -1 then j else Representative(s)[k] }

  function Winner(s: seq<int>, j: nat, k: nat): int
    requires Valid(s) && j < 26 && k < 26
  { if s[j] == -1 && s[k] != -1 then Representative(s)[k] else Representative(s)[j] }

  lemma JoinRenames(s: seq<int>, j: nat, k: nat, x: nat)
    requires Valid(s) && Flat(s) && j < 26 && k < 26 && x < 26 && KeepsExact(s, j, k)
    ensures Representative(Join(s, j, k))[x]
         == if Representative(s)[x] == Loser(s, j, k) then Winner(s, j, k) else Representative(s)[x]
  {
    var s' := Join(s, j, k);
    if s[j] != -1 && s[k] != -1 {
      var r, q := Root(s, j), Root(s, k);
      assert s[r] == r && s[q] == q;
      if s[x] != -1 {
        assert s[s[s[x]]] == s[s[x]];
      }
    }
  }

  /** Without it, some variable equal to k is left behind. */
  lemma JoinLoses(s: seq<int>, j: nat, k: nat)
    requires Valid(s) && Flat(s) && j < 26 && k < 26 && !KeepsExact(s, j, k)
    ensures !(Respects(Representative(Join(s, j, k)), s) &&
              Representative(Join(s, j, k))[j] == Representative(Join(s, j, k))[k])
  {
    var s' := Join(s, j, k);
    var v := Representative(s');
    var r, q := Root(s, j), Root(s, k);
    var x :| 0 <= x < 26 && Root(s, x) == q && s[x] != q && s[x] != k;
    assert s[r] == r && s[q] == q;
    assert s'[r] == r;
  }

  /** One equality after an exact prefix: the table stays exact exactly under the guard. */
  lemma StaysExactIff(es: seq<string>)
    requires AllWellFormed(es) && |es| > 0 && es[|es| - 1][1] == '=' && Exact(es[..|es| - 1])
    ensures Exact(es) <==>
            (LetterBound(es[|es| - 1]); KeepsExact(Table(es[..|es| - 1]), Left(es[|es| - 1]), Right(es[|es| - 1])))
  {
    var front, e := es[..|es| - 1], es[|es| - 1];
    LetterBound(e);
    var s, j, k := Table(front), Left(e), Right(e);
    var v := Representative(Join(s, j, k));
    TableIsSound(front);
    ExactIsFlat(s);
    MeetsFront(v, es);
    if KeepsExact(s, j, k) {
      forall i | 0 <= i < |front| && front[i][1] == '=' ensures v[Left(front[i])] == v[Right(front[i])] {
        JoinMerges(s, j, k, Left(front[i]), Right(front[i]));
      }
      JoinMerges(s, j, k, j, k);
    } else {
      JoinLoses(s, j, k);
    }
  }

  /** The guard holds at every equality of `es`. */
  ghost predicate GuardsHold(es: seq<string>)
    requires AllWellFormed(es)
  {
    |es| == 0 ||
    (GuardsHold(es[..|es| - 1]) && GuardHolds(es[..|es| - 1], es[|es| - 1]))
  }

  ghost predicate GuardHolds(front: seq<string>, e: string)
    requires AllWellFormed(front) && WellFormed(e)
  {
    LetterBound(e);
    e[1] == '=' ==> KeepsExact(Table(front), Left(e), Right(e))
  }

  /** While the guard holds the checker decides satisfiability. */
  lemma {:induction false} GuardedRunsDecide(es: seq<string>)
    requires AllWellFormed(es) && GuardsHold(es)
    ensures Exact(es) && (Accepts(Table(es), es) <==> Satisfiable(es))
  {
    if |es| > 0 {
      GuardedRunsDecide(es[..|es| - 1]);
      if es[|es| - 1][1] == '=' { StaysExactIff(es); } else { MeetsFront(Representative(Table(es)), es); }
    }
    ExactDecides(es);
  }

  function Inequation(x: char, y: char): (e: string)
    requires IsLetter(x) && IsLetter(y)
    ensures WellFormed(e) && e[1] == '!' && Left(e) == (x - 'a') as int && Right(e) == (y - 'a') as int
  { [x, '!', '=', y] }

  /** The checker answers rightly when x != y is put after `es`. */
  ghost predicate AnswersRightly(es: seq<string>, x: char, y: char)
    requires AllWellFormed(es) && IsLetter(x) && IsLetter(y)
  {
    Accepts(Table(es + [Inequation(x, y)]), es + [Inequation(x, y)]) <==> Satisfiable(es + [Inequation(x, y)])
  }

  lemma InequationKeepsTable(es: seq<string>, e: string)
    requires AllWellFormed(es) && WellFormed(e) && e[1] == '!'
    ensures AllWellFormed(es + [e]) && Table(es + [e]) == Table(es)
    ensures forall v: Assignment :: MeetsEqualities(v, es + [e]) <==> MeetsEqualities(v, es)
  {
    var all := es + [e];
    assert all[..|all| - 1] == es;
    forall v: Assignment ensures MeetsEqualities(v, all) <==> MeetsEqualities(v, es) { MeetsFront(v, all); }
  }

  /** After equalities only: the answer is right for every inequation that may follow exactly when the
      table is exact. */
  lemma RightForAllIffExact(es: seq<string>)
    requires AllWellFormed(es) && forall i :: 0 <= i < |es| ==> es[i][1] != '!'
    ensures (forall x, y :: IsLetter(x) && IsLetter(y) ==> AnswersRightly(es, x, y)) <==> Exact(es)
  {
    if Exact(es) {
      forall x, y | IsLetter(x) && IsLetter(y) ensures AnswersRightly(es, x, y) {
        InequationKeepsTable(es, Inequation(x, y));
        ExactDecides(es + [Inequation(x, y)]);
      }
    } else {
      var v := Representative(Table(es));
      var i :| 0 <= i < |es| && es[i][1] == '=' && v[Left(es[i])] != v[Right(es[i])];
      MissedInequation(es, i);
    }
  }

  predicate OnlyInequations(es: seq<string>) {
    AllWellFormed(es) && forall i :: 0 <= i < |es| ==> es[i][1] == '!'
  }

  lemma {:induction false} InequationsKeepExact(es: seq<string>, ns: seq<string>)
    requires AllWellFormed(es) && OnlyInequations(ns) && Exact(es)
    ensures AllWellFormed(es + ns) && Exact(es + ns)
    decreases |ns|
  {
    if ns == [] {
      assert es + ns == es;
    } else {
      var front, e := ns[..|ns| - 1], ns[|ns| - 1];
      InequationsKeepExact(es, front);
      InequationKeepsTable(es + front, e);
      assert es + ns == (es + front) + [e];
    }
  }

  /** The same for whole systems: after equalities only, the checker decides every system of inequations
      that may follow exactly when the table is exact. */
  lemma DecidesAllIffExact(es: seq<string>)
    requires AllWellFormed(es) && forall i :: 0 <= i < |es| ==> es[i][1] != '!'
    ensures (forall ns :: OnlyInequations(ns) ==> (Accepts(Table(es + ns), es + ns) <==> Satisfiable(es + ns))) <==>
        Exact(es)
  {
    if Exact(es) {
      forall ns | OnlyInequations(ns) ensures Accepts(Table(es + ns), es + ns) <==> Satisfiable(es + ns) {
        InequationsKeepExact(es, ns);
        ExactDecides(es + ns);
      }
    } else {
      RightForAllIffExact(es);
      var x, y :| IsLetter(x) && IsLetter(y) && !AnswersRightly(es, x, y);
      assert OnlyInequations([Inequation(x, y)]);
    }
  }

  lemma MissedInequation(es: seq<string>, i: nat)
    requires AllWellFormed(es) && forall n :: 0 <= n < |es| ==> es[n][1] != '!'
    requires i < |es| && es[i][1] == '='
    requires Representative(Table(es))[Left(es[i])] != Representative(Table(es))[Right(es[i])]
    ensures !AnswersRightly(es, es[i][0], es[i][3])
  {
    var e := Inequation(es[i][0], es[i][3]);
    var all := es + [e];
    InequationKeepsTable(es, e);
    assert forall n :: 0 <= n < |all| ==> !Refutes(Table(es), all[n]);
    forall v: Assignment | MeetsEqualities(v, all) ensures !MeetsInequalities(v, all) {
      assert all[i] == es[i] && all[|es|] == e;
    }
  }

  /** One equality more. */
  lemma TableStep(es: seq<string>, e: string)
    requires AllWellFormed(es) && WellFormed(e) && e[1] == '='
    ensures AllWellFormed(es + [e]) && Left(e) < 26 && Right(e) < 26 &&
        Table(es + [e]) == Join(Table(es), Left(e), Right(e))
  {
    LetterBound(e);
    assert (es + [e])[..|es + [e]| - 1] == es;
  }

  function Blank(): (s: seq<int>)
    ensures Valid(s) && forall x :: 0 <= x < 26 ==> s[x] == -1
  {
    seq(26, _ => -1)
  }

  /** c==d after a==b, then c==a: everything hangs on c, b by way of a. */
  lemma TwoClasses()
    ensures AllWellFormed(["a==b", "c==d", "c==a"])
    ensures Table(["a==b", "c==d", "c==a"]) == Blank()[0 := 2][1 := 0][2 := 2][3 := 2]
  {
    hide Table;
    NoEntries();
    TableStep([], "a==b");
    assert [] + ["a==b"] == ["a==b"];
    assert Table(["a==b"]) == Blank()[0 := 0][1 := 0];
    TableStep(["a==b"], "c==d");
    assert ["a==b"] + ["c==d"] == ["a==b", "c==d"];
    assert Table(["a==b", "c==d"]) == Blank()[0 := 0][1 := 0][2 := 2][3 := 2];
    TableStep(["a==b", "c==d"], "c==a");
    assert ["a==b", "c==d"] + ["c==a"] == ["a==b", "c==d", "c==a"];
  }

  lemma NoEntries()
    ensures Table([]) == Blank()
  {
  }

  /** e==b takes b and a away from c. */
  lemma LostClass()
    ensures AllWellFormed(["a==b", "c==d", "c==a", "e==e", "e==b"])
    ensures Table(["a==b", "c==d", "c==a", "e==e", "e==b"]) == Blank()[0 := 4][1 := 4][2 := 2][3 := 2][4 := 4]
  {
    hide Table;
    TwoClasses();
    TableStep(["a==b", "c==d", "c==a"], "e==e");
    assert ["a==b", "c==d", "c==a"] + ["e==e"] == ["a==b", "c==d", "c==a", "e==e"];
    assert Table(["a==b", "c==d", "c==a", "e==e"]) == Blank()[0 := 2][1 := 0][2 := 2][3 := 2][4 := 4];
    TableStep(["a==b", "c==d", "c==a", "e==e"], "e==b");
    assert ["a==b", "c==d", "c==a", "e==e"] + ["e==b"] == ["a==b", "c==d", "c==a", "e==e", "e==b"];
  }

  /** Six entries that have no solution and are accepted. */
  lemma AcceptsAContradiction()
    ensures AllWellFormed(["a==b", "c==d", "c==a", "e==e", "e==b", "c!=e"])
    ensures Accepts(Table(["a==b", "c==d", "c==a", "e==e", "e==b", "c!=e"]),
        ["a==b", "c==d", "c==a", "e==e", "e==b", "c!=e"])
    ensures !Satisfiable(["a==b", "c==d", "c==a", "e==e", "e==b", "c!=e"])
  {
    hide Table;
    var es := ["a==b", "c==d", "c==a", "e==e", "e==b", "c!=e"];
    LostClass();
    InequationKeepsTable(["a==b", "c==d", "c==a", "e==e", "e==b"], "c!=e");
    assert ["a==b", "c==d", "c==a", "e==e", "e==b"] + ["c!=e"] == es;
    forall v: Assignment | MeetsEqualities(v, es) ensures !MeetsInequalities(v, es) {
      assert es[0][1] == '=' && es[2][1] == '=' && es[4][1] == '=' && es[5][1] == '!';
    }
  }

  // ----- the program

  /** The body of the first loop for an equality. */
  method JoinInPlace(s: array<int>, j: nat, k: nat)
    requires Valid(s[..]) && j < 26 && k < 26
    modifies s
    ensures s[..] == Join(old(s[..]), j, k)
  {
    var jroot := FindRoot(j, s);
    var kroot := FindRoot(k, s);
    if jroot != -1 {
      if kroot != -1 {
        var kr := s[k];
        s[k] := jroot;
        s[kr] := jroot;
      } else {
        s[k] := jroot;
      }
    } else {
      if kroot != -1 {
        s[j] := kroot;
      } else {
        s[j] := j;
        s[k] := j;
      }
    }
  }

  /** The next value of the first loop's counter, which is a short. */
  function NextShort(i: int): int { if i == SHRT_MAX then -SHRT_MAX - 1 else i + 1 }

  /** equationsPossible; no result when the counter overflows and the loop reads in front of the entries. */
  method EquationsPossible(es: seq<string>) returns (answer: Option<bool>)
    requires AllWellFormed(es)
    ensures answer.None? <==> |es| > 32767
    ensures answer.Some? ==> (answer.value <==> Accepts(Table(es), es))
    ensures answer == Some(false) ==> !Satisfiable(es)
  {
    var eqSet := new int[26](_ => -1);
    assert es[..0] == [] && eqSet[..] == seq(26, _ => -1);
    var i := 0;
    while i < |es|
      invariant 0 <= i <= |es| && i <= SHRT_MAX
      invariant Valid(eqSet[..]) && eqSet[..] == Table(es[..i])
    {
      assert es[..i + 1][..i] == es[..i];
      var e := es[i];
      LetterBound(e);
      if e[1] == '=' { JoinInPlace(eqSet, Left(e), Right(e)); }
      i := NextShort(i);
      if i < 0 { return None; }
    }
    assert es[..|es|] == es;
    for i := 0 to |es|
      invariant eqSet[..] == Table(es)
      invariant forall n :: 0 <= n < i ==> !Refutes(Table(es), es[n])
    {
      var e := es[i];
      LetterBound(e);
      if e[1] == '!' {
        var j, k := Left(e), Right(e);
        var refuted := j == k;
        if !refuted {
          var jroot := FindRoot(j, eqSet);
          var kroot := FindRoot(k, eqSet);
          refuted := jroot != -1 && jroot == kroot;
        }
        if refuted {
          assert Refutes(Table(es), e);
          RejectionIsSound(es);
          return Some(false);
        }
      }
    }
    return Some(true);
  }
}
