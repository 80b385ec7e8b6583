/** One System V semaphore set and the kernel operations on it (POSIX.1 `semop`, `semctl`, and the
    undo applied when a process exits). Processes are numbered 0 .. n-1; `adj[m][p]` is the semadj
    value of process p for member m. */
module SemKernel {
  import opened Sums

  const MEMBERS: nat := 3

  datatype Sembuf = Sembuf(num: nat, op: int, undo: bool)
  datatype SemSet = SemSet(val: seq<int>, adj: seq<seq<int>>)
  datatype Outcome = Done(t: SemSet) | Blocked

  ghost predicate Shape(t: SemSet, n: nat) {
    && |t.val| == |t.adj| == MEMBERS
    && (forall m :: 0 <= m < MEMBERS ==> |t.adj[m]| == n && t.val[m] >= 0)
  }

  predicate ValidOps(ops: seq<Sembuf>) {
    forall k :: 0 <= k < |ops| ==> ops[k].num < MEMBERS
  }

  /** The number that no semop with undo can change: the value plus everything the kernel still owes it. */
  ghost function Level(t: SemSet, m: nat): int
    requires m < |t.val| && m < |t.adj|
  {
    t.val[m] + Sum(t.adj[m])
  }

  function Zeros(n: nat): (z: seq<int>)
    ensures |z| == n && forall i :: 0 <= i < n ==> z[i] == 0
  {
    seq(n, i => 0)
  }

  function FreshSet(n: nat): SemSet {
    SemSet(Zeros(MEMBERS), seq(MEMBERS, i => Zeros(n)))
  }

  /** Adds `b.op` to member `b.num`, recording the opposite adjustment for process `p`. */
  function Add(t: SemSet, p: nat, b: Sembuf): SemSet
    requires b.num < |t.val| && b.num < |t.adj| && p < |t.adj[b.num]|
  {
    SemSet(t.val[b.num := t.val[b.num] + b.op],
           if b.undo then t.adj[b.num := t.adj[b.num][p := t.adj[b.num][p] - b.op]] else t.adj)
  }

  predicate CanProceed(v: int, op: int) {
    if op > 0 then true else if op == 0 then v == 0 else v + op >= 0
  }

  /** semop: every operation in order, or none of them. */
  function Semop(t: SemSet, p: nat, ops: seq<Sembuf>): Outcome
    requires |t.val| == |t.adj| == MEMBERS && ValidOps(ops)
    requires forall m :: 0 <= m < MEMBERS ==> p < |t.adj[m]|
    ensures Semop(t, p, ops).Done? && Shape(t, |t.adj[0]|) ==> Shape(Semop(t, p, ops).t, |t.adj[0]|)
    decreases |ops|
  {
    if ops == [] then Done(t)
    else if !CanProceed(t.val[ops[0].num], ops[0].op) then Blocked
    else Semop(Add(t, p, ops[0]), p, ops[1..])
  }

  /** semctl SETVAL: sets the value and clears that member's adjustment in every process. */
  function SetVal(t: SemSet, m: nat, v: int): SemSet
    requires m < |t.val| && m < |t.adj|
  {
    SemSet(t.val[m := v], t.adj[m := Zeros(|t.adj[m]|)])
  }

  function Max0(x: int): int { if x < 0 then 0 else x }

  /** What the exit of process `p` does to one set: apply and clear its adjustments. A value that would
      become negative is left at 0. */
  function Undo(t: SemSet, p: nat): SemSet
    requires |t.val| == |t.adj| && forall m :: 0 <= m < |t.adj| ==> p < |t.adj[m]|
  {
    SemSet(seq(|t.val|, m requires 0 <= m < |t.val| => Max0(t.val[m] + t.adj[m][p])),
           seq(|t.adj|, m requires 0 <= m < |t.adj| => t.adj[m][p := 0]))
  }

  lemma AddConserves(t: SemSet, p: nat, b: Sembuf, n: nat)
    requires Shape(t, n) && p < n && b.num < MEMBERS && CanProceed(t.val[b.num], b.op)
    ensures Shape(Add(t, p, b), n)
    ensures b.undo || b.op == 0 ==> forall m :: 0 <= m < MEMBERS ==> Level(Add(t, p, b), m) == Level(t, m)
  {
    if b.undo {
      SumUpdate(t.adj[b.num], p, t.adj[b.num][p] - b.op);
    }
  }

  /** Conservation: a semop array whose changes all carry SEM_UNDO keeps every member's level, and
      touches the adjustments of no process but the caller. */
  lemma {:induction false} SemopConserves(t: SemSet, p: nat, ops: seq<Sembuf>, n: nat)
    requires Shape(t, n) && p < n && ValidOps(ops)
    requires forall k :: 0 <= k < |ops| ==> ops[k].undo || ops[k].op == 0
    requires Semop(t, p, ops).Done?
    ensures Shape(Semop(t, p, ops).t, n)
    ensures forall m :: 0 <= m < MEMBERS ==> Level(Semop(t, p, ops).t, m) == Level(t, m)
    ensures forall m, q :: 0 <= m < MEMBERS && 0 <= q < n && q != p ==> Semop(t, p, ops).t.adj[m][q] == t.adj[m][q]
    decreases |ops|
  {
    if ops != [] {
      AddConserves(t, p, ops[0], n);
      assert CanProceed(t.val[ops[0].num], ops[0].op);
      SemopConserves(Add(t, p, ops[0]), p, ops[1..], n);
    }
  }

  /** Exit keeps the level of every member whose undo does not have to be clamped at 0;
      a clamped member gains exactly what the clamp withheld. */
  lemma UndoConserves(t: SemSet, p: nat, n: nat)
    requires Shape(t, n) && p < n
    ensures Shape(Undo(t, p), n)
    ensures forall m :: 0 <= m < MEMBERS ==>
      Level(Undo(t, p), m) == Level(t, m) + Max0(-(t.val[m] + t.adj[m][p]))
  {
    forall m | 0 <= m < MEMBERS
      ensures Level(Undo(t, p), m) == Level(t, m) + Max0(-(t.val[m] + t.adj[m][p]))
    {
      SumUpdate(t.adj[m], p, 0);
    }
  }

  lemma SetValLevel(t: SemSet, m: nat, v: nat, n: nat)
    requires Shape(t, n) && m < MEMBERS
    ensures Shape(SetVal(t, m, v), n)
    ensures Level(SetVal(t, m, v), m) == v
    ensures forall k :: 0 <= k < MEMBERS && k != m ==> Level(SetVal(t, m, v), k) == Level(t, k)
  {
    SumOfZeros(Zeros(n));
  }
}
