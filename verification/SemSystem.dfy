/** The kernel tables and the library as a program that updates them in place: one method call per
    system call, in whatever order a schedule dictates. */
module SemSystem {
  import opened Options
  import opened SemKernel
  import opened SemProtocol
  import opened SemRuns
  import opened SemSafety
  import opened SemValue

  datatype SemopResult = Ok | Wait | Failed

  /** Of the sets of `s`, all but those in `todo` have had the adjustments of process `p` applied. */
  ghost predicate UndoneExcept(s: State, sets: map<int, SemSet>, hist: map<int, Hist>, p: nat, todo: set<int>)
    requires Shaped(s) && p < |s.procs|
  {
    && todo <= s.sets.Keys == sets.Keys == hist.Keys
    && (forall id :: id in s.sets ==> sets[id] == if id in todo then s.sets[id] else Undo(s.sets[id], p))
    && (forall id :: id in s.hist ==>
          hist[id] == if id in todo then s.hist[id] else s.hist[id].(lost := s.hist[id].lost + Withheld(s.sets[id], p)))
  }

  lemma AllUndone(s: State, sets: map<int, SemSet>, hist: map<int, Hist>, p: nat, todo: set<int>)
    requires Shaped(s) && p < |s.procs| && UndoneExcept(s, sets, hist, p, todo) && forall id :: id !in todo
    ensures sets == SemProtocol.Exit(s, p).sets && hist == SemProtocol.Exit(s, p).hist
  {
    hide Undo, Withheld;
    var r := SemProtocol.Exit(s, p);
    assert forall id :: id in s.sets ==> sets[id] == r.sets[id];
    assert forall id :: id in s.hist ==> hist[id] == r.hist[id];
  }

  lemma KeysLeft(before: map<int, int>, after: map<int, int>, id: int)
    requires forall k :: k in after ==> k in before && after[k] == before[k]
    requires forall k :: k in before ==> (k in after <==> before[k] != id)
    ensures after == map k | k in before && before[k] != id :: before[k]
  {
    var left := map k | k in before && before[k] != id :: before[k];
    forall k ensures k in after.Keys <==> k in left.Keys {
      if k in after { assert k in before; }
    }
    assert forall k :: k in left ==> after[k] == left[k];
    assert after == left;
  }

  class System {
    var procs: seq<Pc>
    var keys: map<int, int>
    var sets: map<int, SemSet>
    var nextId: int
    var dumped: bool
    ghost var hist: map<int, Hist>

    ghost function View(): State
      reads this
    {
      State(procs, keys, sets, hist, nextId, dumped)
    }

    constructor (n: nat)
      ensures View() == Init(n)
    {
      procs := seq(n, i => Idle(-1));
      keys, sets, hist, nextId, dumped := map[], map[], map[], 0, false;
    }

    /** The kernel's semop: tries the operations one by one on a copy, and commits all or nothing. */
    method Semop(p: nat, id: int, ops: seq<Sembuf>) returns (r: SemopResult)
      requires Shaped(View()) && p < |procs| && ValidOps(ops)
      modifies this`sets
      ensures id !in old(sets) ==> r == Failed && sets == old(sets)
      ensures id in old(sets) ==>
        match SemKernel.Semop(old(sets)[id], p, ops)
        case Blocked => r == Wait && sets == old(sets)
        case Done(t) => r == Ok && sets == old(sets)[id := t]
    {
      if id !in sets { return Failed; }
      var trial := sets[id];
      var i := 0;
      while i < |ops|
        invariant 0 <= i <= |ops| && Shape(trial, |procs|) && sets == old(sets) && procs == old(procs)
        invariant SemKernel.Semop(sets[id], p, ops) == SemKernel.Semop(trial, p, ops[i..])
      {
        assert ops[i..][0] == ops[i] && ops[i..][1..] == ops[i + 1..];
        if !CanProceed(trial.val[ops[i].num], ops[i].op) { return Wait; }
        AddConserves(trial, p, ops[i], |procs|);
        trial := Add(trial, p, ops[i]);
        i := i + 1;
      }
      assert ops[i..] == [];
      sets := sets[id := trial];
      r := Ok;
    }

    /** The undo in one set, member by member. */
    method UndoSet(t: SemSet, p: nat) returns (r: SemSet)
      requires Shape(t, |procs|) && p < |procs|
      ensures r == Undo(t, p)
    {
      var val, adj := t.val, t.adj;
      for m := 0 to MEMBERS
        invariant |val| == |adj| == MEMBERS
        invariant forall k :: 0 <= k < m ==> val[k] == Max0(t.val[k] + t.adj[k][p]) && adj[k] == t.adj[k][p := 0]
        invariant forall k :: m <= k < MEMBERS ==> val[k] == t.val[k] && adj[k] == t.adj[k]
      {
        val := val[m := Max0(val[m] + adj[m][p])];
        adj := adj[m := adj[m][p := 0]];
      }
      r := SemSet(val, adj);
      assert r.val == Undo(t, p).val && r.adj == Undo(t, p).adj;
    }

    /** One set of the exit loop. */
    method UndoNext(id: int, p: nat, ghost before: State, ghost todo: set<int>)
      requires Shaped(before) && |procs| == |before.procs| && p < |procs| && id in todo
      requires UndoneExcept(before, sets, hist, p, todo)
      modifies this`sets, this`hist
      ensures UndoneExcept(before, sets, hist, p, todo - {id})
    {
      hide Undo, Withheld;
      assert id in before.sets && Shape(sets[id], |procs|);
      hist := hist[id := hist[id].(lost := hist[id].lost + Withheld(sets[id], p))];
      var t := UndoSet(sets[id], p);
      sets := sets[id := t];
    }

    /** Exit, wanted or not: the kernel undoes what the process has pending, set by set, in any order. */
    method Exit(p: nat)
      requires Shaped(View()) && p < |procs|
      modifies this
      ensures View() == SemProtocol.Exit(old(View()), p)
    {
      hide Undo, Withheld;
      ghost var before := View();
      var todo := sets.Keys;
      while true
        invariant UndoneExcept(before, sets, hist, p, todo) && procs == before.procs
        invariant keys == before.keys && nextId == before.nextId && dumped == before.dumped
        decreases |todo|
      {
        if id :| id in todo {
          UndoNext(id, p, before, todo);
          todo := todo - {id};
        } else {
          break;
        }
      }
      AllUndone(before, sets, hist, p, todo);
      procs := procs[p := Idle(-1)];
    }

    /** Every key that leads to the set goes. */
    method DropKeys(id: int)
      modifies this`keys
      ensures keys == map k | k in old(keys) && old(keys)[k] != id :: old(keys)[k]
    {
      var todo := keys.Keys;
      while true
        invariant todo <= keys.Keys <= old(keys).Keys && forall k :: k in keys ==> keys[k] == old(keys)[k]
        invariant forall k :: k in old(keys) && k !in todo ==> (k in keys <==> old(keys)[k] != id)
        decreases |todo|
      {
        if k :| k in todo {
          if keys[k] == id { keys := keys - {k}; }
          todo := todo - {k};
        } else {
          break;
        }
      }
      KeysLeft(old(keys), keys, id);
    }

    /** IPC_RMID. */
    method Rmid(p: nat, id: int)
      requires Shaped(View()) && p < |procs|
      modifies this
      ensures View() == Remove(old(View()), p, id)
    {
      if id !in sets {
        Exit(p);
      } else {
        procs := procs[p := Idle(0)];
        sets, hist := sets - {id}, hist - {id};
        DropKeys(id);
      }
    }

    /** A semop of the library: error exits the process, a wait leaves it where it is. */
    method DoSemop(p: nat, id: int, ops: seq<Sembuf>, next: Pc) returns (r: SemopResult)
      requires Shaped(View()) && p < |procs| && ValidOps(ops)
      modifies this
      ensures View() == SemProtocol.DoSemop(old(View()), p, id, ops, next)
      ensures r == Ok <==> id in old(sets) && SemKernel.Semop(old(sets)[id], p, ops).Done?
    {
      r := Semop(p, id, ops);
      match r {
        case Failed => Exit(p);
        case Wait =>
        case Ok => procs := procs[p := next];
      }
    }

    /** sem_create, from the system call that `p` is about to make up to the next one. */
    method ResumeCreate(p: nat)
      requires Shaped(View()) && p < |procs|
      requires match procs[p]
        case CreateGet(_, _) => true
        case CreateLock(_, _, _) => true
        case CreateBlocked(_, _) => true
        case CreateGetval(_, _) => true
        case CreateSet0(_, _) => true
        case CreateSet1(_) => true
        case CreateEnd(_) => true
        case _ => false
      modifies this
      ensures View() == StepGo(old(View()), p)
    {
      match procs[p] {
        case CreateGet(key, initval) =>
          if key !in keys {
            keys, sets := keys[key := nextId], sets[nextId := FreshSet(|procs|)];
            hist := hist[nextId := Hist(None, false, false, 0)];
            nextId := nextId + 1;
          }
          procs := procs[p := CreateLock(key, initval, keys[key])];
        case CreateLock(key, initval, id) =>
          var r := Semop(p, id, OP_LOCK);
          procs := procs[p := match r
                              case Failed => CreateGet(key, initval)
                              case Wait => CreateBlocked(initval, id)
                              case Ok => CreateGetval(initval, id)];
        case CreateBlocked(initval, id) =>
          var r := Semop(p, id, OP_LOCK);
          match r {
            case Failed => Exit(p);
            case Wait => assert procs == procs[p := CreateBlocked(initval, id)];
            case Ok => procs := procs[p := CreateGetval(initval, id)];
          }
        case CreateGetval(initval, id) =>
          if id !in sets {
            Exit(p);
          } else {
            procs := procs[p := if sets[id].val[1] == 0 then CreateSet0(initval, id) else CreateEnd(id)];
          }
        case CreateSet0(initval, id) =>
          if id !in sets || initval < 0 {
            Exit(p);
          } else {
            sets := sets[id := SetVal(sets[id], 0, initval)];
            hist := hist[id := hist[id].(init0 := Some(initval), lost := 0)];
            procs := procs[p := CreateSet1(id)];
          }
        case CreateSet1(id) =>
          if id !in sets {
            Exit(p);
          } else {
            sets := sets[id := SetVal(sets[id], 1, BIGCOUNT)];
            hist := hist[id := hist[id].(init1 := true)];
            procs := procs[p := CreateEnd(id)];
          }
        case CreateEnd(id) =>
          var r := DoSemop(p, id, OP_ENDCREATE, Idle(id));
          if procs[p] == Idle(id) && id in hist { hist := hist[id := hist[id].(returned := true)]; }
      }
    }

    method ResumeOpen(p: nat)
      requires Shaped(View()) && p < |procs| && (procs[p].OpenGet? || procs[p].OpenOp?)
      modifies this
      ensures View() == StepGo(old(View()), p)
    {
      match procs[p] {
        case OpenGet(key) => procs := procs[p := if key in keys then OpenOp(keys[key]) else Idle(-1)];
        case OpenOp(id) =>
          var r := DoSemop(p, id, OP_OPEN, Idle(id));
          if procs[p] == Idle(id) && id in hist { hist := hist[id := hist[id].(returned := true)]; }
      }
    }

    method ResumeClose(p: nat)
      requires Shaped(View()) && p < |procs|
      requires procs[p].CloseOp? || procs[p].CloseGetval? || procs[p].CloseRm? || procs[p].CloseUnlock?
      modifies this
      ensures View() == StepGo(old(View()), p)
    {
      match procs[p] {
        case CloseOp(id) => var r := DoSemop(p, id, OP_CLOSE, CloseGetval(id));
        case CloseGetval(id) =>
          if id !in sets {
            Exit(p);
          } else if sets[id].val[1] > BIGCOUNT {
            Exit(p);
            dumped := true;
          } else if sets[id].val[1] == BIGCOUNT {
            procs := procs[p := CloseRm(id)];
          } else {
            procs := procs[p := CloseUnlock(id)];
          }
        case CloseRm(id) => Rmid(p, id);
        case CloseUnlock(id) => var r := DoSemop(p, id, OP_UNLOCK, Idle(0));
      }
    }

    /** sem_op. */
    method ResumeOp(p: nat)
      requires Shaped(View()) && p < |procs| && procs[p].Op?
      modifies this
      ensures View() == StepGo(old(View()), p)
      ensures OpPending(old(View()), p) ==> OpMoved(old(View()), View(), p)
    {
      var id, value := procs[p].id, procs[p].value;
      if OpPending(View(), p) { OpMovesValue(View(), p, id, value); }
      if value == 0 {
        Exit(p);
      } else {
        var r := DoSemop(p, id, OpOp(value), Idle(0));
      }
    }

    /** One event: a call, a system call, a failing semget, or the death of a process. */
    method Deliver(e: Event)
      requires Shaped(View())
      modifies this
      ensures View() == Step(old(View()), e)
      ensures e.Go? && e.p < |old(procs)| && OpPending(old(View()), e.p) ==> OpMoved(old(View()), View(), e.p)
    {
      if e.p >= |procs| { return; }
      var pc := procs[e.p];
      match e {
        case Crash(p) => Exit(p);
        case Denied(p) =>
          if pc.CreateGet? || pc.OpenGet? { procs := procs[p := Idle(-1)]; }
        case Go(p) =>
          match pc {
            case Idle(_) =>
            case OpenGet(_) => ResumeOpen(p);
            case OpenOp(_) => ResumeOpen(p);
            case CloseOp(_) => ResumeClose(p);
            case CloseGetval(_) => ResumeClose(p);
            case CloseRm(_) => ResumeClose(p);
            case CloseUnlock(_) => ResumeClose(p);
            case Op(_, _) => ResumeOp(p);
            case Rm(id) => Rmid(p, id);
            case _ => ResumeCreate(p);
          }
        case CallCreate(p, key, initval) =>
          if pc.Idle? {
            procs := procs[p := if key == IPC_PRIVATE || key == -1 then Idle(-1) else CreateGet(key, initval)];
          }
        case CallOpen(p, key) =>
          if pc.Idle? { procs := procs[p := if key == IPC_PRIVATE || key == -1 then Idle(-1) else OpenGet(key)]; }
        case CallClose(p, id) => if pc.Idle? { procs := procs[p := CloseOp(id)]; }
        case CallOp(p, id, value) => if pc.Idle? { procs := procs[p := Op(id, value)]; }
        case CallRm(p, id) => if pc.Idle? { procs := procs[p := Rm(id)]; }
      }
    }

    /** Any schedule, from no sets at all. If sem_close is called on open sets only and the counter is never
        exhausted, the invariant holds of the tables at the end, and with it lock and counter of every set. */
    method Execute(n: nat, es: seq<Event>)
      requires View() == Init(n)
      modifies this
      ensures View() == After(n, es)
      ensures AllowedRun(n, es) ==> Inv(View()) && forall id :: id in sets ==> LockAndCounterOk(View(), id)
    {
      InitShaped(n);
      var i := 0;
      while i < |es|
        invariant 0 <= i <= |es| && Shaped(View()) && View() == After(n, es[..i])
      {
        Deliver(es[i]);
        i := i + 1;
        assert es[..i][..i - 1] == es[..i - 1];
      }
      assert es[..i] == es;
      if AllowedRun(n, es) {
        RunsKeepInv(n, es);
        forall id | id in sets ensures LockAndCounterOk(View(), id) { LockAndCounterHere(View(), id); }
      }
    }
  }
}
