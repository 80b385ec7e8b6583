/** What P and V must keep to, so that initialisation wipes out no P or V that somebody may still undo: the
    set is open. Everything else in the library holds whoever calls them. */
module SemDiscipline {
  import opened SemKernel
  import opened SemProtocol
  import opened SemRuns
  import opened SemSafety

  /** An allowed run in which P and V are called on sets one has open only. */
  ghost predicate DisciplinedRun(n: nat, es: seq<Event>)
    requires AllowedRun(n, es)
    decreases |es|
  {
    es == [] ||
    var front, e := es[..|es| - 1], es[|es| - 1];
    DisciplinedRun(n, front) && (e.CallOp? ==> HasOpen(After(n, front), e.p, e.id))
  }

  /** No adjustment on member [0] before both members are set ... */
  ghost predicate Untouched(t: SemSet, h: Hist) {
    h.init1 || (|t.adj| == MEMBERS && t.adj[0] == Zeros(|t.adj[0]|))
  }

  ghost predicate OnlyUsers(s: State)
    requires Shaped(s)
  {
    && (forall id :: id in s.sets ==> Untouched(s.sets[id], s.hist[id]))
    && (forall p :: 0 <= p < |s.procs| && s.procs[p].Op? ==> HasOpen(s, p, s.procs[p].id))
  }

  // ----- what one event does

  /** The event leaves the sets as they are, or takes some away. */
  lemma FewerSets(s: State, s': State, p: nat)
    requires Shaped(s) && Shaped(s') && OnlyUsers(s) && OthersStay(s, s', p) && s'.nextId == s.nextId
    requires forall id :: id in s'.sets ==> id in s.sets && s'.sets[id] == s.sets[id] && s'.hist[id] == s.hist[id]
    requires p < |s.procs| && s'.procs[p].Op? ==> HasOpen(s, p, s'.procs[p].id)
    ensures OnlyUsers(s')
  {
  }

  /** Only set `id` changes: no adjustment on [0] unless it is initialised, and no registration of another
      process unless it was not. */
  lemma OneSet(s: State, s': State, p: nat, id: int)
    requires Inv(s) && Shaped(s') && OnlyUsers(s) && OthersStay(s, s', p) && s'.nextId == s.nextId && p < |s.procs|
    requires id in s.sets && s'.sets.Keys == s.sets.Keys && !s'.procs[p].Op?
    requires forall i :: i in s.sets && i != id ==> s'.sets[i] == s.sets[i] && s'.hist[i] == s.hist[i]
    requires Untouched(s'.sets[id], s'.hist[id])
    requires !s.hist[id].init1 ||
             forall q :: 0 <= q < |s.procs| && q != p ==> s'.sets[id].adj[1][q] == s.sets[id].adj[1][q]
    ensures OnlyUsers(s')
  {
    forall q | 0 <= q < |s'.procs| && s'.procs[q].Op? ensures HasOpen(s', q, s'.procs[q].id) {
      assert q != p && HasOpen(s, q, s.procs[q].id);
      assert ProcOk(s.procs[q], q, id, s.sets[id], s.hist[id]);
    }
  }

  lemma ExitStep(s: State, p: nat)
    requires Inv(s) && OnlyUsers(s) && p < |s.procs|
    ensures OnlyUsers(Exit(s, p))
  {
    var s' := Exit(s, p);
    forall q | 0 <= q < |s'.procs| && s'.procs[q].Op? ensures HasOpen(s', q, s'.procs[q].id) {
      assert q != p && HasOpen(s, q, s.procs[q].id);
    }
    forall id | id in s'.sets ensures Untouched(s'.sets[id], s'.hist[id]) {
      assert Untouched(s.sets[id], s.hist[id]);
      if !s.hist[id].init1 { assert s'.sets[id].adj[0] == Zeros(|s.procs|)[p := 0] == Zeros(|s.procs|); }
    }
  }

  /** A semop of the library that leaves member [0] alone. */
  lemma SemopStep(s: State, p: nat, id: int, ops: seq<Sembuf>, next: Pc)
    requires Inv(s) && OnlyUsers(s) && p < |s.procs| && ValidOps(ops) && !next.Op?
    requires forall k :: 0 <= k < |ops| ==> ops[k].num > 0 && (ops[k].undo || ops[k].op == 0)
    ensures OnlyUsers(DoSemop(s, p, id, ops, next))
  {
    hide Exit, Semop;
    if id !in s.sets {
      ExitStep(s, p);
    } else if Semop(s.sets[id], p, ops).Done? {
      var s' := DoSemop(s, p, id, ops, next);
      SemopConserves(s.sets[id], p, ops, |s.procs|);
      SemopLeaves(s.sets[id], p, ops, |s.procs|);
      assert Untouched(s.sets[id], s.hist[id]);
      OneSet(s, s', p, id);
    }
  }

  lemma {:induction false} SemopLeaves(t: SemSet, p: nat, ops: seq<Sembuf>, n: nat)
    requires Shape(t, n) && p < n && ValidOps(ops) && Semop(t, p, ops).Done?
    requires forall k :: 0 <= k < |ops| ==> ops[k].num > 0 && (ops[k].undo || ops[k].op == 0)
    ensures Semop(t, p, ops).t.adj[0] == t.adj[0]
    decreases |ops|
  {
    if ops != [] {
      AddConserves(t, p, ops[0], n);
      assert CanProceed(t.val[ops[0].num], ops[0].op);
      SemopLeaves(Add(t, p, ops[0]), p, ops[1..], n);
    }
  }

  /** P and V: the set is open, so it is initialised. */
  lemma OpStep(s: State, p: nat)
    requires Inv(s) && OnlyUsers(s) && p < |s.procs| && s.procs[p].Op? && s.procs[p].value != 0
    ensures OnlyUsers(StepGo(s, p))
  {
    hide Exit, Semop;
    var id, ops := s.procs[p].id, OpOp(s.procs[p].value);
    assert HasOpen(s, p, id);
    if id !in s.sets {
      ExitStep(s, p);
    } else if Semop(s.sets[id], p, ops).Done? {
      SemopConserves(s.sets[id], p, ops, |s.procs|);
      assert ProcOk(s.procs[p], p, id, s.sets[id], s.hist[id]);
      OneSet(s, StepGo(s, p), p, id);
    }
  }

  lemma LockStep(s: State, p: nat, initval: int, id: int)
    requires Inv(s) && OnlyUsers(s) && p < |s.procs| && id in s.sets
    ensures OnlyUsers(LockForCreate(s, p, initval, id))
  {
    hide Exit, Semop;
    var s' := LockForCreate(s, p, initval, id);
    if Semop(s.sets[id], p, OP_LOCK).Done? {
      SemopConserves(s.sets[id], p, OP_LOCK, |s.procs|);
      SemopLeaves(s.sets[id], p, OP_LOCK, |s.procs|);
      assert Untouched(s.sets[id], s.hist[id]);
      OneSet(s, s', p, id);
    } else {
      FewerSets(s, s', p);
    }
  }

  lemma SetvalStep(s: State, p: nat)
    requires Inv(s) && OnlyUsers(s) && p < |s.procs| && (s.procs[p].CreateSet0? || s.procs[p].CreateSet1?)
    ensures OnlyUsers(StepGo(s, p))
  {
    hide Exit, Semop;
    var id := s.procs[p].id;
    if id !in s.sets || (s.procs[p].CreateSet0? && s.procs[p].initval < 0) {
      ExitStep(s, p);
    } else {
      assert ProcOk(s.procs[p], p, id, s.sets[id], s.hist[id]);
      OneSet(s, StepGo(s, p), p, id);
    }
  }

  lemma ReturnStep(s: State, id: int)
    requires Shaped(s) && OnlyUsers(s)
    ensures OnlyUsers(MarkReturned(s, id))
  {
    var s' := MarkReturned(s, id);
    forall i | i in s'.sets ensures Untouched(s'.sets[i], s'.hist[i]) {
      assert Untouched(s.sets[i], s.hist[i]);
    }
    forall q | 0 <= q < |s'.procs| && s'.procs[q].Op? ensures HasOpen(s', q, s'.procs[q].id) {
      assert HasOpen(s, q, s.procs[q].id);
    }
  }

  lemma CreateStep(s: State, p: nat)
    requires Inv(s) && OnlyUsers(s) && p < |s.procs| && s.procs[p].CreateGet?
    ensures OnlyUsers(StepGo(s, p))
  {
    hide Exit, Semop, DoSemop, Remove, LockForCreate;
    var s' := StepGo(s, p);
    if s.procs[p].key in s.keys {
      FewerSets(s, s', p);
    } else {
      assert Untouched(FreshSet(|s.procs|), s'.hist[s.nextId]);
      forall i | i in s'.sets ensures Untouched(s'.sets[i], s'.hist[i]) {
        if i != s.nextId { assert Untouched(s.sets[i], s.hist[i]); }
      }
      forall q | 0 <= q < |s'.procs| && s'.procs[q].Op? ensures HasOpen(s', q, s'.procs[q].id) {
        assert q != p && HasOpen(s, q, s.procs[q].id);
      }
    }
  }

  lemma RemoveStep(s: State, p: nat, id: int)
    requires Inv(s) && OnlyUsers(s) && p < |s.procs|
    ensures OnlyUsers(Remove(s, p, id))
  {
    hide Exit;
    if id in s.sets { FewerSets(s, Remove(s, p, id), p); } else { ExitStep(s, p); }
  }

  lemma GetvalStep(s: State, p: nat)
    requires Inv(s) && OnlyUsers(s) && p < |s.procs| && (s.procs[p].CreateGetval? || s.procs[p].CloseGetval?)
    ensures OnlyUsers(StepGo(s, p))
  {
    hide Exit, Semop, DoSemop, Remove, LockForCreate;
    var id := s.procs[p].id;
    if id !in s.sets {
      ExitStep(s, p);
    } else {
      CounterBound(s.procs, id, s.sets[id], s.hist[id]);
      FewerSets(s, StepGo(s, p), p);
    }
  }

  lemma GoStep(s: State, p: nat)
    requires Shaped(s) && Inv(s) && OnlyUsers(s) && p < |s.procs|
    ensures OnlyUsers(StepGo(s, p))
  {
    hide Inv, OnlyUsers, Exit, DoSemop, Remove, LockForCreate, MarkReturned;
    match s.procs[p]
    case Idle(_) =>
    case CreateGet(_, _) => CreateStep(s, p);
    case CreateLock(key, initval, id) =>
      if id in s.sets { LockStep(s, p, initval, id); } else { MoveStep(s, p, CreateGet(key, initval)); }
    case CreateBlocked(initval, id) => if id in s.sets { LockStep(s, p, initval, id); } else { ExitStep(s, p); }
    case CreateGetval(_, _) => GetvalStep(s, p);
    case CreateSet0(_, _) => SetvalStep(s, p);
    case CreateSet1(_) => SetvalStep(s, p);
    case CreateEnd(id) =>
      SemopStep(s, p, id, OP_ENDCREATE, Idle(id));
      ReturnStep(DoSemop(s, p, id, OP_ENDCREATE, Idle(id)), id);
    case OpenGet(key) => MoveStep(s, p, StepGo(s, p).procs[p]);
    case OpenOp(id) =>
      SemopStep(s, p, id, OP_OPEN, Idle(id));
      ReturnStep(DoSemop(s, p, id, OP_OPEN, Idle(id)), id);
    case CloseOp(id) => SemopStep(s, p, id, OP_CLOSE, CloseGetval(id));
    case CloseGetval(_) => GetvalStep(s, p);
    case CloseRm(id) => RemoveStep(s, p, id);
    case CloseUnlock(id) => SemopStep(s, p, id, OP_UNLOCK, Idle(0));
    case Op(_, value) => if value == 0 { ExitStep(s, p); } else { OpStep(s, p); }
    case Rm(id) => RemoveStep(s, p, id);
  }

  lemma MoveStep(s: State, p: nat, pc: Pc)
    requires Inv(s) && OnlyUsers(s) && p < |s.procs|
    requires pc.Op? ==> HasOpen(s, p, pc.id)
    ensures OnlyUsers(SetPc(s, p, pc))
  {
    FewerSets(s, SetPc(s, p, pc), p);
  }

  lemma StepKeepsOnlyUsers(s: State, e: Event)
    requires Shaped(s) && Inv(s) && OnlyUsers(s) && (e.CallOp? ==> HasOpen(s, e.p, e.id))
    ensures OnlyUsers(Step(s, e))
  {
    hide Inv, OnlyUsers, Exit, StepGo, HasOpen;
    if e.p < |s.procs| {
      if e.Crash? {
        ExitStep(s, e.p);
      } else if e.Go? {
        GoStep(s, e.p);
      } else if Step(s, e) != s {
        MoveStep(s, e.p, Step(s, e).procs[e.p]);
      }
    }
  }

  // ----- the result

  lemma {:induction false} OnlyUsersThroughout(n: nat, es: seq<Event>)
    requires AllowedRun(n, es) && DisciplinedRun(n, es)
    ensures OnlyUsers(After(n, es))
    decreases |es|
  {
    hide OnlyUsers, Step;
    InitShaped(n);
    if es == [] {
      assert OnlyUsers(After(n, es)) by { NobodyYet(n); }
    } else {
      OnlyUsersThroughout(n, es[..|es| - 1]);
      RunsKeepInv(n, es[..|es| - 1]);
      StepKeepsOnlyUsers(After(n, es[..|es| - 1]), es[|es| - 1]);
    }
  }

  lemma NobodyYet(n: nat)
    ensures Shaped(Init(n)) && OnlyUsers(Init(n))
  {
    InitShaped(n);
  }

  /** Where P and V keep to open sets, the SETVALs of sem_create wipe out no adjustment whatever. */
  lemma SetvalWipesNothing(n: nat, es: seq<Event>, id: int, p: nat)
    requires AllowedRun(n, es) && DisciplinedRun(n, es) && id in After(n, es).sets && p < n
    requires Initialising(After(n, es).procs[p], id)
    ensures var t := After(n, es).sets[id];
      forall q :: 0 <= q < n ==> t.adj[0][q] == 0 && t.adj[1][q] == 0
  {
    InitialisationIsSafe(n, es, id, p);
    RunsKeepInv(n, es);
    OnlyUsersThroughout(n, es);
    var s := After(n, es);
    assert ProcOk(s.procs[p], p, id, s.sets[id], s.hist[id]) && Untouched(s.sets[id], s.hist[id]);
  }
}
