/** When sem_close may remove a set: nobody is registered exactly if everybody who opened it since the
    closer looked has died. */
module SemRemoval {
  import opened SemKernel
  import opened SemProtocol
  import opened SemRuns
  import opened SemSafety
  import opened Sums

  // ----- ids are never reused

  lemma ExitIds(s: State, p: nat)
    requires Shaped(s) && p < |s.procs|
    ensures Exit(s, p).sets.Keys == s.sets.Keys
  {
  }

  lemma CallIds(s: State, p: nat, id: int, ops: seq<Sembuf>, next: Pc, initval: int)
    requires Shaped(s) && p < |s.procs| && ValidOps(ops)
    ensures DoSemop(s, p, id, ops, next).sets.Keys == s.sets.Keys
    ensures Remove(s, p, id).sets.Keys <= s.sets.Keys
    ensures id in s.sets ==> LockForCreate(s, p, initval, id).sets.Keys == s.sets.Keys
  {
    hide Semop, Exit;
    ExitIds(s, p);
  }

  predicate Creating(pc: Pc) {
    pc.CreateLock? || pc.CreateBlocked? || pc.CreateGetval? || pc.CreateSet0? || pc.CreateSet1? || pc.CreateEnd?
  }

  lemma CreatorsMakeNoIds(s: State, p: nat, id: int)
    requires Shaped(s) && p < |s.procs| && Creating(s.procs[p])
    ensures id in StepGo(s, p).sets ==> id in s.sets
  {
    hide Exit, DoSemop, LockForCreate, SetVal;
    ExitIds(s, p);
    match s.procs[p]
    case CreateLock(_, initval, i) => CallIds(s, p, i, [], Idle(0), initval);
    case CreateBlocked(initval, i) => CallIds(s, p, i, [], Idle(0), initval);
    case CreateEnd(i) => CallIds(s, p, i, OP_ENDCREATE, Idle(i), 0);
    case CreateGetval(_, _) =>
    case CreateSet0(_, _) =>
    case CreateSet1(_) =>
  }

  /** Only a semget that creates brings an id into being. */
  lemma NoNewIds(s: State, p: nat, id: int)
    requires Shaped(s) && p < |s.procs| && !s.procs[p].CreateGet?
    ensures id in StepGo(s, p).sets ==> id in s.sets
  {
    hide Exit, DoSemop, Remove, LockForCreate, SetVal;
    if Creating(s.procs[p]) {
      CreatorsMakeNoIds(s, p, id);
    } else {
      ExitIds(s, p);
      match s.procs[p]
      case OpenOp(i) => CallIds(s, p, i, OP_OPEN, Idle(i), 0);
      case CloseOp(i) => CallIds(s, p, i, OP_CLOSE, CloseGetval(i), 0);
      case CloseUnlock(i) => CallIds(s, p, i, OP_UNLOCK, Idle(0), 0);
      case Op(i, value) => CallIds(s, p, i, OpOp(value), Idle(0), 0);
      case CloseRm(i) => CallIds(s, p, i, [], Idle(0), 0);
      case Rm(i) => CallIds(s, p, i, [], Idle(0), 0);
      case Idle(_) =>
      case OpenGet(_) =>
      case CloseGetval(_) =>
    }
  }

  /** A set that a process refers to cannot come into being. */
  lemma StaysOut(s: State, e: Event, id: int, q: nat)
    requires Inv(s) && q < |s.procs| && PcId(s.procs[q]) == id
    ensures id in Step(s, e).sets ==> id in s.sets
  {
    hide SetOk, DoSemop, Remove, LockForCreate;
    if e.Go? && e.p < |s.procs| && !s.procs[e.p].CreateGet? { NoNewIds(s, e.p, id); }
  }

  // ----- what happens to the registrations while a closer holds the lock

  /** The event is the semop of a sem_open on `id`, and it succeeds. */
  ghost predicate Opens(s: State, e: Event, id: int)
    requires Shaped(s)
  {
    e.Go? && e.p < |s.procs| && s.procs[e.p] == OpenOp(id) && Step(s, e).procs[e.p] == Idle(id)
  }

  /** The event ends the process: a crash, or a system call whose failure makes the library exit. */
  ghost predicate Dies(s: State, e: Event)
    requires Shaped(s)
  {
    e.p < |s.procs| &&
    (e.Crash? ||
     (e.Go? && !s.procs[e.p].Idle? && !s.procs[e.p].OpenGet? &&
      StepGo(s, e.p).(dumped := s.dumped) == Exit(s, e.p)))
  }

  /** How one event changes the registrations in a set: its process gains one, loses all, or keeps its own. */
  ghost predicate Registers(s: State, e: Event, id: int, t: SemSet, t': SemSet)
    requires Shaped(s) && e.p < |s.procs| && Shape(t, |s.procs|) && Shape(t', |s.procs|)
  {
    && (forall q :: 0 <= q < |s.procs| && q != e.p ==> t'.adj[1][q] == t.adj[1][q])
    && t'.adj[1][e.p] == if Opens(s, e, id) then t.adj[1][e.p] + 1 else if Dies(s, e) then 0 else t.adj[1][e.p]
  }

  lemma ExitUndoes(s: State, p: nat, id: int)
    requires Shaped(s) && p < |s.procs| && id in s.sets
    ensures Exit(s, p).hist.Keys == s.sets.Keys && Exit(s, p).procs[p] == Idle(-1) && Exit(s, p).dumped == s.dumped
    ensures var t' := Exit(s, p).sets[id];
      t'.adj[1][p] == 0 && forall q :: 0 <= q < |s.procs| && q != p ==> t'.adj[1][q] == s.sets[id].adj[1][q]
  {
  }

  /** A semop on another set leaves this one alone, unless it makes the process exit. */
  lemma SemopElsewhere(s: State, p: nat, i: int, ops: seq<Sembuf>, next: Pc, id: int)
    requires Shaped(s) && p < |s.procs| && ValidOps(ops) && id in s.sets && i != id
    ensures i !in s.sets ==> DoSemop(s, p, i, ops, next) == Exit(s, p)
    ensures i in s.sets ==> DoSemop(s, p, i, ops, next).sets[id] == s.sets[id]
  {
    hide Semop, Exit;
  }

  /** A semop of sem_open, sem_close or P/V on this set, which is locked. */
  lemma SemopHere(s: State, p: nat, id: int, next: Pc, value: int)
    requires Shaped(s) && p < |s.procs| && id in s.sets && s.sets[id].val[2] == 1
    ensures DoSemop(s, p, id, OP_CLOSE, next) == s
    ensures var r := DoSemop(s, p, id, OP_OPEN, next);
      r == s || (r.procs[p] == next && r.sets[id].adj[1] == s.sets[id].adj[1][p := s.sets[id].adj[1][p] + 1])
    ensures value != 0 ==> DoSemop(s, p, id, OpOp(value), next).sets[id].adj[1] == s.sets[id].adj[1]
  {
    hide Semop;
    var t, n := s.sets[id], |s.procs|;
    CloseEffect(t, p, n);
    SingleEffect(t, p, OP_OPEN[0], n);
    if value != 0 { SingleEffect(t, p, Sembuf(0, value, true), n); }
  }

  /** Creators and removers do not touch the registrations of a locked set that stays. */
  lemma LockedElsewhere(s: State, p: nat, i: int, initval: int, id: int)
    requires Shaped(s) && p < |s.procs| && id in s.sets && s.sets[id].val[2] == 1
    ensures i in s.sets ==> LockForCreate(s, p, initval, i).sets[id].adj[1] == s.sets[id].adj[1]
    ensures i in s.sets && i != id ==> Remove(s, p, i).sets[id] == s.sets[id]
    ensures i in s.sets && i == id ==> id !in Remove(s, p, i).sets
    ensures i !in s.sets ==> Remove(s, p, i) == Exit(s, p)
  {
    hide Semop, Exit;
    if i in s.sets { LockEffect(s.sets[i], p, |s.procs|); }
  }

  /** The system call of `p` makes it exit, leaves the registrations in `id` alone, or is a successful open. */
  ghost predicate Outcome(s: State, p: nat, id: int)
    requires Shaped(s) && p < |s.procs| && id in s.sets && id in StepGo(s, p).sets
  {
    || StepGo(s, p).(dumped := s.dumped) == Exit(s, p)
    || StepGo(s, p).sets[id].adj[1] ==
         if s.procs[p] == OpenOp(id) && StepGo(s, p).procs[p] == Idle(id)
         then s.sets[id].adj[1][p := s.sets[id].adj[1][p] + 1] else s.sets[id].adj[1]
  }

  lemma CreatorOutcome(s: State, p: nat, id: int)
    requires Shaped(s) && p < |s.procs| && 0 <= id && id in s.sets && id in StepGo(s, p).sets && Creating(s.procs[p])
    requires s.sets[id].val[2] == 1 && !InCs(s.procs[p], id)
    ensures Outcome(s, p, id)
  {
    hide Exit, DoSemop, LockForCreate, SetVal;
    ExitUndoes(s, p, id);
    match s.procs[p]
    case CreateLock(_, initval, i) => LockedElsewhere(s, p, i, initval, id);
    case CreateBlocked(initval, i) => LockedElsewhere(s, p, i, initval, id);
    case CreateEnd(i) => SemopElsewhere(s, p, i, OP_ENDCREATE, Idle(i), id);
    case CreateGetval(_, _) =>
    case CreateSet0(_, _) =>
    case CreateSet1(_) =>
  }

  lemma GoOutcome(s: State, p: nat, id: int)
    requires Shaped(s) && p < |s.procs| && 0 <= id < s.nextId && id in s.sets && id in StepGo(s, p).sets
    requires s.sets[id].val[2] == 1 && !InCs(s.procs[p], id)
    ensures Outcome(s, p, id)
  {
    hide Exit, DoSemop, Remove, LockForCreate, SetVal, FreshSet;
    if Creating(s.procs[p]) {
      CreatorOutcome(s, p, id);
    } else {
      ExitUndoes(s, p, id);
      match s.procs[p]
      case OpenOp(i) =>
        if i == id { SemopHere(s, p, id, Idle(id), 0); } else { SemopElsewhere(s, p, i, OP_OPEN, Idle(i), id); }
      case CloseOp(i) =>
        if i == id {
          SemopHere(s, p, id, CloseGetval(id), 0);
        } else {
          SemopElsewhere(s, p, i, OP_CLOSE, CloseGetval(i), id);
        }
      case CloseUnlock(i) => SemopElsewhere(s, p, i, OP_UNLOCK, Idle(0), id);
      case Op(i, value) =>
        if i == id { SemopHere(s, p, id, Idle(0), value); } else { SemopElsewhere(s, p, i, OpOp(value), Idle(0), id); }
      case CloseRm(i) => LockedElsewhere(s, p, i, 0, id);
      case Rm(i) => LockedElsewhere(s, p, i, 0, id);
      case Idle(_) =>
      case CreateGet(_, _) =>
      case OpenGet(_) =>
      case CloseGetval(_) =>
    }
  }

  lemma GoRegisters(s: State, p: nat, id: int)
    requires Shaped(s) && p < |s.procs| && 0 <= id < s.nextId && id in s.sets && id in StepGo(s, p).sets
    requires s.sets[id].val[2] == 1 && !InCs(s.procs[p], id)
    ensures Registers(s, Event.Go(p), id, s.sets[id], StepGo(s, p).sets[id])
  {
    hide StepGo, Exit;
    GoOutcome(s, p, id);
    ExitUndoes(s, p, id);
    if s.procs[p].Idle? || s.procs[p].OpenGet? { GoIdle(s, p); }
  }

  lemma GoIdle(s: State, p: nat)
    requires Shaped(s) && p < |s.procs| && (s.procs[p].Idle? || s.procs[p].OpenGet?)
    ensures StepGo(s, p).sets == s.sets
  {
  }

  // ----- over a run

  /** Every prefix of an allowed run is allowed. */
  lemma {:induction false} AllowedPrefix(n: nat, es: seq<Event>, i: nat)
    requires AllowedRun(n, es) && i <= |es|
    ensures AllowedRun(n, es[..i])
    decreases |es|
  {
    if i == |es| {
      assert es[..i] == es;
    } else {
      AllowedPrefix(n, es[..|es| - 1], i);
      assert es[..|es| - 1][..i] == es[..i];
    }
  }

  /** The closer `p` read BIGCOUNT from the counter of `id` in event g - 1, and has stood before its
      IPC_RMID since. */
  ghost predicate Closing(n: nat, es: seq<Event>, g: nat, p: nat, id: int) {
    && 1 <= g <= |es| && p < n && es[g - 1] == Event.Go(p)
    && After(n, es[..g - 1]).procs[p] == CloseGetval(id)
    && forall k :: g <= k <= |es| ==> After(n, es[..k]).procs[p] == CloseRm(id)
  }

  /** The processes whose sem_open on `id` has succeeded since event `g`, and that have not died since. */
  ghost function Joined(n: nat, es: seq<Event>, g: nat, id: int): set<nat>
    decreases |es|
  {
    if |es| <= g then {} else
    var front, e := es[..|es| - 1], es[|es| - 1];
    if Opens(After(n, front), e, id) then Joined(n, front, g, id) + {e.p}
    else if Dies(After(n, front), e) then Joined(n, front, g, id) - {e.p}
    else Joined(n, front, g, id)
  }

  /** Exactly those processes are registered. */
  ghost predicate JoinedAre(s: State, id: int, joined: set<nat>)
    requires Shaped(s)
  {
    id in s.sets && forall q: nat :: q < |s.procs| ==> (s.sets[id].adj[1][q] != 0 <==> q in joined)
  }

  /** What the closer's GETVAL shows: the counter reads BIGCOUNT, so nobody is registered. */
  lemma GetvalShows(s: State, p: nat, id: int)
    requires Inv(s) && p < |s.procs| && s.procs[p] == CloseGetval(id) && StepGo(s, p).procs[p] == CloseRm(id)
    ensures Step(s, Event.Go(p)).sets == s.sets && JoinedAre(Step(s, Event.Go(p)), id, {})
  {
    hide Semop, SetVal;
    assert id in s.sets && s.sets[id].val[1] == BIGCOUNT;
    assert ProcOk(s.procs[p], p, id, s.sets[id], s.hist[id]);
    CounterBound(s.procs, id, s.sets[id], s.hist[id]);
  }

  /** One event while `p`, at its IPC_RMID, holds the lock of `id`. */
  lemma StepRegisters(s: State, e: Event, p: nat, id: int, joined: set<nat>)
    requires Inv(s) && p < |s.procs| && s.procs[p] == Step(s, e).procs[p] == CloseRm(id) && id in Step(s, e).sets
    requires JoinedAre(s, id, joined)
    ensures JoinedAre(Step(s, e), id,
      if Opens(s, e, id) then joined + {e.p} else if Dies(s, e) then joined - {e.p} else joined)
  {
    hide StepGo, Exit, SetOk, ProcOk;
    var t, n := s.sets[id], |s.procs|;
    LockHeld(s.procs, id, t, s.hist[id], p);
    if e.p == p {
      if e.Go? { CloserLeaves(s, p); }
      if e.Crash? { ExitUndoes(s, p, id); }
    } else if e.p < n && e.Go? {
      if InCs(s.procs[e.p], id) { AtMostOneInCs(s.procs, id, t, s.hist[id], p, e.p); }
      GoRegisters(s, e.p, id);
      Registration(s, e.p, id);
    } else if e.p < n && e.Crash? {
      ExitUndoes(s, e.p, id);
    }
  }

  lemma CloserLeaves(s: State, p: nat)
    requires Shaped(s) && p < |s.procs| && s.procs[p].CloseRm?
    ensures !StepGo(s, p).procs[p].CloseRm?
  {
    RemoveEnds(s, p, s.procs[p].id);
  }

  lemma RemoveEnds(s: State, p: nat, id: int)
    requires Shaped(s) && p < |s.procs|
    ensures Remove(s, p, id).procs[p].Idle?
  {
  }

  lemma Registration(s: State, q: nat, id: int)
    requires Inv(s) && q < |s.procs| && id in s.sets
    ensures s.sets[id].adj[1][q] >= 0
  {
    assert ProcOk(s.procs[q], q, id, s.sets[id], s.hist[id]);
  }

  /** While a closer stands between its GETVAL and its IPC_RMID, the registered processes are those that
      have opened the set since then and are still alive. */
  lemma {:induction false} JoinedAreRegistered(n: nat, es: seq<Event>, g: nat, p: nat, id: int)
    requires AllowedRun(n, es) && Closing(n, es, g, p, id) && id in After(n, es).sets
    ensures JoinedAre(After(n, es), id, Joined(n, es, g, id))
    decreases |es|
  {
    hide StepGo, Opens, Dies, JoinedAre, Inv;
    var front, e := es[..|es| - 1], es[|es| - 1];
    assert es[..|es|] == es;
    RunsKeepInv(n, front);
    if |es| == g {
      GetvalShows(After(n, front), p, id);
    } else {
      ClosingBefore(n, es, g, p, id);
      StaysOut(After(n, front), e, id, p);
      JoinedAreRegistered(n, front, g, p, id);
      StepRegisters(After(n, front), e, p, id, Joined(n, front, g, id));
    }
  }

  lemma ClosingBefore(n: nat, es: seq<Event>, g: nat, p: nat, id: int)
    requires Closing(n, es, g, p, id) && g < |es|
    ensures Closing(n, es[..|es| - 1], g, p, id)
    ensures After(n, es[..|es| - 1]).procs[p] == After(n, es).procs[p] == CloseRm(id)
  {
    hide Run;
    var front := es[..|es| - 1];
    assert es[..|es|] == es && front[..g - 1] == es[..g - 1];
    forall k | g <= k <= |front| ensures After(n, front[..k]).procs[p] == CloseRm(id) {
      assert front[..k] == es[..k];
    }
  }

  lemma ClosingOn(n: nat, es: seq<Event>, g: nat, p: nat, id: int)
    requires es != [] && Closing(n, es[..|es| - 1], g, p, id) && After(n, es).procs[p] == CloseRm(id)
    ensures Closing(n, es, g, p, id)
  {
    hide Run;
    var front := es[..|es| - 1];
    assert es[..|es|] == es && front[..g - 1] == es[..g - 1];
    forall k | g <= k <= |es| ensures After(n, es[..k]).procs[p] == CloseRm(id) {
      if k < |es| { assert front[..k] == es[..k]; }
    }
  }

  /** The removal of a sem_close is safe if and only if every process whose sem_open on the set succeeded
      after the closer's GETVAL has died since. */
  lemma RemovalIsSafeIffAllDied(n: nat, es: seq<Event>, g: nat, p: nat, id: int)
    requires AllowedRun(n, es) && Closing(n, es, g, p, id) && id in After(n, es).sets
    ensures (forall q :: 0 <= q < n ==> After(n, es).sets[id].adj[1][q] == 0) <==>
            forall q: nat :: q < n ==> q !in Joined(n, es, g, id)
  {
    hide Run, AllowedRun, Closing, Joined;
    JoinedAreRegistered(n, es, g, p, id);
  }

  /** The same on the counter, which a second GETVAL could read: nobody is registered exactly when it still
      is BIGCOUNT. */
  lemma RemovalIsSafeIff(n: nat, es: seq<Event>, p: nat)
    requires AllowedRun(n, es) && p < n
    requires After(n, es).procs[p].CloseRm? && After(n, es).procs[p].id in After(n, es).sets
    ensures var t := After(n, es).sets[After(n, es).procs[p].id];
      (forall q :: 0 <= q < n ==> t.adj[1][q] == 0) <==> t.val[1] == BIGCOUNT
  {
    RunsKeepInv(n, es);
    var s := After(n, es);
    var id := s.procs[p].id;
    assert ProcOk(s.procs[p], p, id, s.sets[id], s.hist[id]);
    CounterBound(s.procs, id, s.sets[id], s.hist[id]);
    if forall q :: 0 <= q < n ==> s.sets[id].adj[1][q] == 0 { SumOfZeros(s.sets[id].adj[1]); }
  }

  // ----- when processes join through sem_create alone

  predicate JoinsByCreateOnly(es: seq<Event>) {
    forall k :: 0 <= k < |es| ==> !es[k].CallOpen?
  }

  /** A system call leads to IPC_RMID from the GETVAL of sem_close only, and never into sem_open. */
  lemma WhereGoLeads(s: State, p: nat)
    requires Shaped(s) && p < |s.procs|
    ensures StepGo(s, p).procs[p].CloseRm? ==> s.procs[p].CloseGetval? && s.procs[p].id == StepGo(s, p).procs[p].id
    ensures !s.procs[p].OpenGet? && !s.procs[p].OpenOp? ==>
      !StepGo(s, p).procs[p].OpenGet? && !StepGo(s, p).procs[p].OpenOp?
  {
    hide Semop, SetVal, Undo;
    if s.procs[p].CloseRm? || s.procs[p].Rm? { RemoveEnds(s, p, s.procs[p].id); }
  }

  ghost predicate NobodyOpens(s: State) {
    forall q :: 0 <= q < |s.procs| ==> !s.procs[q].OpenGet? && !s.procs[q].OpenOp?
  }

  lemma {:induction false} NobodyEverOpens(n: nat, es: seq<Event>, g: nat, id: int)
    requires JoinsByCreateOnly(es)
    ensures NobodyOpens(After(n, es)) && Joined(n, es, g, id) == {}
    decreases |es|
  {
    hide StepGo;
    InitShaped(n);
    if es != [] {
      var s, e := After(n, es[..|es| - 1]), es[|es| - 1];
      NobodyEverOpens(n, es[..|es| - 1], g, id);
      assert !e.CallOpen?;
      if e.Go? && e.p < n { WhereGoLeads(s, e.p); }
      if e.Crash? && e.p < n { assert Exit(s, e.p).procs[e.p] == Idle(-1); }
    }
  }

  /** A process at IPC_RMID has come there by a GETVAL, and has not moved since. */
  lemma {:induction false} FindGetval(n: nat, es: seq<Event>, p: nat) returns (g: nat)
    requires p < n && After(n, es).procs[p].CloseRm?
    ensures Closing(n, es, g, p, After(n, es).procs[p].id)
    decreases |es|
  {
    hide StepGo;
    InitShaped(n);
    var front, e := es[..|es| - 1], es[|es| - 1];
    assert es[..|es|] == es;
    if e == Event.Go(p) {
      WhereGoLeads(After(n, front), p);
      g := |es|;
    } else {
      g := FindGetval(n, front, p);
      ClosingOn(n, es, g, p, After(n, es).procs[p].id);
    }
  }

  /** When processes join through sem_create only, sem_close removes a set only if no process has it open. */
  lemma CloseRemovesUnused(n: nat, es: seq<Event>, p: nat)
    requires AllowedRun(n, es) && JoinsByCreateOnly(es) && p < n
    requires After(n, es).procs[p].CloseRm? && After(n, es).procs[p].id in After(n, es).sets
    ensures var t := After(n, es).sets[After(n, es).procs[p].id];
      forall q :: 0 <= q < n ==> t.adj[1][q] == 0
  {
    var id := After(n, es).procs[p].id;
    var g := FindGetval(n, es, p);
    NobodyEverOpens(n, es, g, id);
    RemovalIsSafeIffAllDied(n, es, g, p, id);
  }
}
