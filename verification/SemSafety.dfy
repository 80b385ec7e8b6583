/** What every step of the semaphore protocol keeps, in every interleaving and with crashes anywhere. */
module SemSafety {
  import opened Options
  import opened SemKernel
  import opened SemProtocol
  import opened Sums

  /** The process holds the lock of set `id`: between a lock and the matching unlock. */
  predicate InCs(pc: Pc, id: int) {
    match pc
    case CreateGetval(_, i) => i == id
    case CreateSet0(_, i) => i == id
    case CreateSet1(i) => i == id
    case CreateEnd(i) => i == id
    case CloseGetval(i) => i == id
    case CloseRm(i) => i == id
    case CloseUnlock(i) => i == id
    case _ => false
  }

  predicate Initialising(pc: Pc, id: int) {
    (pc.CreateSet0? || pc.CreateSet1?) && pc.id == id
  }

  ghost predicate ProcOk(pc: Pc, p: nat, id: int, t: SemSet, h: Hist)
    requires |t.val| == |t.adj| == MEMBERS && p < |t.adj[1]| && p < |t.adj[2]|
  {
    && t.adj[2][p] == (if InCs(pc, id) then -1 else 0)
    && t.adj[1][p] >= 0
    && (pc == CloseOp(id) ==> t.adj[1][p] >= 1)
    && (Initialising(pc, id) ==> !h.init1)
    && (pc == CreateSet1(id) ==> h.init0.Some?)
    && (InCs(pc, id) && !pc.CreateGetval? && !Initialising(pc, id) ==> h.init1)
  }

  /** The state of one live set. */
  ghost predicate SetOk(procs: seq<Pc>, id: int, t: SemSet, h: Hist) {
    && Shape(t, |procs|)
    && t.val[2] <= 1
    && Level(t, 2) == 0
    && (h.init1 ==> Level(t, 1) == BIGCOUNT && h.init0.Some?)
    && (h.init1 || (t.val[1] == 0 && !h.returned && t.adj[1] == Zeros(|procs|)))
    && (h.init0.Some? ==> Level(t, 0) == h.init0.value + h.lost)
    && h.lost >= 0
    && forall p :: 0 <= p < |procs| ==> ProcOk(procs[p], p, id, t, h)
  }

  ghost predicate Inv(s: State) {
    && Shaped(s)
    && !s.dumped && 0 <= s.nextId
    && (forall id :: id in s.sets ==> 0 <= id < s.nextId && SetOk(s.procs, id, s.sets[id], s.hist[id]))
    && (forall k :: k in s.keys ==> s.keys[k] in s.sets)
    && (forall p :: 0 <= p < |s.procs| ==> PcId(s.procs[p]) < s.nextId)
  }

  function PcId(pc: Pc): int {
    match pc
    case Idle(_) => -1
    case CreateGet(_, _) => -1
    case OpenGet(_) => -1
    case CreateLock(_, _, id) => id
    case CreateBlocked(_, id) => id
    case CreateGetval(_, id) => id
    case CreateSet0(_, id) => id
    case CreateSet1(id) => id
    case CreateEnd(id) => id
    case OpenOp(id) => id
    case CloseOp(id) => id
    case CloseGetval(id) => id
    case CloseRm(id) => id
    case CloseUnlock(id) => id
    case Op(_, _) => -1
    case Rm(_) => -1
  }

  // ----- one set, one process at a time

  lemma AtMostOneInCs(procs: seq<Pc>, id: int, t: SemSet, h: Hist, p: nat, q: nat)
    requires SetOk(procs, id, t, h) && p < |procs| && q < |procs| && p != q
    requires InCs(procs[p], id)
    ensures !InCs(procs[q], id)
  {
    if InCs(procs[q], id) {
      assert ProcOk(procs[p], p, id, t, h) && ProcOk(procs[q], q, id, t, h);
      forall k | 0 <= k < |procs| ensures t.adj[2][k] <= 0 {
        assert ProcOk(procs[k], k, id, t, h);
      }
      SumOfTwo(t.adj[2], p, q);
      assert false;
    }
  }

  lemma LockHeld(procs: seq<Pc>, id: int, t: SemSet, h: Hist, p: nat)
    requires SetOk(procs, id, t, h) && p < |procs| && InCs(procs[p], id)
    ensures t.val[2] == 1
  {
    assert ProcOk(procs[p], p, id, t, h);
    var neg := seq(|procs|, k requires 0 <= k < |procs| => -t.adj[2][k]);
    forall k | 0 <= k < |procs| ensures neg[k] >= 0 {
      assert ProcOk(procs[k], k, id, t, h);
    }
    SumNegate(t.adj[2], neg);
    SumAtLeast(neg, p);
  }

  /** The process counter never exceeds BIGCOUNT, and what is missing from it is registrations. */
  lemma CounterBound(procs: seq<Pc>, id: int, t: SemSet, h: Hist)
    requires SetOk(procs, id, t, h)
    ensures t.val[1] <= BIGCOUNT
    ensures h.init1 && t.val[1] == BIGCOUNT ==> forall p :: 0 <= p < |procs| ==> t.adj[1][p] == 0
  {
    forall k | 0 <= k < |procs| ensures t.adj[1][k] >= 0 {
      assert ProcOk(procs[k], k, id, t, h);
    }
    SumNonNegative(t.adj[1]);
  }

  /** A step of `p` that leaves the set alone and stays within what `ProcOk` asks. */
  lemma MovePc(procs: seq<Pc>, id: int, t: SemSet, h: Hist, p: nat, pc: Pc)
    requires SetOk(procs, id, t, h) && p < |procs| && ProcOk(pc, p, id, t, h)
    ensures SetOk(procs[p := pc], id, t, h)
  {
    var procs' := procs[p := pc];
    forall q | 0 <= q < |procs| ensures ProcOk(procs'[q], q, id, t, h) {
      assert ProcOk(procs[q], q, id, t, h);
    }
  }

  /** A successful semop by `p` from this library's arrays. */
  lemma MoveSemop(procs: seq<Pc>, id: int, t: SemSet, h: Hist, p: nat, ops: seq<Sembuf>, pc: Pc, h': Hist)
    requires SetOk(procs, id, t, h) && p < |procs|
    requires ValidOps(ops) && forall k :: 0 <= k < |ops| ==> ops[k].undo || ops[k].op == 0
    requires Semop(t, p, ops).Done?
    requires Shape(Semop(t, p, ops).t, |procs|)
    requires Semop(t, p, ops).t.val[2] <= 1
    requires h' == h || (h.init1 && h' == h.(returned := true))
    requires h.init1 || (Semop(t, p, ops).t.val[1] == t.val[1] && Semop(t, p, ops).t.adj[1] == t.adj[1])
    requires ProcOk(pc, p, id, Semop(t, p, ops).t, h')
    ensures SetOk(procs[p := pc], id, Semop(t, p, ops).t, h')
  {
    SemopConserves(t, p, ops, |procs|);
    var t' := Semop(t, p, ops).t;
    var procs' := procs[p := pc];
    forall q | 0 <= q < |procs| ensures ProcOk(procs'[q], q, id, t', h') {
      assert ProcOk(procs[q], q, id, t, h);
      if q != p {
        assert t'.adj[1][q] == t.adj[1][q] && t'.adj[2][q] == t.adj[2][q];
      }
    }
  }

  lemma ExitSet(procs: seq<Pc>, id: int, t: SemSet, h: Hist, p: nat)
    requires SetOk(procs, id, t, h) && p < |procs|
    ensures t.val[1] + t.adj[1][p] >= 0 && t.val[2] + t.adj[2][p] >= 0
    ensures SetOk(procs[p := Idle(-1)], id, Undo(t, p), h.(lost := h.lost + Max0(-(t.val[0] + t.adj[0][p]))))
  {
    assert ProcOk(procs[p], p, id, t, h);
    if InCs(procs[p], id) { LockHeld(procs, id, t, h, p); }
    UndoConserves(t, p, |procs|);
    var t' := Undo(t, p);
    var h' := h.(lost := h.lost + Max0(-(t.val[0] + t.adj[0][p])));
    if !h.init1 { assert t'.adj[1] == Zeros(|procs|); }
    var procs' := procs[p := Idle(-1)];
    forall q | 0 <= q < |procs| ensures ProcOk(procs'[q], q, id, t', h') {
      assert ProcOk(procs[q], q, id, t, h);
    }
  }

  lemma {:induction false} FreshSetOk(procs: seq<Pc>, id: int)
    requires forall p :: 0 <= p < |procs| ==> PcId(procs[p]) < id && 0 <= id
    ensures SetOk(procs, id, FreshSet(|procs|), Hist(None, false, false, 0))
  {
    SumOfZeros(Zeros(|procs|));
    forall p | 0 <= p < |procs|
      ensures ProcOk(procs[p], p, id, FreshSet(|procs|), Hist(None, false, false, 0))
    {
      assert PcId(procs[p]) != id;
    }
  }

  // ----- one step

  /** Every set other than the one `p` is working on is unaffected by a step of `p`. */
  lemma OtherSet(s: State, id: int, p: nat, pc: Pc)
    requires Inv(s) && id in s.sets && p < |s.procs|
    requires !InCs(s.procs[p], id) && !InCs(pc, id) && pc != CloseOp(id)
    ensures SetOk(s.procs[p := pc], id, s.sets[id], s.hist[id])
  {
    assert ProcOk(s.procs[p], p, id, s.sets[id], s.hist[id]);
    MovePc(s.procs, id, s.sets[id], s.hist[id], p, pc);
  }

  /** Process `p` may use `id`: the id has been handed out, and if the set is still there `p` has it open. */
  ghost predicate HasOpen(s: State, p: nat, id: int)
    requires Shaped(s)
  {
    p < |s.procs| ==> id < s.nextId && (id in s.sets ==> s.sets[id].adj[1][p] >= 1)
  }

  /** The caller's side of the contract: sem_close only on a set one has open. P and V are not restricted. */
  ghost predicate Disciplined(s: State, e: Event)
    requires Shaped(s)
  {
    e.CallClose? ==> HasOpen(s, e.p, e.id)
  }

  /** A creator reads a counter of 0 although the set is initialised: BIGCOUNT registrations are live. */
  ghost predicate Exhausted(s: State, e: Event) {
    e.Go? && e.p < |s.procs| && s.procs[e.p].CreateGetval? &&
    var id := s.procs[e.p].id;
    id in s.sets && id in s.hist && |s.sets[id].val| == MEMBERS && s.sets[id].val[1] == 0 && s.hist[id].init1
  }

  ghost predicate Allowed(s: State, e: Event)
    requires Shaped(s)
  {
    Disciplined(s, e) && !Exhausted(s, e)
  }

  lemma ExitKeepsInv(s: State, p: nat)
    requires Inv(s) && p < |s.procs|
    ensures Inv(Exit(s, p))
  {
    var s' := Exit(s, p);
    forall id | id in s'.sets
      ensures 0 <= id < s'.nextId && SetOk(s'.procs, id, s'.sets[id], s'.hist[id])
    {
      ExitSet(s.procs, id, s.sets[id], s.hist[id], p);
    }
  }

  lemma RemoveKeepsInv(s: State, p: nat, id: int)
    requires Inv(s) && p < |s.procs|
    requires PcId(s.procs[p]) == id || s.procs[p] == Rm(id)
    ensures Inv(Remove(s, p, id))
  {
    if id !in s.sets {
      ExitKeepsInv(s, p);
    } else {
      var s' := Remove(s, p, id);
      forall i | i in s'.sets
        ensures 0 <= i < s'.nextId && SetOk(s'.procs, i, s'.sets[i], s'.hist[i])
      {
        OtherSet(s, i, p, Idle(0));
      }
    }
  }

  lemma SetPcKeepsInv(s: State, p: nat, pc: Pc)
    requires Inv(s) && p < |s.procs| && PcId(pc) < s.nextId
    requires forall id :: id in s.sets ==> ProcOk(pc, p, id, s.sets[id], s.hist[id])
    ensures Inv(SetPc(s, p, pc))
  {
    forall id | id in s.sets ensures SetOk(s.procs[p := pc], id, s.sets[id], s.hist[id]) {
      MovePc(s.procs, id, s.sets[id], s.hist[id], p, pc);
    }
  }

  /** `p` changes only set `id`. */
  lemma OneSetKeepsInv(s: State, s': State, p: nat, id: int, pc: Pc)
    requires Inv(s) && p < |s.procs| && id in s.sets && (PcId(s.procs[p]) == id || s.procs[p].Op?)
    requires PcId(pc) == id || pc.Idle?
    requires s'.sets.Keys == s.sets.Keys == s'.hist.Keys
    requires forall i :: i in s.sets && i != id ==> s'.sets[i] == s.sets[i] && s'.hist[i] == s.hist[i]
    requires s' == s.(procs := s.procs[p := pc], sets := s'.sets, hist := s'.hist)
    requires SetOk(s'.procs, id, s'.sets[id], s'.hist[id])
    ensures Inv(s')
  {
    forall i | i in s'.sets
      ensures 0 <= i < s'.nextId && SetOk(s'.procs, i, s'.sets[i], s'.hist[i])
    {
      if i != id { OtherSet(s, i, p, pc); }
    }
  }

  /** The effect of each operation array, from the values it finds. */
  lemma LockEffect(t: SemSet, p: nat, n: nat)
    requires Shape(t, n) && p < n
    ensures ValidOps(OP_LOCK)
    ensures Semop(t, p, OP_LOCK) ==
      if t.val[2] == 0 then Done(SemSet(t.val[2 := 1], t.adj[2 := t.adj[2][p := t.adj[2][p] - 1]])) else Blocked
  {
    assert Semop(t, p, OP_LOCK) == if t.val[2] == 0 then Semop(Add(t, p, OP_LOCK[0]), p, OP_LOCK[1..]) else Blocked;
    assert OP_LOCK[1..] == [OP_LOCK[1]];
    var t1 := Add(t, p, OP_LOCK[0]);
    assert t1.val == t.val;
    assert Semop(t1, p, [OP_LOCK[1]]) == Semop(Add(t1, p, OP_LOCK[1]), p, []);
  }

  lemma CloseEffect(t: SemSet, p: nat, n: nat)
    requires Shape(t, n) && p < n
    ensures ValidOps(OP_CLOSE)
    ensures Semop(t, p, OP_CLOSE) ==
      if t.val[2] == 0
      then Done(SemSet(t.val[2 := 1][1 := t.val[1] + 1],
                       t.adj[2 := t.adj[2][p := t.adj[2][p] - 1]][1 := t.adj[1][p := t.adj[1][p] - 1]]))
      else Blocked
  {
    var rest := [OP_CLOSE[1], OP_CLOSE[2]];
    assert OP_CLOSE[1..] == rest && rest[1..] == [OP_CLOSE[2]];
    var t1 := Add(t, p, OP_CLOSE[0]);
    assert t1.val == t.val;
    assert Semop(t, p, OP_CLOSE) == if t.val[2] == 0 then Semop(t1, p, rest) else Blocked;
    var t2 := Add(t1, p, OP_CLOSE[1]);
    assert Semop(t1, p, rest) == Semop(t2, p, [OP_CLOSE[2]]);
    assert Semop(t2, p, [OP_CLOSE[2]]) == Semop(Add(t2, p, OP_CLOSE[2]), p, []);
  }

  lemma EndCreateEffect(t: SemSet, p: nat, n: nat)
    requires Shape(t, n) && p < n && t.val[2] >= 1
    ensures ValidOps(OP_ENDCREATE)
    ensures Semop(t, p, OP_ENDCREATE) ==
      if t.val[1] >= 1
      then Done(SemSet(t.val[1 := t.val[1] - 1][2 := t.val[2] - 1],
                       t.adj[1 := t.adj[1][p := t.adj[1][p] + 1]][2 := t.adj[2][p := t.adj[2][p] + 1]]))
      else Blocked
  {
    hide Semop;
    SemopCons(t, p, OP_ENDCREATE[0], [OP_ENDCREATE[1]]);
    assert OP_ENDCREATE == [OP_ENDCREATE[0]] + [OP_ENDCREATE[1]];
    if t.val[1] >= 1 { SingleEffect(Add(t, p, OP_ENDCREATE[0]), p, OP_ENDCREATE[1], n); }
  }

  lemma SemopCons(t: SemSet, p: nat, b: Sembuf, rest: seq<Sembuf>)
    requires |t.val| == |t.adj| == MEMBERS && b.num < MEMBERS && ValidOps(rest)
    requires forall m :: 0 <= m < MEMBERS ==> p < |t.adj[m]|
    ensures ValidOps([b] + rest)
    ensures Semop(t, p, [b] + rest) == if CanProceed(t.val[b.num], b.op) then Semop(Add(t, p, b), p, rest) else Blocked
  {
    assert ([b] + rest)[1..] == rest;
  }

  /** The one-operation arrays: open, unlock, and P/V. */
  lemma SingleEffect(t: SemSet, p: nat, b: Sembuf, n: nat)
    requires Shape(t, n) && p < n && b.num < MEMBERS && b.op != 0 && b.undo
    ensures ValidOps([b])
    ensures Semop(t, p, [b]) ==
      if t.val[b.num] + b.op >= 0 || b.op > 0
      then Done(SemSet(t.val[b.num := t.val[b.num] + b.op], t.adj[b.num := t.adj[b.num][p := t.adj[b.num][p] - b.op]]))
      else Blocked
  {
    assert [b][1..] == [];
  }

  lemma LockForCreateKeepsInv(s: State, p: nat, initval: int, id: int)
    requires Inv(s) && p < |s.procs| && id in s.sets && PcId(s.procs[p]) == id
    requires !InCs(s.procs[p], id)
    ensures Inv(LockForCreate(s, p, initval, id))
  {
    hide Exit;
    var t, h := s.sets[id], s.hist[id];
    assert ProcOk(s.procs[p], p, id, t, h);
    LockEffect(t, p, |s.procs|);
    if t.val[2] == 0 {
      var s' := LockForCreate(s, p, initval, id);
      MoveSemop(s.procs, id, t, h, p, OP_LOCK, CreateGetval(initval, id), h);
      OneSetKeepsInv(s, s', p, id, CreateGetval(initval, id));
    } else {
      forall i | i in s.sets ensures ProcOk(CreateBlocked(initval, id), p, i, s.sets[i], s.hist[i]) {
        assert ProcOk(s.procs[p], p, i, s.sets[i], s.hist[i]);
      }
      SetPcKeepsInv(s, p, CreateBlocked(initval, id));
    }
  }

  lemma CreateGetKeepsInv(s: State, p: nat)
    requires Inv(s) && p < |s.procs| && s.procs[p].CreateGet?
    ensures Inv(StepGo(s, p))
  {
    hide Semop, Exit, Undo, SetVal;
    var s' := StepGo(s, p);
    var pc := s'.procs[p];
    forall i | i in s.sets ensures SetOk(s'.procs, i, s.sets[i], s.hist[i]) {
      OtherSet(s, i, p, pc);
    }
    if s.procs[p].key !in s.keys {
      FreshSetOk(s.procs, s.nextId);
      assert SetOk(s.procs, s.nextId, s'.sets[s.nextId], s'.hist[s.nextId]);
      assert ProcOk(s.procs[p], p, s.nextId, s'.sets[s.nextId], s'.hist[s.nextId]);
      MovePc(s.procs, s.nextId, s'.sets[s.nextId], s'.hist[s.nextId], p, pc);
    }
  }

  /** What a GETVAL may make of the process that does it. */
  lemma GetvalMoves(s: State, p: nat, id: int)
    requires Inv(s) && p < |s.procs| && id in s.sets && !Exhausted(s, Event.Go(p))
    requires (s.procs[p].CreateGetval? || s.procs[p].CloseGetval?) && s.procs[p].id == id
    ensures StepGo(s, p) == SetPc(s, p, StepGo(s, p).procs[p]) && PcId(StepGo(s, p).procs[p]) == id
    ensures forall i :: i in s.sets ==> ProcOk(StepGo(s, p).procs[p], p, i, s.sets[i], s.hist[i])
  {
    hide Semop, SetVal, Exit;
    CounterBound(s.procs, id, s.sets[id], s.hist[id]);
    var pc := StepGo(s, p).procs[p];
    forall i | i in s.sets ensures ProcOk(pc, p, i, s.sets[i], s.hist[i]) {
      assert ProcOk(s.procs[p], p, i, s.sets[i], s.hist[i]);
    }
  }

  lemma GetvalKeepsInv(s: State, p: nat)
    requires Inv(s) && p < |s.procs| && (s.procs[p].CreateGetval? || s.procs[p].CloseGetval?)
    requires !Exhausted(s, Event.Go(p))
    ensures Inv(StepGo(s, p))
  {
    hide SetOk, ProcOk, Exit, SetPc;
    if s.procs[p].id !in s.sets {
      ExitKeepsInv(s, p);
    } else {
      GetvalMoves(s, p, s.procs[p].id);
      SetPcKeepsInv(s, p, StepGo(s, p).procs[p]);
    }
  }

  /** A SETVAL of [0], or of [1] after it, by the creator that holds the lock. */
  lemma SetvalSet(procs: seq<Pc>, id: int, t: SemSet, h: Hist, p: nat, initval: int)
    requires SetOk(procs, id, t, h) && p < |procs| &&
        (procs[p] == CreateSet0(initval, id) || procs[p] == CreateSet1(id))
    ensures procs[p].CreateSet0? && initval >= 0 ==>
      SetOk(procs[p := CreateSet1(id)], id, SetVal(t, 0, initval), h.(init0 := Some(initval), lost := 0))
    ensures procs[p].CreateSet1? ==> SetOk(procs[p := CreateEnd(id)], id, SetVal(t, 1, BIGCOUNT), h.(init1 := true))
  {
    assert ProcOk(procs[p], p, id, t, h);
    if initval >= 0 { SetValLevel(t, 0, initval, |procs|); }
    SetValLevel(t, 1, BIGCOUNT, |procs|);
    forall q | 0 <= q < |procs| && q != p ensures !InCs(procs[q], id) && ProcOk(procs[q], q, id, t, h) {
      AtMostOneInCs(procs, id, t, h, p, q);
    }
  }

  lemma SetvalKeepsInv(s: State, p: nat)
    requires Inv(s) && p < |s.procs| && (s.procs[p].CreateSet0? || s.procs[p].CreateSet1?)
    ensures Inv(StepGo(s, p))
  {
    hide SetOk, Exit, SetVal;
    var id := s.procs[p].id;
    if id !in s.sets || (s.procs[p].CreateSet0? && s.procs[p].initval < 0) {
      ExitKeepsInv(s, p);
    } else {
      SetvalSet(s.procs, id, s.sets[id], s.hist[id], p, if s.procs[p].CreateSet0? then s.procs[p].initval else 0);
      OneSetKeepsInv(s, StepGo(s, p), p, id, StepGo(s, p).procs[p]);
    }
  }

  lemma EndCreateKeepsInv(s: State, p: nat)
    requires Inv(s) && p < |s.procs| && s.procs[p].CreateEnd?
    ensures Inv(StepGo(s, p))
  {
    var id := s.procs[p].id;
    if id !in s.sets {
      ExitKeepsInv(s, p);
      assert id != -1 ==> StepGo(s, p) == Exit(s, p);
    } else {
      var t, h := s.sets[id], s.hist[id];
      assert ProcOk(s.procs[p], p, id, t, h);
      LockHeld(s.procs, id, t, h, p);
      EndCreateEffect(t, p, |s.procs|);
      if t.val[1] >= 1 {
        var h' := h.(returned := true);
        MoveSemop(s.procs, id, t, h, p, OP_ENDCREATE, Idle(id), h');
        OneSetKeepsInv(s, StepGo(s, p), p, id, Idle(id));
      }
    }
  }

  lemma OpenKeepsInv(s: State, p: nat)
    requires Inv(s) && p < |s.procs| && s.procs[p].OpenOp?
    ensures Inv(StepGo(s, p))
  {
    var id := s.procs[p].id;
    if id !in s.sets {
      ExitKeepsInv(s, p);
    } else {
      var t, h := s.sets[id], s.hist[id];
      assert ProcOk(s.procs[p], p, id, t, h);
      SingleEffect(t, p, OP_OPEN[0], |s.procs|);
      if t.val[1] >= 1 {
        var h' := h.(returned := true);
        MoveSemop(s.procs, id, t, h, p, OP_OPEN, Idle(id), h');
        OneSetKeepsInv(s, StepGo(s, p), p, id, Idle(id));
      }
    }
  }

  lemma CloseKeepsInv(s: State, p: nat)
    requires Inv(s) && p < |s.procs| && s.procs[p].CloseOp?
    ensures Inv(StepGo(s, p))
  {
    var id := s.procs[p].id;
    if id !in s.sets {
      ExitKeepsInv(s, p);
    } else {
      var t, h := s.sets[id], s.hist[id];
      assert ProcOk(s.procs[p], p, id, t, h);
      CloseEffect(t, p, |s.procs|);
      if t.val[2] == 0 {
        MoveSemop(s.procs, id, t, h, p, OP_CLOSE, CloseGetval(id), h);
        OneSetKeepsInv(s, StepGo(s, p), p, id, CloseGetval(id));
      }
    }
  }

  lemma UnlockKeepsInv(s: State, p: nat)
    requires Inv(s) && p < |s.procs| && s.procs[p].CloseUnlock?
    ensures Inv(StepGo(s, p))
  {
    hide Exit;
    var id := s.procs[p].id;
    if id !in s.sets {
      ExitKeepsInv(s, p);
    } else {
      var t, h := s.sets[id], s.hist[id];
      assert ProcOk(s.procs[p], p, id, t, h);
      LockHeld(s.procs, id, t, h, p);
      SingleEffect(t, p, OP_UNLOCK[0], |s.procs|);
      MoveSemop(s.procs, id, t, h, p, OP_UNLOCK, Idle(0), h);
      OneSetKeepsInv(s, StepGo(s, p), p, id, Idle(0));
    }
  }

  /** P and V, on whatever set. */
  lemma OpKeepsInv(s: State, p: nat)
    requires Inv(s) && p < |s.procs| && s.procs[p].Op?
    ensures Inv(StepGo(s, p))
  {
    hide Exit;
    var id, value := s.procs[p].id, s.procs[p].value;
    if id !in s.sets || value == 0 {
      ExitKeepsInv(s, p);
    } else {
      var t, h := s.sets[id], s.hist[id];
      assert ProcOk(s.procs[p], p, id, t, h);
      SingleEffect(t, p, Sembuf(0, value, true), |s.procs|);
      if Semop(t, p, OpOp(value)).Done? {
        MoveSemop(s.procs, id, t, h, p, OpOp(value), Idle(0), h);
        OneSetKeepsInv(s, StepGo(s, p), p, id, Idle(0));
      }
    }
  }

  lemma GoKeepsInv(s: State, p: nat)
    requires Inv(s) && p < |s.procs| && !Exhausted(s, Event.Go(p))
    ensures Inv(StepGo(s, p))
  {
    hide SetOk, Exit, Remove, LockForCreate, DoSemop;
    match s.procs[p]
    case Idle(_) =>
    case CreateGet(_, _) => CreateGetKeepsInv(s, p);
    case CreateLock(key, initval, id) =>
      if id in s.sets {
        LockForCreateKeepsInv(s, p, initval, id);
      } else {
        QuietKeepsInv(s, p, CreateGet(key, initval));
      }
    case CreateBlocked(initval, id) =>
      if id in s.sets { LockForCreateKeepsInv(s, p, initval, id); } else { ExitKeepsInv(s, p); }
    case CreateGetval(_, _) => GetvalKeepsInv(s, p);
    case CreateSet0(_, _) => SetvalKeepsInv(s, p);
    case CreateSet1(_) => SetvalKeepsInv(s, p);
    case CreateEnd(_) => EndCreateKeepsInv(s, p);
    case OpenGet(key) => QuietKeepsInv(s, p, if key in s.keys then OpenOp(s.keys[key]) else Idle(-1));
    case OpenOp(_) => OpenKeepsInv(s, p);
    case CloseOp(_) => CloseKeepsInv(s, p);
    case CloseGetval(_) => GetvalKeepsInv(s, p);
    case CloseRm(id) => RemoveKeepsInv(s, p, id);
    case CloseUnlock(_) => UnlockKeepsInv(s, p);
    case Op(_, _) => OpKeepsInv(s, p);
    case Rm(id) => RemoveKeepsInv(s, p, id);
  }

  /** Every step that callers are allowed to make keeps the invariant, crashes included. */
  lemma StepKeepsInv(s: State, e: Event)
    requires Inv(s) && Allowed(s, e)
    ensures Inv(Step(s, e))
  {
    hide SetOk, Exit, StepGo;
    if e.p < |s.procs| {
      var p, pc := e.p, s.procs[e.p];
      if e.Crash? {
        ExitKeepsInv(s, p);
      } else if e.Go? {
        GoKeepsInv(s, p);
      } else if e.Denied? {
        if pc.CreateGet? || pc.OpenGet? { QuietKeepsInv(s, p, Idle(-1)); }
      } else if pc.Idle? {
        QuietKeepsInv(s, p, Step(s, e).procs[p]);
      }
    }
  }

  /** A step outside every critical section that changes nothing but where the process is. */
  lemma QuietKeepsInv(s: State, p: nat, pc: Pc)
    requires Inv(s) && p < |s.procs| && PcId(pc) < s.nextId
    requires forall id :: id in s.sets ==> !InCs(s.procs[p], id) && !InCs(pc, id)
    requires pc.CloseOp? && pc.id in s.sets ==> s.sets[pc.id].adj[1][p] >= 1
    ensures Inv(SetPc(s, p, pc))
  {
    forall id | id in s.sets ensures ProcOk(pc, p, id, s.sets[id], s.hist[id]) {
      assert ProcOk(s.procs[p], p, id, s.sets[id], s.hist[id]);
    }
    SetPcKeepsInv(s, p, pc);
  }
}
