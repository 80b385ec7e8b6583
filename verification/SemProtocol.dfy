/** The library's protocol over the 3-member sets: value [0], process counter [1], lock [2].
    Each system call is one atomic event; any process may run, or die, at any event. */
module SemProtocol {
  import opened Options
  import opened SemKernel

  const BIGCOUNT: int := 10000
  const OP_LOCK: seq<Sembuf> := [Sembuf(2, 0, false), Sembuf(2, 1, true)]
  const OP_ENDCREATE: seq<Sembuf> := [Sembuf(1, -1, true), Sembuf(2, -1, true)]
  const OP_OPEN: seq<Sembuf> := [Sembuf(1, -1, true)]
  const OP_CLOSE: seq<Sembuf> := [Sembuf(2, 0, false), Sembuf(2, 1, true), Sembuf(1, 1, true)]
  const OP_UNLOCK: seq<Sembuf> := [Sembuf(2, -1, true)]
  const IPC_PRIVATE: int := 0

  function OpOp(value: int): seq<Sembuf> { [Sembuf(0, value, true)] }

  /** Where a process is: the system call it is about to make. `Idle(r)` is the caller's own code,
      `r` being what the last library call returned. */
  datatype Pc =
    | Idle(ret: int)
    | CreateGet(key: int, initval: int)
    | CreateLock(key: int, initval: int, id: int)
    | CreateBlocked(initval: int, id: int)
    | CreateGetval(initval: int, id: int)
    | CreateSet0(initval: int, id: int)
    | CreateSet1(id: int)
    | CreateEnd(id: int)
    | OpenGet(key: int)
    | OpenOp(id: int)
    | CloseOp(id: int)
    | CloseGetval(id: int)
    | CloseRm(id: int)
    | CloseUnlock(id: int)
    | Op(id: int, value: int)
    | Rm(id: int)

  /** History of one set: the value given to [0], whether [1] was set, whether a create or open has
      returned its id, and the total that exits failed to take back from [0]. */
  datatype Hist = Hist(init0: Option<int>, init1: bool, returned: bool, lost: int)
  datatype State = State(
    procs: seq<Pc>, keys: map<int, int>, sets: map<int, SemSet>, hist: map<int, Hist>,
    nextId: int, dumped: bool)

  datatype Event =
    | CallCreate(p: nat, key: int, initval: int)
    | CallOpen(p: nat, key: int)
    | CallClose(p: nat, id: int)
    | CallOp(p: nat, id: int, value: int)
    | CallRm(p: nat, id: int)
    | Go(p: nat)         // the process makes the system call it is about to make
    | Denied(p: nat)     // its semget fails: no permission, or tables full
    | Crash(p: nat)      // the process dies

  function Init(n: nat): State {
    State(seq(n, i => Idle(-1)), map[], map[], map[], 0, false)
  }

  function SetPc(s: State, p: nat, pc: Pc): State
    requires p < |s.procs|
  {
    s.(procs := s.procs[p := pc])
  }

  ghost predicate AllShaped(sets: map<int, SemSet>, n: nat) {
    forall id :: id in sets ==> Shape(sets[id], n)
  }

  ghost predicate Shaped(s: State) {
    s.hist.Keys == s.sets.Keys && AllShaped(s.sets, |s.procs|)
  }

  /** Only process `p` moves. */
  ghost predicate OthersStay(s: State, r: State, p: nat) {
    && |r.procs| == |s.procs|
    && forall q :: 0 <= q < |s.procs| && q != p ==> r.procs[q] == s.procs[q]
  }

  function UndoSets(sets: map<int, SemSet>, p: nat, ghost n: nat): map<int, SemSet>
    requires p < n && AllShaped(sets, n)
  {
    map id | id in sets :: Undo(sets[id], p)
  }

  /** What the clamp at 0 withholds of an undo in member [0]. */
  function Withheld(t: SemSet, p: nat): int
    requires |t.val| > 0 && |t.adj| > 0 && p < |t.adj[0]|
  {
    Max0(-(t.val[0] + t.adj[0][p]))
  }

  /** Exit, wanted or not: undo in every set, then the slot is free for another process. */
  function Exit(s: State, p: nat): (r: State)
    requires Shaped(s) && p < |s.procs|
    ensures Shaped(r) && OthersStay(s, r, p)
  {
    s.(procs := s.procs[p := Idle(-1)],
       sets := UndoSets(s.sets, p, |s.procs|),
       hist := map id | id in s.hist ::
         s.hist[id].(lost := s.hist[id].lost + Withheld(s.sets[id], p)))
  }

  /** A semop on `id` by `p`: an error return makes the process exit, a wait leaves it where it is. */
  function DoSemop(s: State, p: nat, id: int, ops: seq<Sembuf>, next: Pc): (r: State)
    requires Shaped(s) && p < |s.procs| && ValidOps(ops)
    ensures Shaped(r) && OthersStay(s, r, p)
  {
    if id !in s.sets then Exit(s, p) else
    match Semop(s.sets[id], p, ops)
    case Blocked => s
    case Done(t) => s.(procs := s.procs[p := next], sets := s.sets[id := t])
  }

  function MarkReturned(s: State, id: int): (r: State)
    ensures Shaped(s) ==> Shaped(r) && r.procs == s.procs
  {
    if id in s.hist then s.(hist := s.hist[id := s.hist[id].(returned := true)]) else s
  }

  function Remove(s: State, p: nat, id: int): (r: State)
    requires Shaped(s) && p < |s.procs|
    ensures Shaped(r) && OthersStay(s, r, p)
  {
    if id !in s.sets then Exit(s, p) else
    s.(procs := s.procs[p := Idle(0)], sets := s.sets - {id}, hist := s.hist - {id},
       keys := map k | k in s.keys && s.keys[k] != id :: s.keys[k])
  }

  function LockForCreate(s: State, p: nat, initval: int, id: int): (r: State)
    requires Shaped(s) && p < |s.procs| && id in s.sets
    ensures Shaped(r) && OthersStay(s, r, p)
  {
    match Semop(s.sets[id], p, OP_LOCK)
    case Blocked => SetPc(s, p, CreateBlocked(initval, id))
    case Done(t) => s.(procs := s.procs[p := CreateGetval(initval, id)], sets := s.sets[id := t])
  }

  function StepGo(s: State, p: nat): (r: State)
    requires Shaped(s) && p < |s.procs|
    ensures Shaped(r) && OthersStay(s, r, p)
  {
    match s.procs[p]
    case Idle(_) => s
    case CreateGet(key, initval) =>
      if key in s.keys then SetPc(s, p, CreateLock(key, initval, s.keys[key]))
      else
        State(s.procs[p := CreateLock(key, initval, s.nextId)], s.keys[key := s.nextId],
              s.sets[s.nextId := FreshSet(|s.procs|)], s.hist[s.nextId := Hist(None, false, false, 0)],
              s.nextId + 1, s.dumped)
    case CreateLock(key, initval, id) =>
      if id !in s.sets then SetPc(s, p, CreateGet(key, initval))   // EINVAL: goto again
      else LockForCreate(s, p, initval, id)
    case CreateBlocked(initval, id) =>
      if id !in s.sets then Exit(s, p)                             // EIDRM
      else LockForCreate(s, p, initval, id)
    case CreateGetval(initval, id) =>
      if id !in s.sets then Exit(s, p)
      else SetPc(s, p, if s.sets[id].val[1] == 0 then CreateSet0(initval, id) else CreateEnd(id))
    case CreateSet0(initval, id) =>
      if id !in s.sets || initval < 0 then Exit(s, p)              // EINVAL or ERANGE
      else s.(procs := s.procs[p := CreateSet1(id)], sets := s.sets[id := SetVal(s.sets[id], 0, initval)],
              hist := s.hist[id := s.hist[id].(init0 := Some(initval), lost := 0)])
    case CreateSet1(id) =>
      if id !in s.sets then Exit(s, p)
      else s.(procs := s.procs[p := CreateEnd(id)], sets := s.sets[id := SetVal(s.sets[id], 1, BIGCOUNT)],
              hist := s.hist[id := s.hist[id].(init1 := true)])
    case CreateEnd(id) =>
      var s' := DoSemop(s, p, id, OP_ENDCREATE, Idle(id));
      if s'.procs[p] == Idle(id) then MarkReturned(s', id) else s'
    case OpenGet(key) =>
      SetPc(s, p, if key in s.keys then OpenOp(s.keys[key]) else Idle(-1))
    case OpenOp(id) =>
      var s' := DoSemop(s, p, id, OP_OPEN, Idle(id));
      if s'.procs[p] == Idle(id) then MarkReturned(s', id) else s'
    case CloseOp(id) => DoSemop(s, p, id, OP_CLOSE, CloseGetval(id))
    case CloseGetval(id) =>
      if id !in s.sets then Exit(s, p)
      else if s.sets[id].val[1] > BIGCOUNT then Exit(s, p).(dumped := true)
      else SetPc(s, p, if s.sets[id].val[1] == BIGCOUNT then CloseRm(id) else CloseUnlock(id))
    case CloseRm(id) => Remove(s, p, id)
    case CloseUnlock(id) => DoSemop(s, p, id, OP_UNLOCK, Idle(0))
    case Op(id, value) => if value == 0 then Exit(s, p) else DoSemop(s, p, id, OpOp(value), Idle(0))
    case Rm(id) => Remove(s, p, id)
  }

  function Step(s: State, e: Event): (r: State)
    requires Shaped(s)
    ensures Shaped(r) && OthersStay(s, r, e.p)
  {
    if e.p >= |s.procs| then s
    else if e.Crash? then Exit(s, e.p)
    else if e.Go? then StepGo(s, e.p)
    else if e.Denied? then
      if s.procs[e.p].CreateGet? || s.procs[e.p].OpenGet? then SetPc(s, e.p, Idle(-1)) else s
    else if !s.procs[e.p].Idle? then s
    else
      SetPc(s, e.p,
            match e
            case CallCreate(_, key, initval) =>
              if key == IPC_PRIVATE || key == -1 then Idle(-1) else CreateGet(key, initval)
            case CallOpen(_, key) => if key == IPC_PRIVATE || key == -1 then Idle(-1) else OpenGet(key)
            case CallClose(_, id) => CloseOp(id)
            case CallOp(_, id, value) => Op(id, value)
            case CallRm(_, id) => Rm(id)
            case _ => s.procs[e.p])
  }
}
