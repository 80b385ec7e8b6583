/** The library's answers where nothing is created, opened or closed, and what its calls come to in the end. */
module SemCalls {
  import opened SemKernel
  import opened SemProtocol
  import opened SemSafety

  /** The keys 0 (IPC_PRIVATE) and -1 are refused at once, by sem_create and sem_open alike; others are
      looked up by semget. */
  lemma BadKeysRefused(s: State, p: nat, key: int, initval: int)
    requires Shaped(s) && p < |s.procs| && s.procs[p].Idle?
    ensures var create, open := Step(s, CallCreate(p, key, initval)), Step(s, CallOpen(p, key));
      if key == 0 || key == -1 then create == open == s.(procs := s.procs[p := Idle(-1)])
      else
        && create == s.(procs := s.procs[p := CreateGet(key, initval)])
        && open == s.(procs := s.procs[p := OpenGet(key)])
  {
  }

  /** A semget that fails makes both return -1; sem_open's does so when nobody has created the set. */
  lemma LookupFails(s: State, p: nat)
    requires Shaped(s) && p < |s.procs|
    ensures s.procs[p].CreateGet? || s.procs[p].OpenGet? ==>
      Step(s, Denied(p)) == s.(procs := s.procs[p := Idle(-1)])
    ensures s.procs[p].OpenGet? && s.procs[p].key !in s.keys ==>
      Step(s, Event.Go(p)) == s.(procs := s.procs[p := Idle(-1)])
  {
  }

  /** The decision of sem_close after its GETVAL: dump core above 10000, remove the set at 10000, else unlock. */
  lemma CloseDecides(s: State, p: nat, id: int)
    requires Shaped(s) && p < |s.procs| && s.procs[p] == CloseGetval(id) && id in s.sets
    ensures var r := Step(s, Event.Go(p)); var n := s.sets[id].val[1];
      && (n > 10000 ==> r.dumped && r.procs[p] == Idle(-1))
      && (n == 10000 ==> r == s.(procs := s.procs[p := CloseRm(id)]))
      && (n < 10000 ==> r == s.(procs := s.procs[p := CloseUnlock(id)]))
  {
  }

  /** sem_rm, and the removal by sem_close, take the set with its keys and nothing else, and return. */
  lemma RemovalTakes(s: State, p: nat, id: int)
    requires Shaped(s) && p < |s.procs| && (s.procs[p] == Rm(id) || s.procs[p] == CloseRm(id)) && id in s.sets
    ensures var r := Step(s, Event.Go(p));
      && r.procs == s.procs[p := Idle(0)]
      && (forall i :: i in r.sets <==> i in s.sets && i != id)
      && (forall i :: i in r.sets ==> r.sets[i] == s.sets[i])
      && (forall k :: k in r.keys <==> k in s.keys && s.keys[k] != id)
      && (forall k :: k in r.keys ==> r.keys[k] == s.keys[k])
  {
  }

  /** A set that is gone: sem_create starts again if it had not come to wait for the lock, and every other
      system call on it, and a sem_op of 0, ends the process. */
  lemma SetGone(s: State, p: nat, id: int)
    requires Shaped(s) && p < |s.procs| && (id !in s.sets || s.procs[p] == Op(id, 0))
    ensures forall key, initval :: s.procs[p] == CreateLock(key, initval, id) ==>
      Step(s, Event.Go(p)) == s.(procs := s.procs[p := CreateGet(key, initval)])
    ensures !s.procs[p].CreateLock? && On(s.procs[p], id) ==> Step(s, Event.Go(p)) == Step(s, Crash(p))
    ensures Step(s, Crash(p)).procs == s.procs[p := Idle(-1)]
  {
  }

  /** The next system call of `pc` is on set `id`. */
  predicate On(pc: Pc, id: int) {
    match pc
    case CreateLock(_, _, i) => i == id
    case CreateBlocked(_, i) => i == id
    case CreateGetval(_, i) => i == id
    case CreateSet0(_, i) => i == id
    case CreateSet1(i) => i == id
    case OpenOp(i) => i == id && i != -1
    case CreateEnd(i) => i == id && i != -1
    case CloseOp(i) => i == id
    case CloseGetval(i) => i == id
    case CloseRm(i) => i == id
    case CloseUnlock(i) => i == id
    case Op(i, _) => i == id
    case Rm(i) => i == id
    case _ => false
  }

  /** sem_open on a live set whose counter is positive registers the caller and returns the id; sem_close on an
      unlocked one takes the lock and the registration back. */
  lemma OpenAndClose(s: State, p: nat, id: int)
    requires Shaped(s) && p < |s.procs| && id in s.sets && id != -1
    ensures s.procs[p] == OpenOp(id) && s.sets[id].val[1] >= 1 ==>
      var r := Step(s, Event.Go(p));
      r.procs[p] == Idle(id) && r.sets[id].val == s.sets[id].val[1 := s.sets[id].val[1] - 1]
      && r.sets[id].adj[1][p] == s.sets[id].adj[1][p] + 1
    ensures s.procs[p] == CloseOp(id) && s.sets[id].val[2] == 0 ==>
      var r := Step(s, Event.Go(p));
      r.procs[p] == CloseGetval(id) && r.sets[id].val == s.sets[id].val[1 := s.sets[id].val[1] + 1][2 := 1]
      && r.sets[id].adj[1][p] == s.sets[id].adj[1][p] - 1
    ensures s.procs[p] == CloseUnlock(id) && s.sets[id].val[2] == 1 ==>
      var r := Step(s, Event.Go(p));
      r.procs[p] == Idle(0) && r.sets[id].val == s.sets[id].val[2 := 0]
  {
    hide Semop;
    SingleEffect(s.sets[id], p, OP_OPEN[0], |s.procs|);
    SingleEffect(s.sets[id], p, OP_UNLOCK[0], |s.procs|);
    CloseEffect(s.sets[id], p, |s.procs|);
  }
}
