/** What P and V do to the semaphore proper, and that a P waits for a V. */
module SemValue {
  import opened Options
  import opened SemKernel
  import opened SemLimits
  import opened SemProtocol
  import opened SemRuns
  import opened SemSafety

  /** sem_wait and sem_signal. */
  function SemWait(p: nat, id: int): Event { CallOp(p, id, -1) }
  function SemSignal(p: nat, id: int): Event { CallOp(p, id, 1) }

  /** Process `p` is about to make the semop of a sem_op on a live set. */
  ghost predicate OpPending(s: State, p: nat)
    requires p < |s.procs|
  {
    s.procs[p].Op? && s.procs[p].value != 0 && s.procs[p].id in s.sets
  }

  /** sem_op adds its amount to member [0], with the opposite adjustment for the caller, and returns; where
      the value would become negative the caller waits, and nothing changes. */
  ghost predicate OpMoved(s: State, r: State, p: nat)
    requires Shaped(s) && p < |s.procs| && OpPending(s, p)
  {
    var id, value := s.procs[p].id, s.procs[p].value;
    var t := s.sets[id];
    r == if t.val[0] + value >= 0
         then s.(procs := s.procs[p := Idle(0)],
                 sets := s.sets[id := SemSet(t.val[0 := t.val[0] + value],
                                             t.adj[0 := t.adj[0][p := t.adj[0][p] - value]])])
         else s
  }

  lemma OpMovesValue(s: State, p: nat, id: int, value: int)
    requires Shaped(s) && p < |s.procs| && s.procs[p] == Op(id, value) && value != 0 && id in s.sets
    ensures OpMoved(s, Step(s, Event.Go(p)), p)
  {
    hide Semop;
    SingleEffect(s.sets[id], p, Sembuf(0, value, true), |s.procs|);
  }

  /** sem_wait on a live set takes 1 away if there is any, else waits where it is. */
  lemma WaitTakesOne(s: State, p: nat, id: int)
    requires Shaped(s) && p < |s.procs| && s.procs[p].Idle? && id in s.sets
    ensures var t := s.sets[id]; var r := Step(Step(s, SemWait(p, id)), Event.Go(p));
      if t.val[0] > 0
      then r.procs[p] == Idle(0) && r.sets[id].val[0] == t.val[0] - 1
      else r.procs[p] == Op(id, -1) && r.sets == s.sets
  {
    hide StepGo;
    OpMovesValue(Step(s, SemWait(p, id)), p, id, -1);
  }

  /** sem_signal never waits, and adds 1. */
  lemma SignalAddsOne(s: State, p: nat, id: int)
    requires Shaped(s) && p < |s.procs| && s.procs[p].Idle? && id in s.sets
    ensures var t := s.sets[id]; var r := Step(Step(s, SemSignal(p, id)), Event.Go(p));
      r.procs[p] == Idle(0) && r.sets[id].val[0] == t.val[0] + 1
  {
    hide StepGo;
    OpMovesValue(Step(s, SemSignal(p, id)), p, id, 1);
  }

  /** One set with value `v`, of whose changes by the two processes `a` and `b` are still to be undone;
      process 0 has it open. */
  function Held(key: int, v: int, a: int, b: int, pc0: Pc, pc1: Pc): State {
    State([pc0, pc1], map[key := 0], map[0 := SemSet([v, BIGCOUNT - 1, 0], [[a, b], [1, 0], [0, 0]])],
          map[0 := Hist(Some(1), true, true, 0)], 1, false)
  }

  lemma Calls(key: int, v: nat, a: int, b: int, pc0: Pc, pc1: Pc, p: nat, value: int)
    requires p < 2 && (if p == 0 then pc0 else pc1).Idle?
    ensures AllowedStep(Held(key, v, a, b, pc0, pc1), CallOp(p, 0, value),
      if p == 0 then Held(key, v, a, b, Op(0, value), pc1) else Held(key, v, a, b, pc0, Op(0, value)))
  {
  }

  lemma Moves(key: int, v: nat, a: int, b: int, pc0: Pc, pc1: Pc, p: nat, value: int)
    requires p < 2 && (if p == 0 then pc0 else pc1) == Op(0, value) && value != 0
    ensures AllowedStep(Held(key, v, a, b, pc0, pc1), Event.Go(p),
      if v + value < 0 then Held(key, v, a, b, pc0, pc1)
      else if p == 0 then Held(key, v + value, a - value, b, Idle(0), pc1)
      else Held(key, v + value, a, b - value, pc0, Idle(0)))
  {
    hide Step;
    OpMovesValue(Held(key, v, a, b, pc0, pc1), p, 0, value);
    if p == 0 { FirstMoved(key, v, a, b, pc0, pc1, value); } else { SecondMoved(key, v, a, b, pc0, pc1, value); }
  }

  lemma FirstMoved(key: int, v: nat, a: int, b: int, pc0: Pc, pc1: Pc, value: int)
    ensures var s := Held(key, v, a, b, pc0, pc1); var t := s.sets[0];
      s.(procs := s.procs[0 := Idle(0)],
         sets := s.sets[0 := SemSet(t.val[0 := v + value], t.adj[0 := t.adj[0][0 := a - value]])]) ==
      Held(key, v + value, a - value, b, Idle(0), pc1)
  {
    assert [pc0, pc1][0 := Idle(0)] == [Idle(0), pc1] && [a, b][0 := a - value] == [a - value, b];
    assert [v, BIGCOUNT - 1, 0][0 := v + value] == [v + value, BIGCOUNT - 1, 0];
    assert [[a, b], [1, 0], [0, 0]][0 := [a - value, b]] == [[a - value, b], [1, 0], [0, 0]];
  }

  lemma SecondMoved(key: int, v: nat, a: int, b: int, pc0: Pc, pc1: Pc, value: int)
    ensures var s := Held(key, v, a, b, pc0, pc1); var t := s.sets[0];
      s.(procs := s.procs[1 := Idle(0)],
         sets := s.sets[0 := SemSet(t.val[0 := v + value], t.adj[0 := t.adj[0][1 := b - value]])]) ==
      Held(key, v + value, a, b - value, pc0, Idle(0))
  {
    assert [pc0, pc1][1 := Idle(0)] == [pc0, Idle(0)] && [a, b][1 := b - value] == [a, b - value];
    assert [v, BIGCOUNT - 1, 0][0 := v + value] == [v + value, BIGCOUNT - 1, 0];
    assert [[a, b], [1, 0], [0, 0]][0 := [a, b - value]] == [[a, b - value], [1, 0], [0, 0]];
  }

  /** A P that has to wait: created with 1, the semaphore lets the P of process 0 through and leaves that of
      process 1 waiting; the V of process 0 lets it go. */
  lemma SecondWaits(key: int)
    requires key != IPC_PRIVATE && key != -1
    ensures
      var both := Create(key, 1) + [SemWait(0, 0), Event.Go(0), SemWait(1, 0), Event.Go(1)];
      var all := both + [SemSignal(0, 0), Event.Go(0), Event.Go(1)];
      && AllowedRun(2, all)
      && After(2, both) == Held(key, 0, 1, 0, Idle(0), Op(0, -1))
      && After(2, all) == Held(key, 0, 0, 1, Idle(0), Idle(0))
  {
    hide Step, StepGo, AllowedStep, AllowedRun, Run;
    var w, g, g1 := SemWait(0, 0), Event.Go(0), Event.Go(1);
    CreateRun(key, 1);
    assert World(key, 1, 1, 0, 0, 0, Idle(0), Idle(-1)) == Held(key, 1, 0, 0, Idle(0), Idle(-1));
    Calls(key, 1, 0, 0, Idle(0), Idle(-1), 0, -1);
    Moves(key, 1, 0, 0, Op(0, -1), Idle(-1), 0, -1);
    Calls(key, 0, 1, 0, Idle(0), Idle(-1), 1, -1);
    Moves(key, 0, 1, 0, Idle(0), Op(0, -1), 1, -1);
    var es := Create(key, 1);
    RunOneMore(2, es, Held(key, 1, 0, 0, Idle(0), Idle(-1)), w, Held(key, 1, 0, 0, Op(0, -1), Idle(-1)));
    RunThreeMore(es + [w], Held(key, 1, 0, 0, Op(0, -1), Idle(-1)), g, Held(key, 0, 1, 0, Idle(0), Idle(-1)),
      SemWait(1, 0), Held(key, 0, 1, 0, Idle(0), Op(0, -1)), g1, Held(key, 0, 1, 0, Idle(0), Op(0, -1)));
    var both := es + [w, g, SemWait(1, 0), g1];
    assert (es + [w]) + [g, SemWait(1, 0), g1] == both;
    Calls(key, 0, 1, 0, Idle(0), Op(0, -1), 0, 1);
    Moves(key, 0, 1, 0, Op(0, 1), Op(0, -1), 0, 1);
    Moves(key, 1, 0, 0, Idle(0), Op(0, -1), 1, -1);
    RunThreeMore(both, Held(key, 0, 1, 0, Idle(0), Op(0, -1)), SemSignal(0, 0),
      Held(key, 0, 1, 0, Op(0, 1), Op(0, -1)), g, Held(key, 1, 0, 0, Idle(0), Op(0, -1)),
      g1, Held(key, 0, 0, 1, Idle(0), Idle(0)));
  }
}
