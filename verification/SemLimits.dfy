/** Two runs that show why the semaphore results carry the conditions they do. */
module SemLimits {
  import opened Options
  import opened SemKernel
  import opened SemProtocol
  import opened SemRuns
  import opened SemSafety
  import opened Sums

  /** Two processes and one initialised set: `a` and `b` registrations, `l` and `m` the lock adjustments. */
  function World(key: int, iv: int, a: int, b: int, l: int, m: int, pc0: Pc, pc1: Pc): State {
    State([pc0, pc1], map[key := 0],
          map[0 := SemSet([iv, BIGCOUNT - a - b, -l - m], [[0, 0], [a, b], [l, m]])],
          map[0 := Hist(Some(iv), true, true, 0)], 1, false)
  }

  /** States of two processes and at most set 0 are equal when their parts are. */
  lemma EqualByParts(s: State, t: State)
    requires |s.procs| == |t.procs| == 2 && s.procs[0] == t.procs[0] && s.procs[1] == t.procs[1]
    requires s.keys == t.keys
    requires s.sets.Keys == t.sets.Keys == {0} == s.hist.Keys == t.hist.Keys
    requires s.hist[0] == t.hist[0] && s.nextId == t.nextId && s.dumped == t.dumped
    requires Shape(s.sets[0], 2) && Shape(t.sets[0], 2)
    requires forall m :: 0 <= m < 3 ==> s.sets[0].val[m] == t.sets[0].val[m]
    requires forall m :: 0 <= m < 3 ==>
        s.sets[0].adj[m][0] == t.sets[0].adj[m][0] && s.sets[0].adj[m][1] == t.sets[0].adj[m][1]
    ensures s == t
  {
    forall m | 0 <= m < 3 ensures s.sets[0].adj[m] == t.sets[0].adj[m] { }
    assert s.sets[0].val == t.sets[0].val && s.sets[0].adj == t.sets[0].adj;
    assert s.procs == t.procs && s.sets == t.sets && s.hist == t.hist;
  }

  /** An allowed step from `s` to `t`. */
  ghost predicate AllowedStep(s: State, e: Event, t: State) {
    Shaped(s) && Allowed(s, e) && Step(s, e) == t
  }

  lemma RunOneMore(n: nat, es: seq<Event>, s: State, e: Event, t: State)
    requires AllowedRun(n, es) && After(n, es) == s && AllowedStep(s, e, t)
    ensures AllowedRun(n, es + [e]) && After(n, es + [e]) == t
  {
    assert (es + [e])[..|es + [e]| - 1] == es;
  }

  /** The states of a sem_create by process 0 where the key is new. */
  function Creating(key: int, iv: int, pc: Pc, v0: int, v1: int, v2: int, h: Hist): State {
    State([pc, Idle(-1)], map[key := 0],
          map[0 := SemSet([v0, v1, v2], [[0, 0], [0, 0], [-v2, 0]])], map[0 := h], 1, false)
  }

  const NEW_SET: Hist := Hist(None, false, false, 0)

  lemma CreateCalled(key: int, iv: nat)
    requires key != IPC_PRIVATE && key != -1
    ensures var s := State([CreateGet(key, iv), Idle(-1)], map[], map[], map[], 0, false);
      && AllowedRun(2, [CallCreate(0, key, iv)]) && After(2, [CallCreate(0, key, iv)]) == s
      && Shaped(s) && Allowed(s, Event.Go(0))
      && Step(s, Event.Go(0)) == Creating(key, iv, CreateLock(key, iv, 0), 0, 0, 0, NEW_SET)
  {
    InitShaped(2);
    assert Init(2).procs == [Idle(-1), Idle(-1)];
    var c := [CallCreate(0, key, iv)];
    assert c[..|c| - 1] == [];
    assert AllowedRun(2, []) && After(2, []) == Init(2);
    assert Zeros(2) == [0, 0];
    assert FreshSet(2) == SemSet([0, 0, 0], [[0, 0], [0, 0], [0, 0]]);
  }

  lemma CreateLocks(key: int, iv: nat)
    ensures var s := Creating(key, iv, CreateLock(key, iv, 0), 0, 0, 0, NEW_SET);
      var s' := Creating(key, iv, CreateGetval(iv, 0), 0, 0, 1, NEW_SET);
      AllowedStep(s, Event.Go(0), s')
  {
    hide Semop;
    var s := Creating(key, iv, CreateLock(key, iv, 0), 0, 0, 0, NEW_SET);
    LockEffect(s.sets[0], 0, 2);
    EqualByParts(Step(s, Event.Go(0)), Creating(key, iv, CreateGetval(iv, 0), 0, 0, 1, NEW_SET));
  }

  lemma CreateReads(key: int, iv: nat)
    ensures var s := Creating(key, iv, CreateGetval(iv, 0), 0, 0, 1, NEW_SET);
      AllowedStep(s, Event.Go(0), Creating(key, iv, CreateSet0(iv, 0), 0, 0, 1, NEW_SET))
  {
  }

  lemma CreateSetsValue(key: int, iv: nat)
    ensures var s := Creating(key, iv, CreateSet0(iv, 0), 0, 0, 1, NEW_SET);
      AllowedStep(s, Event.Go(0), Creating(key, iv, CreateSet1(0), iv, 0, 1, NEW_SET.(init0 := Some(iv))))
  {
    var s := Creating(key, iv, CreateSet0(iv, 0), 0, 0, 1, NEW_SET);
    EqualByParts(Step(s, Event.Go(0)), Creating(key, iv, CreateSet1(0), iv, 0, 1, NEW_SET.(init0 := Some(iv))));
  }

  lemma CreateSetsCounter(key: int, iv: nat)
    ensures var s := Creating(key, iv, CreateSet1(0), iv, 0, 1, NEW_SET.(init0 := Some(iv)));
      AllowedStep(s, Event.Go(0), Creating(key, iv, CreateEnd(0), iv, BIGCOUNT, 1, Hist(Some(iv), true, false, 0)))
  {
    var s := Creating(key, iv, CreateSet1(0), iv, 0, 1, NEW_SET.(init0 := Some(iv)));
    EqualByParts(Step(s, Event.Go(0)),
        Creating(key, iv, CreateEnd(0), iv, BIGCOUNT, 1, Hist(Some(iv), true, false, 0)));
  }

  lemma CreateEnds(key: int, iv: nat)
    ensures var s := Creating(key, iv, CreateEnd(0), iv, BIGCOUNT, 1, Hist(Some(iv), true, false, 0));
      AllowedStep(s, Event.Go(0), World(key, iv, 1, 0, 0, 0, Idle(0), Idle(-1)))
  {
    hide Semop, SetVal, FreshSet;
    var s := Creating(key, iv, CreateEnd(0), iv, BIGCOUNT, 1, Hist(Some(iv), true, false, 0));
    EndCreateEffect(s.sets[0], 0, 2);
    EqualByParts(Step(s, Event.Go(0)), World(key, iv, 1, 0, 0, 0, Idle(0), Idle(-1)));
  }

  function Goes(k: nat): seq<Event> {
    if k == 0 then [] else Goes(k - 1) + [Event.Go(0)]
  }

  function Create(key: int, iv: int): seq<Event> { [CallCreate(0, key, iv)] + Goes(6) }

  lemma CreateRun(key: int, iv: nat)
    requires key != IPC_PRIVATE && key != -1
    ensures AllowedRun(2, Create(key, iv))
    ensures After(2, Create(key, iv)) == World(key, iv, 1, 0, 0, 0, Idle(0), Idle(-1))
  {
    var c := [CallCreate(0, key, iv)];
    CreateCalled(key, iv);
    CreateLocks(key, iv);
    CreateReads(key, iv);
    CreateSetsValue(key, iv);
    CreateSetsCounter(key, iv);
    CreateEnds(key, iv);
    assert c + Goes(0) == c;
    RunOneMore(2, c + Goes(0), After(2, c), Event.Go(0), Creating(key, iv, CreateLock(key, iv, 0), 0, 0, 0, NEW_SET));
    GoOn(c, 1, Creating(key, iv, CreateLock(key, iv, 0), 0, 0, 0, NEW_SET));
    GoOn(c, 2, Creating(key, iv, CreateGetval(iv, 0), 0, 0, 1, NEW_SET));
    GoOn(c, 3, Creating(key, iv, CreateSet0(iv, 0), 0, 0, 1, NEW_SET));
    GoOn(c, 4, Creating(key, iv, CreateSet1(0), iv, 0, 1, NEW_SET.(init0 := Some(iv))));
    GoOn(c, 5, Creating(key, iv, CreateEnd(0), iv, BIGCOUNT, 1, Hist(Some(iv), true, false, 0)));
  }

  lemma GoOn(c: seq<Event>, k: nat, s: State)
    requires AllowedRun(2, c + Goes(k)) && After(2, c + Goes(k)) == s && Allowed(s, Event.Go(0))
    ensures AllowedRun(2, c + Goes(k + 1)) && After(2, c + Goes(k + 1)) == Step(s, Event.Go(0))
  {
    assert c + Goes(k + 1) == (c + Goes(k)) + [Event.Go(0)];
    RunOneMore(2, c + Goes(k), s, Event.Go(0), Step(s, Event.Go(0)));
  }

  // ----- sem_open slips between GETVAL and IPC_RMID

  lemma OpenCalled(key: int, w: State, q: nat)
    requires q < 2 && key != IPC_PRIVATE && key != -1 && Shaped(w) && |w.procs| == 2
    requires w.procs[q].Idle? && w.keys == map[key := 0]
    ensures AllowedStep(w, CallOpen(q, key), SetPc(w, q, OpenGet(key)))
    ensures AllowedStep(SetPc(w, q, OpenGet(key)), Event.Go(q), SetPc(w, q, OpenOp(0)))
  {
    assert w.procs[q := OpenGet(key)][q := OpenOp(0)] == w.procs[q := OpenOp(0)];
  }

  function Opened(key: int, iv: int, a: int, b: int, l: int, pc0: Pc, pc1: Pc, q: nat): State {
    if q == 0 then World(key, iv, a + 1, b, l, 0, Idle(0), pc1) else World(key, iv, a, b + 1, l, 0, pc0, Idle(0))
  }

  lemma OpenDoneByFirst(key: int, iv: nat, a: nat, b: nat, l: int, pc0: Pc, pc1: Pc)
    requires a + b < BIGCOUNT && -1 <= l <= 0
    ensures AllowedStep(SetPc(World(key, iv, a, b, l, 0, pc0, pc1), 0, OpenOp(0)), Event.Go(0),
        World(key, iv, a + 1, b, l, 0, Idle(0), pc1))
  {
    hide Semop, StepGo, Step, Allowed;
    var s := SetPc(World(key, iv, a, b, l, 0, pc0, pc1), 0, OpenOp(0));
    OpenSucceeds(s, 0);
    EqualByParts(Step(s, Event.Go(0)), World(key, iv, a + 1, b, l, 0, Idle(0), pc1));
  }

  lemma OpenDoneBySecond(key: int, iv: nat, a: nat, b: nat, l: int, pc0: Pc, pc1: Pc)
    requires a + b < BIGCOUNT && -1 <= l <= 0
    ensures AllowedStep(SetPc(World(key, iv, a, b, l, 0, pc0, pc1), 1, OpenOp(0)), Event.Go(1),
        World(key, iv, a, b + 1, l, 0, pc0, Idle(0)))
  {
    hide Semop, StepGo, Step, Allowed;
    var s := SetPc(World(key, iv, a, b, l, 0, pc0, pc1), 1, OpenOp(0));
    OpenSucceeds(s, 1);
    EqualByParts(Step(s, Event.Go(1)), World(key, iv, a, b + 1, l, 0, pc0, Idle(0)));
  }

  lemma OpenDone(key: int, iv: nat, a: nat, b: nat, l: int, pc0: Pc, pc1: Pc, q: nat)
    requires q < 2 && a + b < BIGCOUNT && -1 <= l <= 0
    ensures AllowedStep(SetPc(World(key, iv, a, b, l, 0, pc0, pc1), q, OpenOp(0)), Event.Go(q),
        Opened(key, iv, a, b, l, pc0, pc1, q))
  {
    hide AllowedStep;
    if q == 0 { OpenDoneByFirst(key, iv, a, b, l, pc0, pc1); } else { OpenDoneBySecond(key, iv, a, b, l, pc0, pc1); }
  }

  lemma OpenSucceeds(s: State, q: nat)
    requires Shaped(s) && |s.procs| == 2 && q < 2 && s.procs[q] == OpenOp(0) && 0 in s.sets && s.sets[0].val[1] >= 1
    ensures var t := s.sets[0];
      Allowed(s, Event.Go(q)) && Step(s, Event.Go(q)) ==
        s.(procs := s.procs[q := Idle(0)],
           sets := s.sets[0 := SemSet(t.val[1 := t.val[1] - 1], t.adj[1 := t.adj[1][q := t.adj[1][q] + 1]])],
           hist := s.hist[0 := s.hist[0].(returned := true)])
  {
    hide Semop;
    SingleEffect(s.sets[0], q, OP_OPEN[0], 2);
  }

  function OpenBy(q: nat, key: int): seq<Event> { [CallOpen(q, key), Event.Go(q), Event.Go(q)] }

  lemma OpenRun(es: seq<Event>, key: int, iv: nat, a: nat, b: nat, l: int, pc0: Pc, pc1: Pc, q: nat)
    requires q < 2 && key != IPC_PRIVATE && key != -1 && a + b < BIGCOUNT && -1 <= l <= 0
    requires if q == 0 then pc0.Idle? else pc1.Idle?
    requires AllowedRun(2, es) && After(2, es) == World(key, iv, a, b, l, 0, pc0, pc1)
    ensures AllowedRun(2, es + OpenBy(q, key))
    ensures After(2, es + OpenBy(q, key)) == Opened(key, iv, a, b, l, pc0, pc1, q)
  {
    var w := World(key, iv, a, b, l, 0, pc0, pc1);
    OpenCalled(key, w, q);
    OpenDone(key, iv, a, b, l, pc0, pc1, q);
    RunThreeMore(es, w, CallOpen(q, key), SetPc(w, q, OpenGet(key)), Event.Go(q), SetPc(w, q, OpenOp(0)),
          Event.Go(q), Opened(key, iv, a, b, l, pc0, pc1, q));
  }

  lemma RunThreeMore(es: seq<Event>, s0: State, e0: Event, s1: State, e1: Event, s2: State, e2: Event, s3: State)
    requires AllowedRun(2, es) && After(2, es) == s0 && AllowedStep(s0, e0, s1) && AllowedStep(s1, e1, s2) &&
        AllowedStep(s2, e2, s3)
    ensures AllowedRun(2, es + [e0, e1, e2]) && After(2, es + [e0, e1, e2]) == s3
  {
    hide Step, Allowed;
    RunOneMore(2, es, s0, e0, s1);
    RunOneMore(2, es + [e0], s1, e1, s2);
    RunOneMore(2, es + [e0] + [e1], s2, e2, s3);
    assert es + [e0] + [e1] + [e2] == es + [e0, e1, e2];
  }

  lemma CloseCalled(key: int, iv: nat)
    ensures AllowedStep(World(key, iv, 1, 0, 0, 0, Idle(0), Idle(-1)), CallClose(0, 0),
               World(key, iv, 1, 0, 0, 0, CloseOp(0), Idle(-1)))
  {
    assert [Idle(0), Idle(-1)][0 := CloseOp(0)] == [CloseOp(0), Idle(-1)];
  }

  lemma CloseLocks(key: int, iv: nat)
    ensures AllowedStep(World(key, iv, 1, 0, 0, 0, CloseOp(0), Idle(-1)), Event.Go(0),
               World(key, iv, 0, 0, -1, 0, CloseGetval(0), Idle(-1)))
  {
    hide Semop;
    var s := World(key, iv, 1, 0, 0, 0, CloseOp(0), Idle(-1));
    CloseEffect(s.sets[0], 0, 2);
    EqualByParts(Step(s, Event.Go(0)), World(key, iv, 0, 0, -1, 0, CloseGetval(0), Idle(-1)));
  }

  lemma CloseReads(key: int, iv: nat)
    ensures AllowedStep(World(key, iv, 0, 0, -1, 0, CloseGetval(0), Idle(-1)), Event.Go(0),
               World(key, iv, 0, 0, -1, 0, CloseRm(0), Idle(-1)))
  {
    assert [CloseGetval(0), Idle(-1)][0 := CloseRm(0)] == [CloseRm(0), Idle(-1)];
  }

  /** With sem_open the safety of removal fails: an allowed run in which the last closer is about to
      remove a set that another process has just opened. */
  lemma OpenSlipsIn(key: int, iv: nat)
    requires key != IPC_PRIVATE && key != -1
    ensures var es := Create(key, iv) + [CallClose(0, 0), Event.Go(0), Event.Go(0)] + OpenBy(1, key);
      && AllowedRun(2, es) && (forall k :: 0 <= k < |es| ==> !es[k].CallRm?)
      && After(2, es).procs[0] == CloseRm(0) && After(2, es).procs[1] == Idle(0)
      && 0 in After(2, es).sets && After(2, es).sets[0].adj[1][1] == 1
  {
    hide Semop, Step, Allowed, AllowedStep, Run, AllowedRun;
    CreateRun(key, iv);
    CloseCalled(key, iv);
    CloseLocks(key, iv);
    CloseReads(key, iv);
    var es := Create(key, iv);
    RunThreeMore(es, World(key, iv, 1, 0, 0, 0, Idle(0), Idle(-1)),
          CallClose(0, 0), World(key, iv, 1, 0, 0, 0, CloseOp(0), Idle(-1)),
          Event.Go(0), World(key, iv, 0, 0, -1, 0, CloseGetval(0), Idle(-1)),
          Event.Go(0), World(key, iv, 0, 0, -1, 0, CloseRm(0), Idle(-1)));
    OpenRun(es + [CallClose(0, 0), Event.Go(0), Event.Go(0)], key, iv, 0, 0, -1, CloseRm(0), Idle(-1), 1);
  }

  // ----- BIGCOUNT registrations

  function Opens(k: nat, key: int): seq<Event> {
    if k == 0 then [] else Opens(k - 1, key) + OpenBy(0, key)
  }

  /** `es` is an allowed run that leaves set 0 with `k` registrations, all of process 0. */
  ghost predicate Reached(es: seq<Event>, key: int, iv: int, k: int) {
    AllowedRun(2, es) && After(2, es) == World(key, iv, k, 0, 0, 0, Idle(0), Idle(-1))
  }

  lemma OneMoreOpen(es: seq<Event>, key: int, iv: nat, k: nat)
    requires key != IPC_PRIVATE && key != -1 && k < BIGCOUNT && Reached(es, key, iv, k)
    ensures Reached(es + OpenBy(0, key), key, iv, k + 1)
  {
    OpenRun(es, key, iv, k, 0, 0, Idle(0), Idle(-1), 0);
  }

  /** What one more open of process 0 advances, `k` of them advance by `k`. */
  lemma {:induction false} Iterate(holds: (seq<Event>, int) -> bool, es: seq<Event>, key: int, k: nat)
    requires k < BIGCOUNT && holds(es, 1)
    requires forall xs, j: nat :: j < BIGCOUNT && holds(xs, j) ==> holds(xs + OpenBy(0, key), j + 1)
    ensures holds(es + Opens(k, key), k + 1)
    decreases k
  {
    if k == 0 {
      assert es + Opens(0, key) == es;
    } else {
      Iterate(holds, es, key, k - 1);
      assert es + Opens(k, key) == (es + Opens(k - 1, key)) + OpenBy(0, key);
    }
  }

  lemma OpensRun(es: seq<Event>, key: int, iv: nat, k: nat)
    requires key != IPC_PRIVATE && key != -1 && k < BIGCOUNT && Reached(es, key, iv, 1)
    ensures Reached(es + Opens(k, key), key, iv, k + 1)
  {
    forall xs, j: nat | j < BIGCOUNT && Reached(xs, key, iv, j)
      ensures Reached(xs + OpenBy(0, key), key, iv, j + 1)
    {
      OneMoreOpen(xs, key, iv, j);
    }
    Iterate((xs, j) => Reached(xs, key, iv, j), es, key, k);
  }

  lemma SecondCreator(key: int, iv: nat, iv': nat)
    requires key != IPC_PRIVATE && key != -1
    ensures AllowedStep(World(key, iv, BIGCOUNT, 0, 0, 0, Idle(0), Idle(-1)), CallCreate(1, key, iv'),
               World(key, iv, BIGCOUNT, 0, 0, 0, Idle(0), CreateGet(key, iv')))
    ensures AllowedStep(World(key, iv, BIGCOUNT, 0, 0, 0, Idle(0), CreateGet(key, iv')), Event.Go(1),
               World(key, iv, BIGCOUNT, 0, 0, 0, Idle(0), CreateLock(key, iv', 0)))
  {
    assert [Idle(0), Idle(-1)][1 := CreateGet(key, iv')] == [Idle(0), CreateGet(key, iv')];
    assert [Idle(0), CreateGet(key, iv')][1 := CreateLock(key, iv', 0)] == [Idle(0), CreateLock(key, iv', 0)];
  }

  lemma SecondCreatorLocks(key: int, iv: nat, iv': nat)
    ensures AllowedStep(World(key, iv, BIGCOUNT, 0, 0, 0, Idle(0), CreateLock(key, iv', 0)), Event.Go(1),
               World(key, iv, BIGCOUNT, 0, 0, -1, Idle(0), CreateGetval(iv', 0)))
  {
    hide Semop;
    var s := World(key, iv, BIGCOUNT, 0, 0, 0, Idle(0), CreateLock(key, iv', 0));
    LockEffect(s.sets[0], 1, 2);
    EqualByParts(Step(s, Event.Go(1)), World(key, iv, BIGCOUNT, 0, 0, -1, Idle(0), CreateGetval(iv', 0)));
  }

  /** BIGCOUNT registrations are too many: after one create and BIGCOUNT-1 opens, the next creator takes
      the counter's 0 for "never initialised", overwrites the value and wipes out all the registrations. */
  lemma CounterExhausted(key: int, iv: nat, iv': nat)
    requires key != IPC_PRIVATE && key != -1
    ensures var es := Create(key, iv) + Opens(BIGCOUNT - 1, key) + [CallCreate(1, key, iv'), Event.Go(1), Event.Go(1)];
      && AllowedRun(2, es) && 0 in After(2, es).sets && Registered(After(2, es).sets[0]) == BIGCOUNT
      && Exhausted(After(2, es), Event.Go(1))
      && var s' := Step(Step(Step(After(2, es), Event.Go(1)), Event.Go(1)), Event.Go(1));
         0 in s'.sets && s'.sets[0].val[0] == iv' && Registered(s'.sets[0]) == 0
  {
    CreateRun(key, iv);
    OpensRun(Create(key, iv), key, iv, BIGCOUNT - 1);
    SecondCreator(key, iv, iv');
    SecondCreatorLocks(key, iv, iv');
    var s := World(key, iv, BIGCOUNT, 0, 0, -1, Idle(0), CreateGetval(iv', 0));
    RunThreeMore(Create(key, iv) + Opens(BIGCOUNT - 1, key), World(key, iv, BIGCOUNT, 0, 0, 0, Idle(0), Idle(-1)),
          CallCreate(1, key, iv'), World(key, iv, BIGCOUNT, 0, 0, 0, Idle(0), CreateGet(key, iv')),
          Event.Go(1), World(key, iv, BIGCOUNT, 0, 0, 0, Idle(0), CreateLock(key, iv', 0)), Event.Go(1), s);
    Overwritten(key, iv, iv', s);
  }

  lemma Overwritten(key: int, iv: nat, iv': nat, s: State)
    requires s == World(key, iv, BIGCOUNT, 0, 0, -1, Idle(0), CreateGetval(iv', 0))
    ensures Shaped(s) && Exhausted(s, Event.Go(1)) && Registered(s.sets[0]) == BIGCOUNT
    ensures var s' := Step(Step(Step(s, Event.Go(1)), Event.Go(1)), Event.Go(1));
         0 in s'.sets && s'.sets[0].val[0] == iv' && Registered(s'.sets[0]) == 0
  {
    var s1 := SetPc(s, 1, CreateSet0(iv', 0));
    assert Step(s, Event.Go(1)) == s1;
    var s2 := Step(s1, Event.Go(1));
    assert s2.sets[0] == SetVal(s.sets[0], 0, iv') && s2.procs[1] == CreateSet1(0);
    assert s2.sets[0].val[0] == iv';
    var s3 := Step(s2, Event.Go(1));
    assert s3.sets[0] == SetVal(s2.sets[0], 1, BIGCOUNT);
    assert s3.sets[0].adj[1] == Zeros(2);
    SumOfZeros(Zeros(2));
    assert [BIGCOUNT, 0][1..] == [0];
    assert Sum([0]) == 0;
  }
}
