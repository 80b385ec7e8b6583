/** Whole runs of the semaphore library: the main results, and the inputs on which they fail. */
module SemRuns {
  import opened SemKernel
  import opened SemProtocol
  import opened SemSafety
  import opened Sums

  function Run(s: State, es: seq<Event>): (r: State)
    requires Shaped(s)
    ensures Shaped(r) && |r.procs| == |s.procs|
    decreases |es|
  {
    if es == [] then s else Step(Run(s, es[..|es| - 1]), es[|es| - 1])
  }

  lemma InitShaped(n: nat)
    ensures Shaped(Init(n)) && Inv(Init(n))
  {
  }

  ghost function After(n: nat, es: seq<Event>): (s: State)
    ensures Shaped(s) && |s.procs| == n
  {
    InitShaped(n);
    Run(Init(n), es)
  }

  /** At every event a caller of sem_close has the set open, and no creator finds the counter exhausted. */
  ghost predicate AllowedRun(n: nat, es: seq<Event>)
    decreases |es|
  {
    es == [] || (AllowedRun(n, es[..|es| - 1]) && Allowed(After(n, es[..|es| - 1]), es[|es| - 1]))
  }

  lemma {:induction false} RunsKeepInv(n: nat, es: seq<Event>)
    requires AllowedRun(n, es)
    ensures Inv(After(n, es))
    decreases |es|
  {
    InitShaped(n);
    if es != [] {
      RunsKeepInv(n, es[..|es| - 1]);
      StepKeepsInv(After(n, es[..|es| - 1]), es[|es| - 1]);
    }
  }

  ghost function Holders(s: State, id: int): set<nat> {
    set p: nat | p < |s.procs| && InCs(s.procs[p], id)
  }

  ghost function Registered(t: SemSet): int
    requires |t.adj| == MEMBERS
  {
    Sum(t.adj[1])
  }

  /** Lock and counter of one set: the lock is 0 or 1 and counts the processes inside a critical section;
      the process counter is 0 with nobody registered before initialisation, and BIGCOUNT less the
      registrations after it; no exit would drive member [1] or [2] negative. */
  ghost predicate LockAndCounterOk(s: State, id: int)
    requires Shaped(s) && id in s.sets
  {
    var t, n := s.sets[id], |s.procs|;
    && t.val[2] == |Holders(s, id)| <= 1
    && (forall p :: 0 <= p < n ==> t.adj[1][p] >= 0)
    && (s.hist[id].init1 ==> t.val[1] + Registered(t) == BIGCOUNT)
    && (!s.hist[id].init1 ==> t.val[1] == 0 == Registered(t) && !s.hist[id].returned)
    && (forall p :: 0 <= p < n ==> t.val[1] + t.adj[1][p] >= 0 && t.val[2] + t.adj[2][p] >= 0)
    && t.val[1] <= BIGCOUNT
  }

  lemma LockAndCounterHere(s: State, id: int)
    requires Inv(s) && id in s.sets
    ensures LockAndCounterOk(s, id)
  {
    var t, h, n := s.sets[id], s.hist[id], |s.procs|;
    CounterBound(s.procs, id, t, h);
    if !h.init1 { SumOfZeros(t.adj[1]); }
    forall p | 0 <= p < n
      ensures t.adj[1][p] >= 0 && t.val[1] + t.adj[1][p] >= 0 && t.val[2] + t.adj[2][p] >= 0
    {
      assert ProcOk(s.procs[p], p, id, t, h);
      ExitSet(s.procs, id, t, h, p);
    }
    if exists p: nat :: p < n && InCs(s.procs[p], id) {
      var p: nat :| p < n && InCs(s.procs[p], id);
      LockHeld(s.procs, id, t, h, p);
      forall q | q in Holders(s, id) ensures q == p {
        if q != p { AtMostOneInCs(s.procs, id, t, h, p, q); }
      }
      assert Holders(s, id) == {p};
    } else {
      assert Holders(s, id) == {};
      forall k | 0 <= k < n ensures t.adj[2][k] == 0 {
        assert ProcOk(s.procs[k], k, id, t, h);
      }
      SumOfZeros(t.adj[2]);
    }
  }

  /** So in every reachable state, whoever crashed wherever; and the "> BIGCOUNT" branch was never taken. */
  lemma LockAndCounter(n: nat, es: seq<Event>, id: int)
    requires AllowedRun(n, es) && id in After(n, es).sets
    ensures LockAndCounterOk(After(n, es), id) && !After(n, es).dumped
  {
    RunsKeepInv(n, es);
    LockAndCounterHere(After(n, es), id);
  }

  /** Initialisation is safe. When a process is about to SETVAL a member of a live set, nobody has
      returned from sem_create or sem_open on it and no process is registered, so SETVAL wipes out no
      adjustment on [1]. Once somebody has returned, both members were set. For the adjustments on [0] see
      SemDiscipline. */
  lemma InitialisationIsSafe(n: nat, es: seq<Event>, id: int, p: nat)
    requires AllowedRun(n, es) && id in After(n, es).sets && p < n
    ensures var s := After(n, es); var t := s.sets[id];
      && (Initialising(s.procs[p], id) ==>
            !s.hist[id].returned && t.val[1] == 0 && forall q :: 0 <= q < n ==> t.adj[1][q] == 0)
      && (s.hist[id].returned ==> s.hist[id].init0.Some? && s.hist[id].init1)
      && (t.adj[1][p] > 0 ==> s.hist[id].init0.Some? && s.hist[id].init1)
  {
    RunsKeepInv(n, es);
    var s := After(n, es);
    assert ProcOk(s.procs[p], p, id, s.sets[id], s.hist[id]);
  }

  /** Conservation of the semaphore proper: the initial value is what it holds now, plus every P and V
      still to be undone, less what earlier exits could not take back because the value was too small. */
  lemma ValueConserved(n: nat, es: seq<Event>, id: int)
    requires AllowedRun(n, es) && id in After(n, es).sets && After(n, es).hist[id].init0.Some?
    ensures var s := After(n, es);
      Level(s.sets[id], 0) == s.hist[id].init0.value + s.hist[id].lost && s.hist[id].lost >= 0
  {
    RunsKeepInv(n, es);
  }

  // ----- the BIGCOUNT bound is exact

  /** A creator's GETVAL is the one step that can break the invariant, and breaks it exactly when the
      set is initialised with BIGCOUNT registrations live. */
  lemma GetvalBreaksIff(s: State, p: nat)
    requires Inv(s) && p < |s.procs| && s.procs[p].CreateGetval? && s.procs[p].id in s.sets
    ensures Exhausted(s, Event.Go(p)) <==>
            s.hist[s.procs[p].id].init1 && Registered(s.sets[s.procs[p].id]) == BIGCOUNT
    ensures Inv(Step(s, Event.Go(p))) <==> !Exhausted(s, Event.Go(p))
  {
    var id := s.procs[p].id;
    if Exhausted(s, Event.Go(p)) {
      var s' := Step(s, Event.Go(p));
      assert s'.procs[p] == CreateSet0(s.procs[p].initval, id);
      assert !ProcOk(s'.procs[p], p, id, s'.sets[id], s'.hist[id]);
    } else {
      StepKeepsInv(s, Event.Go(p));
    }
  }

  /** Fewer than BIGCOUNT live registrations at every moment, stated on the counter the code reads. */
  ghost predicate BelowBigcount(s: State)
    requires Shaped(s)
  {
    forall id :: id in s.sets ==> Registered(s.sets[id]) < BIGCOUNT
  }

  /** Callers of sem_close have the set open, and there are fewer than BIGCOUNT registrations before every event. */
  ghost predicate BoundedRun(n: nat, es: seq<Event>)
    decreases |es|
  {
    es == [] ||
    (BoundedRun(n, es[..|es| - 1]) && BelowBigcount(After(n, es[..|es| - 1]))
     && Disciplined(After(n, es[..|es| - 1]), es[|es| - 1]))
  }

  lemma BelowIsNotExhausted(s: State, e: Event)
    requires Inv(s) && BelowBigcount(s)
    ensures !Exhausted(s, e)
  {
    if Exhausted(s, e) {
      GetvalBreaksIff(s, e.p);
      assert false;
    }
  }

  lemma {:induction false} BoundedRunsAreAllowed(n: nat, es: seq<Event>)
    requires BoundedRun(n, es)
    ensures AllowedRun(n, es)
    decreases |es|
  {
    if es != [] {
      BoundedRunsAreAllowed(n, es[..|es| - 1]);
      RunsKeepInv(n, es[..|es| - 1]);
      BelowIsNotExhausted(After(n, es[..|es| - 1]), es[|es| - 1]);
    }
  }
}
