/** Progress in the work queue: the mutex comes back, and a message gets from a producer to a consumer. */
module CondRuns {
  import opened CondQueue
  import opened Options

  /** How many accesses of its own a thread still makes with the mutex in its hands. */
  function HeldFor(pc: Pc): nat {
    match pc
    case Test => 5
    case Take => 4
    case Follow(_) => 3
    case Unlink(_, _) => 2
    case Unlock => 1
    case CondWait => 1
    case Head(_) => 4
    case Link(_, _) => 3
    case Publish(_) => 2
    case PUnlock => 1
    case _ => 0
  }

  /** An access of the holder brings it nearer to its unlock. */
  lemma HolderMoves(s: State, t: nat)
    requires t < |s.threads| && HoldsMutex(s.threads[t])
    requires s.threads[t] == Take ==> s.workq.Some?
    requires s.threads[t].Follow? ==> s.threads[t].mp in s.next
    requires s.threads[t].Unlink? ==> s.q != []
    ensures var pc := StepGo(s, t).threads[t];
      HeldFor(pc) < HeldFor(s.threads[t]) && (HoldsMutex(pc) <==> HeldFor(pc) > 0)
    ensures HeldFor(s.threads[t]) == 1 ==> StepGo(s, t).owner == None
  {
  }

  lemma GoLeavesOthers(s: State, u: nat, t: nat)
    requires t < |s.threads| && u < |s.threads| && u != t
    ensures |StepGo(s, u).threads| == |s.threads| && StepGo(s, u).threads[t] == s.threads[t]
  {
  }

  /** Nobody else moves it. */
  lemma OthersLeaveHolder(s: State, e: Event, t: nat)
    requires t < |s.threads| && HoldsMutex(s.threads[t]) && e != Go(t)
    ensures |Step(s, e).threads| == |s.threads| && Step(s, e).threads[t] == s.threads[t]
  {
    hide StepGo;
    if e.Go? && e.t < |s.threads| { GoLeavesOthers(s, e.t, t); }
  }

  /** The events since which thread `t` has had the mutex all the time. */
  ghost predicate HeldSince(s: State, xs: seq<Event>, t: nat)
    requires t < |s.threads|
    decreases |xs|
  {
    |Run(s, xs).threads| == |s.threads| && HoldsMutex(Run(s, xs).threads[t]) &&
    (xs == [] || HeldSince(s, xs[..|xs| - 1], t))
  }

  function Own(es: seq<Event>, t: nat): (n: nat)
    decreases |es|
  {
    if es == [] then 0 else Own(es[..|es| - 1], t) + if es[|es| - 1] == Go(t) then 1 else 0
  }

  lemma {:induction false} HeldOn(n: nat, es: seq<Event>, xs: seq<Event>, t: nat)
    requires OwnedRun(n, es + xs) && t < |Run(Init(n), es).threads| && HeldSince(Run(Init(n), es), xs, t)
    ensures var s := Run(Init(n), es);
      Run(s, xs) == Run(Init(n), es + xs) && HeldFor(Run(s, xs).threads[t]) + Own(xs, t) <= HeldFor(s.threads[t])
    decreases |xs|
  {
    hide Step, Inv, HeldFor, HoldsMutex, Owns;
    if xs == [] {
      assert es + xs == es;
    } else {
      var front, e := xs[..|xs| - 1], xs[|xs| - 1];
      assert (es + xs)[..|es + xs| - 1] == es + front;
      HeldOn(n, es, front, t);
      var s := Run(Init(n), es + front);
      if e == Go(t) {
        RunsKeepInv(n, es + front);
        ReadyToGo(s, t);
        HolderMoves(s, t);
        assert Step(s, e) == StepGo(s, t) by { GoSteps(s, t); }
      } else {
        OthersLeaveHolder(s, e, t);
      }
    }
  }

  lemma GoSteps(s: State, t: nat)
    requires t < |s.threads|
    ensures Step(s, Go(t)) == StepGo(s, t)
  {
  }

  /** Nobody keeps the mutex for more than five accesses of its own, whatever the others do meanwhile. */
  lemma MutexComesBack(n: nat, es: seq<Event>, xs: seq<Event>, t: nat)
    requires OwnedRun(n, es + xs) && t < |Run(Init(n), es).threads| && HeldSince(Run(Init(n), es), xs, t)
    ensures Own(xs, t) < 5
  {
    hide Run, OwnedRun, Own;
    HeldOn(n, es, xs, t);
    HolderIsHeld(Run(Run(Init(n), es), xs).threads[t]);
  }

  lemma HolderIsHeld(pc: Pc)
    requires HoldsMutex(pc)
    ensures HeldFor(pc) > 0
  {
  }

  // ----- a message on its way

  lemma FourSteps(s: State, es: seq<Event>)
    requires |es| == 4
    ensures Run(s, es) == Step(Step(Step(Step(s, es[0]), es[1]), es[2]), es[3])
  {
    hide Step;
    assert es[..3][..2] == es[..2] && es[..2][..1] == es[..1] && es[..1][..0] == [];
    assert Run(s, es[..1]) == Step(Run(s, []), es[0]);
    assert Run(s, es[..2]) == Step(Run(s, es[..1]), es[1]);
    assert Run(s, es[..3]) == Step(Run(s, es[..2]), es[2]);
  }

  lemma {:induction false} RunThen(s: State, xs: seq<Event>, ys: seq<Event>)
    ensures Run(s, xs + ys) == Run(Run(s, xs), ys)
    decreases |ys|
  {
    hide Step;
    if ys == [] {
      assert xs + ys == xs;
    } else {
      assert (xs + ys)[..|xs + ys| - 1] == xs + ys[..|ys| - 1];
      RunThen(s, xs, ys[..|ys| - 1]);
    }
  }

  /** A consumer and a producer between whom at most message 7 has passed. */
  function Two(pc0: Pc, pc1: Pc, owner: Option<nat>, next: map<Msg, Option<Msg>>, queued: bool, taken: bool): State {
    State([pc0, pc1], if queued then Some(7) else None, next, owner, if queued then [7] else [],
          if queued || taken then multiset{7} else multiset{}, if taken then multiset{7} else multiset{})
  }

  /** A consumer finds the queue empty and waits; a producer puts message 7 in and signals; the consumer wakes
      up and takes it, and nobody has the mutex in the end. */
  lemma MessagePasses()
    ensures
      var wait := [CallProcess(0), Go(0), Go(0), Go(0)];
      var put := [CallEnqueue(1, 7), Go(1), Go(1), Go(1), Go(1), Go(1), Notify(1, 0)];
      var take := [Go(0), Go(0), Go(0), Go(0), Go(0), Go(0)];
      && Run(Init(2), wait) == Two(Waiting, Idle, None, map[], false, false)
      && Run(Init(2), wait + put) == Two(Woken, Idle, None, map[7 := None], true, false)
      && Run(Init(2), wait + put + take) == Two(Lock, Idle, None, map[7 := None], false, true)
  {
    hide Run;
    var wait := [CallProcess(0), Go(0), Go(0), Go(0)];
    var put := [CallEnqueue(1, 7), Go(1), Go(1), Go(1), Go(1), Go(1), Notify(1, 0)];
    var take := [Go(0), Go(0), Go(0), Go(0), Go(0), Go(0)];
    ConsumerWaits();
    ProducerPuts();
    ConsumerTakes();
    RunThen(Init(2), wait, put);
    RunThen(Init(2), wait + put, take);
  }

  lemma ConsumerWaits()
    ensures Run(Init(2), [CallProcess(0), Go(0), Go(0), Go(0)]) == Two(Waiting, Idle, None, map[], false, false)
  {
    hide Run, Step;
    FourSteps(Init(2), [CallProcess(0), Go(0), Go(0), Go(0)]);
    FindsNothing();
    GoesToSleep();
  }

  lemma FindsNothing()
    ensures Init(2) == Two(Idle, Idle, None, map[], false, false)
    ensures Step(Two(Idle, Idle, None, map[], false, false), CallProcess(0))
         == Two(Lock, Idle, None, map[], false, false)
    ensures Step(Two(Lock, Idle, None, map[], false, false), Go(0)) == Two(Test, Idle, Some(0), map[], false, false)
  {
  }

  lemma GoesToSleep()
    ensures Step(Two(Test, Idle, Some(0), map[], false, false), Go(0))
         == Two(CondWait, Idle, Some(0), map[], false, false)
    ensures Step(Two(CondWait, Idle, Some(0), map[], false, false), Go(0))
         == Two(Waiting, Idle, None, map[], false, false)
  {
  }

  lemma ProducerPuts()
    ensures Run(Two(Waiting, Idle, None, map[], false, false),
                [CallEnqueue(1, 7), Go(1), Go(1), Go(1), Go(1), Go(1), Notify(1, 0)])
         == Two(Woken, Idle, None, map[7 := None], true, false)
  {
    hide Run, Step, Two;
    var s := Two(Waiting, Idle, None, map[], false, false);
    var first, last := [CallEnqueue(1, 7), Go(1), Go(1), Go(1)], [Go(1), Go(1), Notify(1, 0)];
    FourSteps(s, first);
    Locks();
    Links();
    ProducerSignals();
    RunThen(s, first, last);
    assert first + last == [CallEnqueue(1, 7), Go(1), Go(1), Go(1), Go(1), Go(1), Notify(1, 0)];
  }

  lemma Locks()
    ensures Step(Two(Waiting, Idle, None, map[], false, false), CallEnqueue(1, 7))
         == Two(Waiting, PLock(7), None, map[], false, false)
    ensures Step(Two(Waiting, PLock(7), None, map[], false, false), Go(1))
         == Two(Waiting, Head(7), Some(1), map[], false, false)
  {
  }

  lemma Links()
    ensures Step(Two(Waiting, Head(7), Some(1), map[], false, false), Go(1))
         == Two(Waiting, Link(7, None), Some(1), map[], false, false)
    ensures Step(Two(Waiting, Link(7, None), Some(1), map[], false, false), Go(1))
         == Two(Waiting, Publish(7), Some(1), map[7 := None], false, false)
  {
  }

  lemma ProducerSignals()
    ensures Run(Two(Waiting, Publish(7), Some(1), map[7 := None], false, false), [Go(1), Go(1), Notify(1, 0)])
         == Two(Woken, Idle, None, map[7 := None], true, false)
  {
    hide Run, Step, Two;
    var s := Two(Waiting, Publish(7), Some(1), map[7 := None], false, false);
    var es := [Go(1), Go(1), Notify(1, 0)];
    assert es[..2][..1] == es[..1] && es[..1][..0] == [];
    RunSteps(s, es[..1]);
    RunSteps(s, es[..2]);
    RunSteps(s, es);
    Published();
    Signals();
  }

  lemma Published()
    ensures Step(Two(Waiting, Publish(7), Some(1), map[7 := None], false, false), Go(1))
         == Two(Waiting, PUnlock, Some(1), map[7 := None], true, false)
  {
    assert [7] + [] == [7] && multiset{} + multiset{7} == multiset{7};
  }

  lemma Signals()
    ensures Step(Two(Waiting, PUnlock, Some(1), map[7 := None], true, false), Go(1))
         == Two(Waiting, Signal, None, map[7 := None], true, false)
    ensures Step(Two(Waiting, Signal, None, map[7 := None], true, false), Notify(1, 0))
         == Two(Woken, Idle, None, map[7 := None], true, false)
  {
  }

  lemma RunSteps(s: State, es: seq<Event>)
    requires es != []
    ensures Run(s, es) == Step(Run(s, es[..|es| - 1]), es[|es| - 1]) && Run(s, []) == s
  {
  }

  lemma ConsumerTakes()
    ensures Run(Two(Woken, Idle, None, map[7 := None], true, false), [Go(0), Go(0), Go(0), Go(0), Go(0), Go(0)])
         == Two(Lock, Idle, None, map[7 := None], false, true)
  {
    hide Run, Step, Two;
    var s := Two(Woken, Idle, None, map[7 := None], true, false);
    var first, last := [Go(0), Go(0), Go(0), Go(0)], [Go(0), Go(0)];
    FourSteps(s, first);
    FindsMessage();
    FollowsMessage();
    TakesMessage();
    assert last[..1][..0] == [];
    RunSteps(Run(s, first), last[..1]);
    RunSteps(Run(s, first), last);
    RunThen(s, first, last);
    assert first + last == [Go(0), Go(0), Go(0), Go(0), Go(0), Go(0)];
  }

  lemma FindsMessage()
    ensures Step(Two(Woken, Idle, None, map[7 := None], true, false), Go(0))
         == Two(Test, Idle, Some(0), map[7 := None], true, false)
    ensures Step(Two(Test, Idle, Some(0), map[7 := None], true, false), Go(0))
         == Two(Take, Idle, Some(0), map[7 := None], true, false)
  {
  }

  lemma FollowsMessage()
    ensures Step(Two(Take, Idle, Some(0), map[7 := None], true, false), Go(0))
         == Two(Follow(7), Idle, Some(0), map[7 := None], true, false)
    ensures Step(Two(Follow(7), Idle, Some(0), map[7 := None], true, false), Go(0))
         == Two(Unlink(7, None), Idle, Some(0), map[7 := None], true, false)
  {
  }

  lemma TakesMessage()
    ensures Step(Two(Unlink(7, None), Idle, Some(0), map[7 := None], true, false), Go(0))
         == Two(Unlock, Idle, Some(0), map[7 := None], false, true)
    ensures Step(Two(Unlock, Idle, Some(0), map[7 := None], false, true), Go(0))
         == Two(Lock, Idle, None, map[7 := None], false, true)
  {
  }
}
