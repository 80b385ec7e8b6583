/** The condition-variable work queue: any number of threads that run process_msg or enqueue_msg over
    one linked list, one mutex and one condition. Every read or write of a shared variable is one event, and
    so is every pthread call; in particular the test of the list and the wait that follows it are two. */
module CondQueue {
  import opened Options
  import opened Sums

  type Msg = nat   // the address of a message

  datatype Pc =
    | Idle
    // process_msg
    | Lock | Test | CondWait | Waiting | Woken | Take | Follow(mp: Msg) | Unlink(mp: Msg, rest: Option<Msg>) | Unlock
    // enqueue_msg
    | PLock(mp: Msg) | Head(mp: Msg) | Link(mp: Msg, head: Option<Msg>) | Publish(mp: Msg) | PUnlock | Signal

  /** `q` is what the list spells; `enqueued` and `taken` are history. */
  datatype State = State(
    threads: seq<Pc>, workq: Option<Msg>, next: map<Msg, Option<Msg>>, owner: Option<nat>,
    q: seq<Msg>, enqueued: multiset<Msg>, taken: multiset<Msg>)

  datatype Event =
    | CallProcess(t: nat)
    | CallEnqueue(t: nat, mp: Msg)
    | Go(t: nat)                      // one access by thread t
    | Notify(t: nat, woken: nat)      // t's pthread_cond_signal reaches thread `woken`
    | Spurious(t: nat)                // a wait returns without a signal

  function Init(n: nat): State {
    State(seq(n, i => Idle), None, map[], None, [], multiset{}, multiset{})
  }

  predicate IsWaiting(pc: Pc) { pc == Waiting }

  predicate Running(pc: Pc) {
    pc == Lock || pc == Test || pc == CondWait || pc == Woken || pc == Take || pc.Follow? || pc.Unlink? || pc == Unlock
  }

  /** The thread has published a message and not yet signalled it. */
  predicate SignalDue(pc: Pc) { pc == PUnlock || pc == Signal }

  predicate HoldsMutex(pc: Pc) {
    || pc == Test || pc == CondWait || pc == Take || pc.Follow? || pc.Unlink? || pc == Unlock
    || pc.Head? || pc.Link? || pc.Publish? || pc == PUnlock
  }

  predicate Producing(pc: Pc) { pc.PLock? || pc.Head? || pc.Link? || pc.Publish? }

  predicate Carries(pc: Pc, m: Msg) {
    Producing(pc) && pc.mp == m
  }

  function Set(s: State, t: nat, pc: Pc): State
    requires t < |s.threads|
  {
    s.(threads := s.threads[t := pc])
  }

  /** The next access of process_msg. */
  function ConsumerGo(s: State, t: nat): State
    requires t < |s.threads|
  {
    match s.threads[t]
    case Lock => if s.owner.None? then Set(s, t, Test).(owner := Some(t)) else s
    case Woken => if s.owner.None? then Set(s, t, Test).(owner := Some(t)) else s
    case Test => Set(s, t, if s.workq.None? then CondWait else Take)
    case CondWait => Set(s, t, Waiting).(owner := None)
    case Take => if s.workq.Some? then Set(s, t, Follow(s.workq.value)) else s
    case Follow(mp) => if mp in s.next then Set(s, t, Unlink(mp, s.next[mp])) else s
    case Unlink(mp, rest) =>
      if s.q == [] then s
      else Set(s, t, Unlock).(workq := rest, q := s.q[1..], taken := s.taken + multiset{mp})
    case Unlock => Set(s, t, Lock).(owner := None)
    case _ => s
  }

  /** The next access of enqueue_msg, up to the signal. */
  function ProducerGo(s: State, t: nat): State
    requires t < |s.threads|
  {
    match s.threads[t]
    case PLock(mp) => if s.owner.None? then Set(s, t, Head(mp)).(owner := Some(t)) else s
    case Head(mp) => Set(s, t, Link(mp, s.workq))
    case Link(mp, head) => Set(s, t, Publish(mp)).(next := s.next[mp := head])
    case Publish(mp) =>
      Set(s, t, PUnlock).(workq := Some(mp), q := [mp] + s.q, enqueued := s.enqueued + multiset{mp})
    case PUnlock => Set(s, t, Signal).(owner := None)
    case _ => s
  }

  function StepGo(s: State, t: nat): State
    requires t < |s.threads|
  {
    if Producing(s.threads[t]) || s.threads[t] == PUnlock then ProducerGo(s, t)
    else if Running(s.threads[t]) then ConsumerGo(s, t)
    else s
  }

  /** A signal wakes a waiting thread when there is one; which one is the event's choice. More than one
      waking is a signal followed by spurious wakeups. */
  function StepNotify(s: State, t: nat, woken: nat): State
    requires t < |s.threads|
  {
    if s.threads[t] != Signal then s
    else if woken < |s.threads| && s.threads[woken] == Waiting then Set(Set(s, woken, Woken), t, Idle)
    else if Waiting in s.threads then s
    else Set(s, t, Idle)
  }

  function Step(s: State, e: Event): State {
    if e.t >= |s.threads| then s else
    match e
    case CallProcess(t) => if s.threads[t] == Idle then Set(s, t, Lock) else s
    case CallEnqueue(t, mp) => if s.threads[t] == Idle then Set(s, t, PLock(mp)) else s
    case Go(t) => StepGo(s, t)
    case Notify(t, woken) => StepNotify(s, t, woken)
    case Spurious(t) => if s.threads[t] == Waiting then Set(s, t, Woken) else s
  }

  function Run(s: State, es: seq<Event>): State
    decreases |es|
  {
    if es == [] then s else Step(Run(s, es[..|es| - 1]), es[|es| - 1])
  }

  // ----- the invariant

  /** The list from `head` spells `q`, ends, and visits no message twice. */
  ghost predicate Spells(head: Option<Msg>, next: map<Msg, Option<Msg>>, q: seq<Msg>) {
    && (q == [] <==> head == None)
    && (q != [] ==> head == Some(q[0]))
    && (forall i :: 0 <= i < |q| ==> q[i] in next)
    && (forall i :: 0 <= i < |q| - 1 ==> next[q[i]] == Some(q[i + 1]))
    && (q != [] ==> next[q[|q| - 1]] == None)
    && (forall i, j :: 0 <= i < j < |q| ==> q[i] != q[j])
  }

  ghost predicate ThreadOk(s: State, t: nat)
    requires t < |s.threads|
  {
    var pc := s.threads[t];
    && (HoldsMutex(pc) <==> s.owner == Some(t))
    && (pc == CondWait ==> s.q == [])
    && (pc == Take ==> s.q != [])
    && (pc.Follow? || pc.Unlink? ==> s.workq == Some(pc.mp))
    && (pc.Unlink? ==> pc.mp in s.next && s.next[pc.mp] == pc.rest)
    && (pc.Link? ==> pc.head == s.workq)
    && (pc.Publish? ==> pc.mp in s.next && s.next[pc.mp] == s.workq)
    && (Producing(pc) ==> pc.mp !in s.q)
  }

  /** No two threads are carrying the same message to the queue. */
  ghost predicate CarriedOnce(s: State) {
    forall t, u, m ::
      0 <= t < |s.threads| && 0 <= u < |s.threads| && Carries(s.threads[t], m) && Carries(s.threads[u], m) ==> t == u
  }

  ghost predicate NoLostWakeup(s: State) {
    Count(s.threads, IsWaiting) > 0 ==> |s.q| <= Count(s.threads, SignalDue) + Count(s.threads, Running)
  }

  ghost predicate Inv(s: State) {
    && Spells(s.workq, s.next, s.q)
    && s.enqueued == multiset(s.q) + s.taken
    && (s.owner.Some? ==> s.owner.value < |s.threads|)
    && (forall t :: 0 <= t < |s.threads| ==> ThreadOk(s, t))
    && CarriedOnce(s)
    && NoLostWakeup(s)
  }

  /** The caller owns the message it enqueues: it is neither queued nor being enqueued by anyone. */
  predicate Owns(s: State, e: Event) {
    e.CallEnqueue? ==> e.mp !in s.q && NobodyCarries(s, e.mp)
  }

  predicate NobodyCarries(s: State, m: Msg) {
    forall u :: 0 <= u < |s.threads| ==> !Carries(s.threads[u], m)
  }

  ghost predicate OwnedRun(n: nat, es: seq<Event>)
    decreases |es|
  {
    es == [] || (OwnedRun(n, es[..|es| - 1]) && Owns(Run(Init(n), es[..|es| - 1]), es[|es| - 1]))
  }

  // ----- every step keeps it

  lemma CountSet(s: State, t: nat, pc: Pc)
    requires t < |s.threads|
    ensures Count(s.threads[t := pc], IsWaiting) ==
      Count(s.threads, IsWaiting) - (if IsWaiting(s.threads[t]) then 1 else 0) + (if IsWaiting(pc) then 1 else 0)
    ensures Count(s.threads[t := pc], SignalDue) ==
      Count(s.threads, SignalDue) - (if SignalDue(s.threads[t]) then 1 else 0) + (if SignalDue(pc) then 1 else 0)
    ensures Count(s.threads[t := pc], Running) ==
      Count(s.threads, Running) - (if Running(s.threads[t]) then 1 else 0) + (if Running(pc) then 1 else 0)
  {
    CountUpdate(s.threads, t, pc, IsWaiting);
    CountUpdate(s.threads, t, pc, SignalDue);
    CountUpdate(s.threads, t, pc, Running);
  }

  /** As far as the wakeups go, thread `t` may move on to `pc`. */
  predicate OwesAsMuch(s: State, t: nat, pc: Pc)
    requires t < |s.threads|
  {
    || s.q == []
    || ((Running(s.threads[t]) || SignalDue(s.threads[t]) ==> Running(pc) || SignalDue(pc)) && !IsWaiting(pc))
  }

  /** A step of `t` that leaves the queue as it is, except perhaps the mutex and an unpublished link. */
  lemma QuietStep(s: State, t: nat, pc: Pc, owner: Option<nat>, next: map<Msg, Option<Msg>>)
    requires Inv(s) && t < |s.threads|
    requires next == s.next || (s.threads[t].Link? && next == s.next[s.threads[t].mp := s.workq]
                                && pc == Publish(s.threads[t].mp))
    requires owner == s.owner || (s.owner == None && owner == Some(t)) || (s.owner == Some(t) && owner == None)
    requires ThreadOk(Set(s, t, pc).(owner := owner, next := next), t)
    requires Producing(pc) ==>
      (Producing(s.threads[t]) && s.threads[t].mp == pc.mp) || (pc.mp !in s.q && NobodyCarries(s, pc.mp))
    requires OwesAsMuch(s, t, pc)
    ensures Inv(Set(s, t, pc).(owner := owner, next := next))
  {
    assert Spells(s.workq, next, s.q) by { assert ThreadOk(s, t); }
    hide Spells, OwesAsMuch;
    var s' := Set(s, t, pc).(owner := owner, next := next);
    forall u | 0 <= u < |s'.threads| ensures ThreadOk(s', u) {
      assert ThreadOk(s, u) && ThreadOk(s, t);
    }
    hide ThreadOk;
    CarriedStays(s, t, pc);
    assert CarriedOnce(s');
    WakeupsStay(s, t, pc);
  }

  lemma WakeupsStay(s: State, t: nat, pc: Pc)
    requires NoLostWakeup(s) && t < |s.threads| && OwesAsMuch(s, t, pc)
    ensures NoLostWakeup(Set(s, t, pc))
  {
    CountSet(s, t, pc);
  }

  lemma CarriedStays(s: State, t: nat, pc: Pc)
    requires CarriedOnce(s) && t < |s.threads|
    requires Producing(pc) ==>
      (Producing(s.threads[t]) && s.threads[t].mp == pc.mp) || NobodyCarries(s, pc.mp)
    ensures CarriedOnce(Set(s, t, pc))
  {
    if Producing(pc) && Producing(s.threads[t]) && s.threads[t].mp == pc.mp {
      assert Carries(s.threads[t], pc.mp);
    }
  }

  lemma PopSpells(head: Option<Msg>, next: map<Msg, Option<Msg>>, q: seq<Msg>)
    requires Spells(head, next, q) && q != []
    ensures head == Some(q[0]) && q[0] in next && Spells(next[q[0]], next, q[1..])
    ensures multiset(q) == multiset{q[0]} + multiset(q[1..])
  {
    assert q == [q[0]] + q[1..];
    if |q| == 1 {
      assert next[q[|q| - 1]] == None;
    } else {
      assert next[q[0]] == Some(q[0 + 1]);
      var r := q[1..];
      forall i | 0 <= i < |r| - 1 ensures next[r[i]] == Some(r[i + 1]) {
        assert r[i] == q[i + 1];
      }
    }
  }

  lemma PushSpells(head: Option<Msg>, next: map<Msg, Option<Msg>>, q: seq<Msg>, mp: Msg)
    requires Spells(head, next, q) && mp in next && next[mp] == head && mp !in q
    ensures Spells(Some(mp), next, [mp] + q)
    ensures multiset([mp] + q) == multiset{mp} + multiset(q)
  {
  }

  lemma UnlinkStep(s: State, t: nat)
    requires Inv(s) && t < |s.threads| && s.threads[t].Unlink?
    ensures Inv(StepGo(s, t))
  {
    assert ThreadOk(s, t);
    PopSpells(s.workq, s.next, s.q);
    CountSet(s, t, Unlock);
    MoveLocked(s, StepGo(s, t), t);
  }

  lemma PublishStep(s: State, t: nat)
    requires Inv(s) && t < |s.threads| && s.threads[t].Publish?
    ensures Inv(StepGo(s, t))
  {
    assert ThreadOk(s, t);
    assert Carries(s.threads[t], s.threads[t].mp);
    PushSpells(s.workq, s.next, s.q, s.threads[t].mp);
    CountSet(s, t, PUnlock);
    MoveLocked(s, StepGo(s, t), t);
  }

  /** A step of the mutex holder that changes the list. */
  lemma MoveLocked(s: State, s': State, t: nat)
    requires Inv(s) && t < |s.threads| && s.owner == Some(t) == s'.owner && s'.next == s.next
    requires |s'.threads| == |s.threads| && s'.threads == s.threads[t := s'.threads[t]]
    requires s'.threads[t] == Unlock || s'.threads[t] == PUnlock
    requires forall m :: m in s'.q ==> m in s.q || Carries(s.threads[t], m)
    requires Spells(s'.workq, s'.next, s'.q) && s'.enqueued == multiset(s'.q) + s'.taken
    requires NoLostWakeup(s')
    ensures Inv(s')
  {
    forall u | 0 <= u < |s'.threads| ensures ThreadOk(s', u) {
      assert ThreadOk(s, u);
      if u != t && Producing(s.threads[u]) {
        assert Carries(s.threads[u], s.threads[u].mp);
      }
    }
  }

  /** Testing and, if the list was empty, waiting: no producer gets the mutex in between, so the list is
      still empty when the wait begins, and nobody is being left behind. */
  lemma WaitStep(s: State, t: nat)
    requires Inv(s) && t < |s.threads| && (s.threads[t] == Test || s.threads[t] == CondWait)
    ensures Inv(StepGo(s, t))
  {
    assert ThreadOk(s, t);
    if s.threads[t] == CondWait {
      QuietStep(s, t, Waiting, None, s.next);
    } else {
      QuietStep(s, t, if s.workq.None? then CondWait else Take, s.owner, s.next);
    }
  }

  lemma LockStep(s: State, t: nat)
    requires Inv(s) && t < |s.threads|
    requires s.threads[t] == Lock || s.threads[t] == Woken || s.threads[t].PLock?
    ensures Inv(StepGo(s, t))
  {
    assert ThreadOk(s, t);
    if s.owner.None? {
      QuietStep(s, t, if s.threads[t].PLock? then Head(s.threads[t].mp) else Test, Some(t), s.next);
    }
  }

  /** The holder of the mutex reads what it needs before it changes the list. */
  lemma ReadStep(s: State, t: nat)
    requires Inv(s) && t < |s.threads| && (s.threads[t] == Take || s.threads[t].Follow?)
    ensures Inv(StepGo(s, t))
  {
    assert ThreadOk(s, t);
    if s.threads[t] == Take {
      QuietStep(s, t, Follow(s.workq.value), s.owner, s.next);
    } else {
      PopSpells(s.workq, s.next, s.q);
      hide Spells;
      var mp := s.threads[t].mp;
      QuietStep(s, t, Unlink(mp, s.next[mp]), s.owner, s.next);
    }
  }

  lemma HeadStep(s: State, t: nat)
    requires Inv(s) && t < |s.threads| && s.threads[t].Head?
    ensures Inv(StepGo(s, t))
  {
    hide Spells, CarriedOnce;
    assert ThreadOk(s, t);
    QuietStep(s, t, Link(s.threads[t].mp, s.workq), s.owner, s.next);
  }

  lemma LinkStep(s: State, t: nat)
    requires Inv(s) && t < |s.threads| && s.threads[t].Link?
    ensures Inv(StepGo(s, t))
  {
    assert ThreadOk(s, t);
    QuietStep(s, t, Publish(s.threads[t].mp), s.owner, StepGo(s, t).next);
  }

  lemma UnlockStep(s: State, t: nat)
    requires Inv(s) && t < |s.threads| && (s.threads[t] == Unlock || s.threads[t] == PUnlock)
    ensures Inv(StepGo(s, t))
  {
    hide Spells, CarriedOnce, NoLostWakeup;
    assert ThreadOk(s, t);
    QuietStep(s, t, if s.threads[t] == PUnlock then Signal else Lock, None, s.next);
  }

  lemma WakeStep(s: State, t: nat)
    requires Inv(s) && t < |s.threads| && s.threads[t] == Waiting
    ensures Inv(Set(s, t, Woken))
  {
    assert ThreadOk(s, t);
    QuietStep(s, t, Woken, s.owner, s.next);
  }

  lemma UncountSignal(s: State, t: nat)
    requires Inv(s) && t < |s.threads| && s.threads[t] == Signal
    requires Count(s.threads, IsWaiting) == 0 ||
             |s.q| + 1 <= Count(s.threads, SignalDue) + Count(s.threads, Running)
    ensures Inv(Set(s, t, Idle))
  {
    var s' := Set(s, t, Idle);
    assert ThreadOk(s, t);
    CountSet(s, t, Idle);
    forall u | 0 <= u < |s'.threads| ensures ThreadOk(s', u) {
      assert ThreadOk(s, u);
    }
    CarriedStays(s, t, Idle);
  }

  /** A signal: if anybody waits, somebody starts running; otherwise nothing was owed. */
  lemma NotifyStep(s: State, t: nat, woken: nat)
    requires Inv(s) && t < |s.threads|
    ensures Inv(StepNotify(s, t, woken))
  {
    CountNone(s.threads, IsWaiting);
    if s.threads[t] == Signal {
      if woken < |s.threads| && s.threads[woken] == Waiting {
        WakeStep(s, woken);
        CountSet(s, woken, Woken);
        UncountSignal(Set(s, woken, Woken), t);
      } else if Waiting !in s.threads {
        UncountSignal(s, t);
      }
    }
  }

  lemma CallStep(s: State, e: Event)
    requires Inv(s) && Owns(s, e) && e.t < |s.threads| && (e.CallProcess? || e.CallEnqueue?)
    ensures Inv(Step(s, e))
  {
    if s.threads[e.t] == Idle {
      assert ThreadOk(s, e.t);
      QuietStep(s, e.t, if e.CallProcess? then Lock else PLock(e.mp), s.owner, s.next);
    }
  }

  lemma StepKeepsInv(s: State, e: Event)
    requires Inv(s) && Owns(s, e)
    ensures Inv(Step(s, e))
  {
    if e.t < |s.threads| {
      match e
      case Notify(t, woken) => NotifyStep(s, t, woken);
      case Spurious(t) => if s.threads[t] == Waiting { WakeStep(s, t); }
      case CallProcess(_) => CallStep(s, e);
      case CallEnqueue(_, _) => CallStep(s, e);
      case Go(t) =>
        match s.threads[t] {
          case Lock => LockStep(s, t);
          case Woken => LockStep(s, t);
          case PLock(_) => LockStep(s, t);
          case Test => WaitStep(s, t);
          case CondWait => WaitStep(s, t);
          case Unlink(_, _) => UnlinkStep(s, t);
          case Publish(_) => PublishStep(s, t);
          case Take => ReadStep(s, t);
          case Follow(_) => ReadStep(s, t);
          case Head(_) => HeadStep(s, t);
          case Link(_, _) => LinkStep(s, t);
          case Unlock => UnlockStep(s, t);
          case PUnlock => UnlockStep(s, t);
          case Idle =>
          case Waiting =>
          case Signal =>
        }
    }
  }

  lemma {:induction false} RunsKeepInv(n: nat, es: seq<Event>)
    requires OwnedRun(n, es)
    ensures Inv(Run(Init(n), es))
    decreases |es|
  {
    if es == [] {
      CountNone(Init(n).threads, IsWaiting);
    } else {
      RunsKeepInv(n, es[..|es| - 1]);
      StepKeepsInv(Run(Init(n), es[..|es| - 1]), es[|es| - 1]);
    }
  }

  // ----- the results

  /** No lost wakeup: while somebody waits, every queued message is matched by a producer that has still
      to signal or by a consumer that is awake. */
  lemma NoWakeupIsLost(n: nat, es: seq<Event>)
    requires OwnedRun(n, es)
    ensures var s := Run(Init(n), es);
      Waiting in s.threads ==> |s.q| <= Count(s.threads, SignalDue) + Count(s.threads, Running)
  {
    RunsKeepInv(n, es);
    CountNone(Run(Init(n), es).threads, IsWaiting);
  }

  /** Hence when somebody waits, no consumer is awake and no signal is outstanding, the list is empty. */
  lemma AllWaitingMeansEmpty(n: nat, es: seq<Event>)
    requires OwnedRun(n, es) && Waiting in Run(Init(n), es).threads
    requires forall t :: 0 <= t < |Run(Init(n), es).threads| ==>
      !Running(Run(Init(n), es).threads[t]) && !SignalDue(Run(Init(n), es).threads[t])
    ensures Run(Init(n), es).q == [] && Run(Init(n), es).workq == None
  {
    NoWakeupIsLost(n, es);
    RunsKeepInv(n, es);
    CountNone(Run(Init(n), es).threads, SignalDue);
    CountNone(Run(Init(n), es).threads, Running);
  }

  /** The pointers always spell a finite list without repetition, and messages are neither lost nor
      delivered twice: what was enqueued is what is queued plus what was taken, with multiplicity. */
  lemma ListAndMessages(n: nat, es: seq<Event>)
    requires OwnedRun(n, es)
    ensures var s := Run(Init(n), es);
      && Spells(s.workq, s.next, s.q)
      && s.enqueued == multiset(s.q) + s.taken
      && forall m :: s.taken[m] <= s.enqueued[m]
  {
    RunsKeepInv(n, es);
  }

  /** At most one thread is between lock and unlock. */
  lemma MutualExclusion(n: nat, es: seq<Event>, t: nat, u: nat)
    requires OwnedRun(n, es) && t < |Run(Init(n), es).threads| && u < |Run(Init(n), es).threads|
    requires HoldsMutex(Run(Init(n), es).threads[t]) && HoldsMutex(Run(Init(n), es).threads[u])
    ensures t == u
  {
    RunsKeepInv(n, es);
    assert ThreadOk(Run(Init(n), es), t) && ThreadOk(Run(Init(n), es), u);
  }

  /** What a consumer is about to read is there. */
  lemma ReadyToGo(s: State, t: nat)
    requires Inv(s) && t < |s.threads|
    ensures s.threads[t] == Take ==> s.workq.Some?
    ensures s.threads[t].Follow? ==> s.threads[t].mp in s.next
    ensures s.threads[t].Unlink? ==> s.q != []
  {
    assert ThreadOk(s, t);
  }

  // ----- the program, updating the shared variables in place

  class WorkQueue {
    var threads: seq<Pc>
    var workq: Option<Msg>
    var next: map<Msg, Option<Msg>>
    var owner: Option<nat>
    ghost var q: seq<Msg>
    ghost var enqueued: multiset<Msg>
    ghost var taken: multiset<Msg>

    ghost function View(): State
      reads this
    {
      State(threads, workq, next, owner, q, enqueued, taken)
    }

    constructor (n: nat)
      ensures View() == Init(n) && Inv(View())
    {
      threads := seq(n, i => Idle);
      workq, next, owner, q, enqueued, taken := None, map[], None, [], multiset{}, multiset{};
      new;
      CountNone(threads, IsWaiting);
    }

    /** process_msg, one access at a time. */
    method ProcessMsg(t: nat)
      requires t < |threads| && Running(threads[t])
      requires threads[t] == Take ==> workq.Some?
      requires threads[t].Follow? ==> threads[t].mp in next
      requires threads[t].Unlink? ==> q != []
      modifies this
      ensures View() == ConsumerGo(old(View()), t)
    {
      if threads[t] == Test {
        threads := threads[t := if workq.None? then CondWait else Take];
      } else if threads[t] == CondWait {
        owner := None;
        threads := threads[t := Waiting];
      } else if threads[t] == Take {
        threads := threads[t := Follow(workq.value)];
      } else if threads[t].Follow? {
        var mp := threads[t].mp;
        threads := threads[t := Unlink(mp, next[mp])];
      } else if threads[t].Unlink? {
        workq := threads[t].rest;
        q, taken := q[1..], taken + multiset{threads[t].mp};
        threads := threads[t := Unlock];
      } else if threads[t] == Unlock {
        owner := None;
        threads := threads[t := Lock];
      } else if owner.None? {
        owner := Some(t);
        threads := threads[t := Test];
      }
    }

    /** enqueue_msg, one access at a time, up to the signal. */
    method EnqueueMsg(t: nat)
      requires t < |threads| && (Producing(threads[t]) || threads[t] == PUnlock)
      modifies this
      ensures View() == ProducerGo(old(View()), t)
    {
      if threads[t] == PUnlock {
        owner := None;
        threads := threads[t := Signal];
        return;
      }
      var mp := threads[t].mp;
      if threads[t].PLock? {
        if owner.None? {
          owner := Some(t);
          threads := threads[t := Head(mp)];
        }
      } else if threads[t].Head? {
        threads := threads[t := Link(mp, workq)];
      } else if threads[t].Link? {
        next := next[mp := threads[t].head];
        threads := threads[t := Publish(mp)];
      } else {
        workq := Some(mp);
        q, enqueued := [mp] + q, enqueued + multiset{mp};
        threads := threads[t := PUnlock];
      }
    }

    /** pthread_cond_signal. */
    method CondSignal(t: nat, woken: nat)
      requires t < |threads| && threads[t] == Signal
      modifies this
      ensures View() == StepNotify(old(View()), t, woken)
    {
      if woken < |threads| && threads[woken] == Waiting {
        threads := threads[woken := Woken];
        threads := threads[t := Idle];
      } else if Waiting !in threads {
        threads := threads[t := Idle];
      }
    }

    method Deliver(e: Event)
      requires Inv(View()) && Owns(View(), e)
      modifies this
      ensures View() == Step(old(View()), e) && Inv(View())
    {
      hide Inv, Owns, ConsumerGo, ProducerGo;
      ghost var before := View();
      StepKeepsInv(before, e);
      if e.t >= |threads| { return; }
      var pc := threads[e.t];
      match e {
        case CallProcess(t) => if pc == Idle { threads := threads[t := Lock]; }
        case CallEnqueue(t, mp) => if pc == Idle { threads := threads[t := PLock(mp)]; }
        case Spurious(t) => if pc == Waiting { threads := threads[t := Woken]; }
        case Notify(t, woken) => if pc == Signal { CondSignal(t, woken); }
        case Go(t) =>
          if Running(pc) {
            ReadyToGo(before, t);
            ProcessMsg(t);
          } else if Producing(pc) || pc == PUnlock {
            EnqueueMsg(t);
          }
      }
    }

    /** Any schedule of callers that own what they enqueue. */
    method Execute(n: nat, es: seq<Event>)
      requires View() == Init(n) && OwnedRun(n, es)
      modifies this
      ensures View() == Run(Init(n), es) && Inv(View())
    {
      hide Inv, Step, Owns;
      RunsKeepInv(n, []);
      var i := 0;
      while i < |es|
        invariant 0 <= i <= |es| && View() == Run(Init(n), es[..i]) && Inv(View())
      {
        OwnedPrefix(n, es, i + 1);
        assert es[..i + 1][..i] == es[..i];
        Deliver(es[i]);
        i := i + 1;
      }
      assert es[..i] == es;
    }
  }

  lemma {:induction false} OwnedPrefix(n: nat, es: seq<Event>, i: nat)
    requires OwnedRun(n, es) && i <= |es|
    ensures OwnedRun(n, es[..i])
    decreases |es|
  {
    if i == |es| {
      assert es[..i] == es;
    } else {
      OwnedPrefix(n, es[..|es| - 1], i);
      assert es[..|es| - 1][..i] == es[..i];
    }
  }
}
