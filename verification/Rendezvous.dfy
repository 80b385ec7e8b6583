/** The signal rendezvous TELL/WAIT between a parent and its child, and the program that uses it to lock
    two bytes in opposite orders. Process 0 is the child, process 1 the parent; a process first locks the
    byte of its own number, then the other one. */
module Rendezvous {
  import opened Options

  /** `Test`: about to look at sigflag; `Suspend`: has seen it 0, about to call sigsuspend; `Suspended`: in
      sigsuspend with an empty mask; `Blocked`: in F_SETLKW for the second byte; `Said`: back from the second
      request and past the message about the lock, with or without the lock. */
  datatype Pc = Lock1 | Tell | Test | Suspend | Suspended | Clear | Unmask | Lock2 | Blocked | Said | Exited

  /** One process: sigflag, whether SIGUSR1/2 are blocked, a pending one; `told`: its partner has sent
      the signal; `deadlk`: its second request came back with EDEADLK. */
  datatype Proc = Proc(pc: Pc, flag: bool, masked: bool, pending: bool, told: bool, deadlk: bool)

  datatype State = State(procs: seq<Proc>, owner: seq<Option<nat>>)

  datatype Event = Go(p: nat) | Spurious(p: nat)

  function Other(p: nat): (q: nat)
    requires p < 2
    ensures q < 2
  {
    1 - p
  }

  function Start(masked: bool): State {
    var proc := Proc(Lock1, false, masked, false, false, false);
    State([proc, proc], [None, None])
  }

  /** After TELL_WAIT and fork: both have the handler, the flag is 0 and the signals are blocked. */
  function Init(): State { Start(true) }

  ghost predicate Shaped(s: State) { |s.procs| == 2 && |s.owner| == 2 }

  /** kill: a suspended process runs the handler and returns from sigsuspend; a masked one gets the signal
      pending; any other runs the handler where it is. */
  function Signalled(q: Proc): Proc {
    var q := q.(told := true);
    if q.pc == Exited then q
    else if q.pc == Suspended then q.(flag := true, pc := Test)
    else if q.masked then q.(pending := true)
    else q.(flag := true)
  }

  function StepGo(s: State, p: nat): (s': State)
    requires Shaped(s) && p < 2
    ensures Shaped(s')
  {
    var me, o := s.procs[p], Other(p);
    match me.pc
    case Lock1 =>
      if s.owner[p].None? then State(s.procs[p := me.(pc := Tell)], s.owner[p := Some(p)]) else s
    case Tell => s.(procs := s.procs[p := me.(pc := Test)][o := Signalled(s.procs[o])])
    case Test => s.(procs := s.procs[p := me.(pc := if me.flag then Clear else Suspend)])
    case Suspend =>      // the pending signal is delivered at once, and its handler ends sigsuspend
      s.(procs := s.procs[p := if me.pending then me.(flag := true, pending := false, pc := Test)
                               else me.(pc := Suspended)])
    case Suspended => s
    case Clear => s.(procs := s.procs[p := me.(flag := false, pc := Unmask)])
    case Unmask =>
      s.(procs := s.procs[p := me.(masked := false, flag := me.flag || me.pending, pending := false, pc := Lock2)])
    case Lock2 =>
      if s.owner[o].None? then State(s.procs[p := me.(pc := Said)], s.owner[o := Some(p)])
      else if s.procs[o].pc == Blocked && s.owner[o] == Some(o) && s.owner[p] == Some(p)
      then s.(procs := s.procs[p := me.(pc := Said, deadlk := true)])
      else s.(procs := s.procs[p := me.(pc := Blocked)])
    case Blocked =>
      if s.owner[o].None? then State(s.procs[p := me.(pc := Said)], s.owner[o := Some(p)]) else s
    case Said =>
      State(s.procs[p := me.(pc := Exited)],
            seq(2, b requires 0 <= b < 2 => if s.owner[b] == Some(p) then None else s.owner[b]))
    case Exited => s
  }

  function Step(s: State, e: Event): (s': State)
    requires Shaped(s)
    ensures Shaped(s')
  {
    if e.p >= 2 then s
    else if e.Go? then StepGo(s, e.p)
    else if s.procs[e.p].pc == Suspended then s.(procs := s.procs[e.p := s.procs[e.p].(pc := Test)])
    else s
  }

  function From(s: State, es: seq<Event>): (r: State)
    requires Shaped(s)
    ensures Shaped(r)
    decreases |es|
  {
    if es == [] then s else Step(From(s, es[..|es| - 1]), es[|es| - 1])
  }

  function Run(es: seq<Event>): (s: State)
    ensures Shaped(s)
  {
    From(Init(), es)
  }

  predicate BeforeTell(pc: Pc) { pc == Lock1 || pc == Tell }
  predicate AtLoop(pc: Pc) { pc == Test || pc == Suspend }
  predicate Waiting(pc: Pc) { BeforeTell(pc) || AtLoop(pc) || pc == Suspended }
  predicate Masked(pc: Pc) { Waiting(pc) || pc == Clear || pc == Unmask }
  predicate Back(pc: Pc) { pc == Said || pc == Exited }

  ghost predicate ProcOk(s: State, p: nat)
    requires Shaped(s) && p < 2
  {
    var me, o := s.procs[p], s.procs[Other(p)];
    && (me.told <==> !BeforeTell(o.pc))
    && (me.masked <==> Masked(me.pc))
    && (!me.told ==> !me.flag && !me.pending && Waiting(me.pc))
    && (me.told && Waiting(me.pc) ==> me.flag != me.pending && me.pc != Suspended)
    && (me.pc == Suspend ==> !me.flag)
    && (me.pc == Clear ==> me.flag && !me.pending)
    && (!Waiting(me.pc) && me.pc != Clear ==> !me.flag && !me.pending)
    && (me.pc == Lock1 ==> s.owner[p] == None)
    && (me.pc != Lock1 && me.pc != Exited ==> s.owner[p] == Some(p))
    && (Back(me.pc) ==> me.deadlk || (o.deadlk && o.pc == Exited))
    && (me.deadlk ==> Back(me.pc) && (o.pc == Blocked || Back(o.pc)))
    && (me.pc == Said ==> (s.owner[Other(p)] == Some(p) <==> !me.deadlk))
    && (me.pc == Said && me.deadlk ==> o.pc == Blocked)
    && (s.owner[p] == Some(Other(p)) ==> me.pc == Exited)
    && (me.pc == Exited ==> s.owner[p] != Some(p))
  }

  ghost predicate Inv(s: State) {
    Shaped(s) && ProcOk(s, 0) && ProcOk(s, 1)
  }

  /** A step of `p` on its own state alone. */
  lemma OwnStep(s: State, p: nat, me: Proc)
    requires Inv(s) && p < 2
    requires ProcOk(s.(procs := s.procs[p := me]), p)
    requires me.pc == s.procs[p].pc ||
        (me.pc != Exited && !Back(me.pc) && !BeforeTell(me.pc) && !BeforeTell(s.procs[p].pc))
    requires me.told == s.procs[p].told && me.deadlk == s.procs[p].deadlk
    requires s.procs[Other(p)].deadlk ==> me.pc == s.procs[p].pc || me.pc == Blocked
    requires s.procs[p].pc != Exited || me.pc == Exited
    ensures Inv(s.(procs := s.procs[p := me]))
  {
    assert ProcOk(s, Other(p)) && Other(Other(p)) == p;
    assert ProcOk(s.(procs := s.procs[p := me]), Other(p));
  }

  lemma LockStep(s: State, p: nat)
    requires Inv(s) && p < 2 && s.procs[p].pc == Lock1
    ensures Inv(StepGo(s, p))
  {
    assert ProcOk(s, p) && ProcOk(s, Other(p));
    assert ProcOk(StepGo(s, p), p) && ProcOk(StepGo(s, p), Other(p));
  }

  lemma TellStep(s: State, p: nat)
    requires Inv(s) && p < 2 && s.procs[p].pc == Tell
    ensures Inv(StepGo(s, p))
  {
    assert ProcOk(s, p) && ProcOk(s, Other(p));
    assert ProcOk(StepGo(s, p), p) && ProcOk(StepGo(s, p), Other(p));
  }

  lemma LoopStep(s: State, p: nat)
    requires Inv(s) && p < 2 && AtLoop(s.procs[p].pc)
    ensures Inv(StepGo(s, p))
  {
    assert ProcOk(s, p) && ProcOk(s, Other(p));
    OwnStep(s, p, StepGo(s, p).procs[p]);
  }

  lemma LeaveStep(s: State, p: nat)
    requires Inv(s) && p < 2 && (s.procs[p].pc == Clear || s.procs[p].pc == Unmask)
    ensures Inv(StepGo(s, p))
  {
    assert ProcOk(s, p) && ProcOk(s, Other(p));
    OwnStep(s, p, StepGo(s, p).procs[p]);
  }

  lemma BlockedStep(s: State, p: nat)
    requires Inv(s) && p < 2 && s.procs[p].pc == Blocked
    ensures Inv(StepGo(s, p))
  {
    assert ProcOk(s, p) && ProcOk(s, Other(p));
    assert ProcOk(StepGo(s, p), p);
    assert ProcOk(StepGo(s, p), Other(p));
  }

  lemma SecondStep(s: State, p: nat)
    requires Inv(s) && p < 2 && s.procs[p].pc == Lock2
    ensures Inv(StepGo(s, p))
  {
    assert ProcOk(s, p) && ProcOk(s, Other(p));
    assert ProcOk(StepGo(s, p), p);
    assert ProcOk(StepGo(s, p), Other(p));
  }

  lemma ExitStep(s: State, p: nat)
    requires Inv(s) && p < 2 && s.procs[p].pc == Said
    ensures Inv(StepGo(s, p))
  {
    assert ProcOk(s, p) && ProcOk(s, Other(p));
    assert ProcOk(StepGo(s, p), p);
    assert ProcOk(StepGo(s, p), Other(p));
  }

  lemma StepKeepsInv(s: State, e: Event)
    requires Inv(s)
    ensures Inv(Step(s, e))
  {
    if e.p < 2 {
      var p, pc := e.p, s.procs[e.p].pc;
      if e.Go? {
        match pc
        case Lock1 => LockStep(s, p);
        case Tell => TellStep(s, p);
        case Test => LoopStep(s, p);
        case Suspend => LoopStep(s, p);
        case Clear => LeaveStep(s, p);
        case Unmask => LeaveStep(s, p);
        case Lock2 => SecondStep(s, p);
        case Blocked => BlockedStep(s, p);
        case Said => ExitStep(s, p);
        case Suspended =>
        case Exited =>
      } else if pc == Suspended {
        assert ProcOk(s, p);
        OwnStep(s, p, s.procs[p].(pc := Test));
      }
    }
  }

  lemma {:induction false} RunsKeepInv(es: seq<Event>)
    ensures Inv(Run(es))
    decreases |es|
  {
    if es != [] {
      RunsKeepInv(es[..|es| - 1]);
      StepKeepsInv(Run(es[..|es| - 1]), es[|es| - 1]);
    }
  }

  // ----- the results

  /** WAIT returns only after the partner's TELL. */
  lemma WaitFollowsTell(es: seq<Event>, p: nat)
    requires p < 2 && !Waiting(Run(es).procs[p].pc)
    ensures Run(es).procs[p].told && !BeforeTell(Run(es).procs[Other(p)].pc)
  {
    hide Run;
    RunsKeepInv(es);
  }

  /** How many accesses of its own a process that has been told still needs to get past its wait. */
  function AccessesLeft(me: Proc): nat {
    match me.pc
    case Lock1 => 5
    case Tell => 4
    case Test => if me.flag then 1 else 3
    case Suspend => 2
    case _ => 0
  }

  /** What anybody else does leaves it as it is. */
  lemma ForeignStep(s: State, e: Event, p: nat)
    requires Inv(s) && p < 2 && s.procs[p].told && e.p != p
    ensures Step(s, e).procs[p] == s.procs[p]
  {
    assert ProcOk(s, p);
  }

  lemma OwnAccess(s: State, p: nat)
    requires Inv(s) && p < 2 && s.procs[p].told
    ensures var me := StepGo(s, p).procs[p];
      me.told && (AccessesLeft(me) < AccessesLeft(s.procs[p]) || AccessesLeft(me) == 0)
  {
    assert ProcOk(s, p);
  }

  lemma ToldStep(s: State, e: Event, p: nat)
    requires Inv(s) && p < 2 && s.procs[p].told
    ensures var me := Step(s, e).procs[p];
      && me.told
      && (e == Go(p) ==> AccessesLeft(me) < AccessesLeft(s.procs[p]) || AccessesLeft(me) == 0)
      && AccessesLeft(me) <= AccessesLeft(s.procs[p])
  {
    assert ProcOk(s, p);
    hide StepGo, ProcOk;
    if e.p != p { ForeignStep(s, e, p); } else if e.Go? { OwnAccess(s, p); }
  }

  /** The accesses of `p` among the events. */
  function Own(es: seq<Event>, p: nat): (n: nat)
    ensures n <= |es|
    decreases |es|
  {
    if es == [] then 0 else Own(es[..|es| - 1], p) + if es[|es| - 1] == Go(p) then 1 else 0
  }

  /** What others do does not touch a process that has been told. */
  lemma {:induction false} ToldIsLeftAlone(s: State, xs: seq<Event>, p: nat)
    requires Inv(s) && p < 2 && s.procs[p].told && forall e :: e in xs ==> e.p != p
    ensures Inv(From(s, xs)) && From(s, xs).procs[p] == s.procs[p]
    decreases |xs|
  {
    hide Step, ProcOk, AccessesLeft;
    if xs != [] {
      var front, e := xs[..|xs| - 1], xs[|xs| - 1];
      ToldIsLeftAlone(s, front, p);
      assert e in xs;
      ForeignStep(From(s, front), e, p);
      StepKeepsInv(From(s, front), e);
    }
  }

  lemma {:induction false} AccessesCount(s: State, xs: seq<Event>, p: nat)
    requires Inv(s) && p < 2 && s.procs[p].told
    ensures var me := From(s, xs).procs[p];
      && Inv(From(s, xs)) && me.told
      && (AccessesLeft(me) + Own(xs, p) <= AccessesLeft(s.procs[p]) || AccessesLeft(me) == 0)
    decreases |xs|
  {
    hide Step, ProcOk, AccessesLeft;
    if xs != [] {
      var front, e := xs[..|xs| - 1], xs[|xs| - 1];
      AccessesCount(s, front, p);
      ToldStep(From(s, front), e, p);
      StepKeepsInv(From(s, front), e);
    }
  }

  /** A TELL is never lost, whether it comes before the test of the flag, between the test and sigsuspend,
      or after. A process that has been told is never left suspended, and whatever happens next, in any
      order, three accesses of its own in the loop (five, if it has not come to the loop yet) take it past
      the wait. */
  lemma TellIsNotLost(es: seq<Event>, p: nat, xs: seq<Event>)
    requires p < 2 && Run(es).procs[p].told
    requires Own(xs, p) >= if AtLoop(Run(es).procs[p].pc) then 3 else 5
    ensures Run(es).procs[p].pc != Suspended
    ensures !Waiting(From(Run(es), xs).procs[p].pc)
  {
    hide Run, Own;
    RunsKeepInv(es);
    AccessesCount(Run(es), xs, p);
    assert ProcOk(Run(es), p) && ProcOk(From(Run(es), xs), p);
  }

  /** That is what the mask is for. With the signals unblocked a TELL between the test and sigsuspend runs
      the handler too early, and the process is left suspended for good: no event of its own or of its
      partner helps, unless sigsuspend returns for some other reason. */
  lemma MaskIsNeeded(xs: seq<Event>)
    requires Spurious(0) !in xs
    ensures var es := [Go(0), Go(1), Go(0), Go(0), Go(1), Go(0)];
      From(Start(false), es).procs[0].told && From(From(Start(false), es), xs).procs[0].pc == Suspended
  {
    ToldTooEarly();
    StaysSuspended(From(Start(false), [Go(0), Go(1), Go(0), Go(0), Go(1), Go(0)]), xs);
  }

  lemma ToldTooEarly()
    ensures var s := From(Start(false), [Go(0), Go(1), Go(0), Go(0), Go(1), Go(0)]);
      s.procs[0].told && s.procs[0].pc == Suspended && s.procs[1].pc == Test
  {
    hide From;
    SixAccesses(Start(false), [Go(0), Go(1), Go(0), Go(0), Go(1), Go(0)]);
    var me := Proc(Tell, false, false, false, false, false);
    var s2 := State([me, me], [Some(0), Some(1)]);
    assert StepGo(StepGo(Start(false), 0), 1) == s2;
    var s4 := s2.(procs := [me.(pc := Suspend), me.(flag := true, told := true)]);
    assert StepGo(StepGo(s2, 0), 0) == s4;
  }

  lemma SixAccesses(s: State, es: seq<Event>)
    requires Shaped(s) && |es| == 6
    ensures From(s, es) == Step(Step(Step(Step(Step(Step(s, es[0]), es[1]), es[2]), es[3]), es[4]), es[5])
  {
    hide Step;
    assert es[..5][..4] == es[..4] && es[..4][..3] == es[..3] && es[..3][..2] == es[..2] && es[..2][..1] == es[..1];
    assert From(s, es[..1]) == Step(From(s, []), es[0]);
    assert From(s, es[..2]) == Step(From(s, es[..1]), es[1]);
    assert From(s, es[..3]) == Step(From(s, es[..2]), es[2]);
    assert From(s, es[..4]) == Step(From(s, es[..3]), es[3]);
    assert From(s, es[..5]) == Step(From(s, es[..4]), es[4]);
  }

  lemma {:induction false} FromThen(s: State, xs: seq<Event>, ys: seq<Event>)
    requires Shaped(s)
    ensures From(s, xs + ys) == From(From(s, xs), ys)
    decreases |ys|
  {
    hide Step;
    if ys == [] {
      assert xs + ys == xs;
    } else {
      assert (xs + ys)[..|xs + ys| - 1] == xs + ys[..|ys| - 1];
      FromThen(s, xs, ys[..|ys| - 1]);
    }
  }

  lemma {:induction false} StaysSuspended(s: State, xs: seq<Event>)
    requires Shaped(s) && s.procs[0].pc == Suspended && !BeforeTell(s.procs[1].pc) && Spurious(0) !in xs
    ensures From(s, xs).procs[0].pc == Suspended && !BeforeTell(From(s, xs).procs[1].pc)
    decreases |xs|
  {
    hide Step;
    if xs != [] {
      StaysSuspended(s, xs[..|xs| - 1]);
      assert xs[|xs| - 1] in xs;
      NobodyElseWakes(From(s, xs[..|xs| - 1]), xs[|xs| - 1]);
    }
  }

  lemma NobodyElseWakes(s: State, e: Event)
    requires Shaped(s) && s.procs[0].pc == Suspended && !BeforeTell(s.procs[1].pc) && e != Spurious(0)
    ensures Step(s, e).procs[0].pc == Suspended && !BeforeTell(Step(s, e).procs[1].pc)
  {
  }

  /** Both first bytes are locked before either second byte is asked for, and as long as the other process
      has not exited the request waits, or is refused: exactly if the other already waits. */
  lemma FirstBytesHeld(es: seq<Event>, p: nat)
    requires p < 2 && (Run(es).procs[p].pc == Lock2 || Run(es).procs[p].pc == Blocked)
    requires Run(es).procs[Other(p)].pc != Exited
    ensures Run(es).owner[p] == Some(p) && Run(es).owner[Other(p)] == Some(Other(p))
    ensures var me := Step(Run(es), Go(p)).procs[p];
      if Run(es).procs[p].pc == Lock2 && Run(es).procs[Other(p)].pc == Blocked then me.pc == Said && me.deadlk
      else me.pc == Blocked && !me.deadlk
  {
    hide Run;
    var s := Run(es);
    RunsKeepInv(es);
    assert ProcOk(s, p) && ProcOk(s, Other(p));
  }

  /** The circular wait is unavoidable: in every run the second byte is obtained only after the system
      has refused the other process its own second byte and that process has exited. */
  lemma CircularWait(es: seq<Event>, p: nat)
    requires p < 2 && (Run(es).owner[Other(p)] == Some(p) || Back(Run(es).procs[p].pc))
    ensures var me, o := Run(es).procs[p], Run(es).procs[Other(p)];
      me.deadlk || (o.deadlk && o.pc == Exited)
  {
    hide Run;
    RunsKeepInv(es);
    assert ProcOk(Run(es), p) && ProcOk(Run(es), Other(p));
  }

  /** lockabyte takes no notice of a refusal: the process that has said it got the second byte has that byte
      if and only if its request was not refused, and if it was, the other process is blocked and has it. */
  lemma SaidWithoutLock(es: seq<Event>, p: nat)
    requires p < 2 && Run(es).procs[p].pc == Said
    ensures Run(es).owner[Other(p)] == Some(p) <==> !Run(es).procs[p].deadlk
    ensures Run(es).procs[p].deadlk ==>
      Run(es).procs[Other(p)].pc == Blocked && Run(es).owner[Other(p)] == Some(Other(p))
  {
    hide Run;
    RunsKeepInv(es);
    assert ProcOk(Run(es), p) && ProcOk(Run(es), Other(p));
  }

  /** And this does happen: the child waits for the parent's byte, the parent is refused the child's. */
  lemma RefusedAndSaid()
    ensures exists es :: Run(es).procs[1].pc == Said && Run(es).procs[1].deadlk && Run(es).owner[0] == Some(0)
  {
    hide From;
    var meet := [Go(0), Go(1), Go(0), Go(1), Go(0), Go(0)];
    var child := [Go(0), Go(0), Go(0), Go(0), Go(0), Go(0)];
    var parent := [Go(1), Go(1), Go(1), Go(1), Go(1), Go(1)];
    BothTold();
    ChildBlocks();
    ParentIsRefused();
    FromThen(Init(), meet, child);
    FromThen(Init(), meet + child, parent);
    assert Run(meet + child + parent) == From(Met(false), parent);
  }

  /** Both hold their first byte and have been told; the child is at the test again, or already blocked. */
  function Met(atTest: bool): (s: State)
    ensures Shaped(s)
  {
    var told := Proc(Test, false, true, true, true, false);
    var child :=
      if atTest then told.(flag := true, pending := false) else Proc(Blocked, false, false, false, true, false);
    State([child, told], [Some(0), Some(1)])
  }

  lemma BothTold()
    ensures From(Init(), [Go(0), Go(1), Go(0), Go(1), Go(0), Go(0)]) == Met(true)
  {
    hide From;
    SixAccesses(Init(), [Go(0), Go(1), Go(0), Go(1), Go(0), Go(0)]);
    var me := Proc(Lock1, false, true, false, false, false);
    var s2 := State([me.(pc := Tell), me.(pc := Tell)], [Some(0), Some(1)]);
    assert s2 == StepGo(StepGo(Init(), 0), 1);
    var told := me.(pc := Test, pending := true, told := true);
    var s4 := State([told, told], s2.owner);
    assert s4 == StepGo(StepGo(s2, 0), 1);
    assert Met(true) == StepGo(StepGo(s4, 0), 0);
  }

  lemma ChildBlocks()
    ensures From(Met(true), [Go(0), Go(0), Go(0), Go(0), Go(0), Go(0)]) == Met(false)
  {
    hide From;
    SixAccesses(Met(true), [Go(0), Go(0), Go(0), Go(0), Go(0), Go(0)]);
    var s3 := Met(true).(procs := [Proc(Lock2, false, false, false, true, false), Met(true).procs[1]]);
    assert s3 == StepGo(StepGo(StepGo(Met(true), 0), 0), 0);
    assert Met(false) == StepGo(s3, 0) == StepGo(Met(false), 0);
  }

  lemma ParentIsRefused()
    ensures var s := From(Met(false), [Go(1), Go(1), Go(1), Go(1), Go(1), Go(1)]);
      s.procs[1].pc == Said && s.procs[1].deadlk && s.owner[0] == Some(0)
  {
    hide From;
    SixAccesses(Met(false), [Go(1), Go(1), Go(1), Go(1), Go(1), Go(1)]);
    var me := Met(false).procs[1];
    var s2 := Met(false).(procs := Met(false).procs[1 := me.(flag := true, pending := false)]);
    assert s2 == StepGo(StepGo(Met(false), 1), 1);
    var s5 := Met(false).(procs := Met(false).procs[1 := Proc(Lock2, false, false, false, true, false)]);
    assert s5 == StepGo(StepGo(StepGo(s2, 1), 1), 1);
  }

  /** Of two processes one of which is done, one was refused. */
  ghost predicate SomeoneRefused(s: State)
    requires Shaped(s)
  {
    forall p :: 0 <= p < 2 && Back(s.procs[p].pc) ==> s.procs[p].deadlk || s.procs[Other(p)].deadlk
  }

  lemma OneRefused(es: seq<Event>)
    ensures SomeoneRefused(Run(es))
  {
    hide Run;
    RunsKeepInv(es);
    assert ProcOk(Run(es), 0) && ProcOk(Run(es), 1);
  }

  // ----- the two processes, one access at a time

  class Pair {
    var procs: seq<Proc>
    var owner: seq<Option<nat>>

    ghost function View(): State
      reads this
    {
      State(procs, owner)
    }

    constructor ()
      ensures View() == Init()
    {
      procs := [Proc(Lock1, false, true, false, false, false), Proc(Lock1, false, true, false, false, false)];
      owner := [None, None];
    }

    /** TELL_PARENT or TELL_CHILD. */
    method TellPartner(p: nat)
      requires Shaped(View()) && p < 2 && procs[p].pc == Tell
      modifies this
      ensures View() == StepGo(old(View()), p)
    {
      procs := procs[p := procs[p].(pc := Test)];
      var q := procs[1 - p].(told := true);
      if q.pc == Suspended {
        q := q.(flag := true, pc := Test);      // the handler runs and sigsuspend returns
      } else if q.pc != Exited {
        q := if q.masked then q.(pending := true) else q.(flag := true);
      }
      procs := procs[1 - p := q];
    }

    /** One access of WAIT_PARENT or WAIT_CHILD: the loop test, sigsuspend, and what follows the loop. */
    method WaitPartner(p: nat)
      requires Shaped(View()) && p < 2
      requires AtLoop(procs[p].pc) || procs[p].pc == Clear || procs[p].pc == Unmask
      modifies this
      ensures View() == StepGo(old(View()), p)
    {
      var me := procs[p];
      if me.pc == Test {
        me := me.(pc := if me.flag then Clear else Suspend);
      } else if me.pc == Suspend {
        me := if me.pending then me.(flag := true, pending := false, pc := Test) else me.(pc := Suspended);
      } else if me.pc == Clear {
        me := me.(flag := false, pc := Unmask);
      } else {
        me := me.(masked := false, flag := me.flag || me.pending, pending := false, pc := Lock2);
      }
      procs := procs[p := me];
    }

    /** lockabyte, and the exit that drops the locks. */
    method LockAByte(p: nat)
      requires Shaped(View()) && p < 2
      requires procs[p].pc == Lock1 || procs[p].pc == Lock2 || procs[p].pc == Blocked || procs[p].pc == Said
      modifies this
      ensures View() == StepGo(old(View()), p)
    {
      var me, o := procs[p], 1 - p;
      if me.pc == Lock1 {
        if owner[p].None? { owner, procs := owner[p := Some(p)], procs[p := me.(pc := Tell)]; }
      } else if me.pc == Said {
        owner := [if owner[0] == Some(p) then None else owner[0], if owner[1] == Some(p) then None else owner[1]];
        procs := procs[p := me.(pc := Exited)];
      } else if owner[o].None? {
        owner, procs := owner[o := Some(p)], procs[p := me.(pc := Said)];
      } else if me.pc == Lock2 {
        if procs[o].pc == Blocked && owner[o] == Some(o) && owner[p] == Some(p) {
          procs := procs[p := me.(pc := Said, deadlk := true)];
        } else {
          procs := procs[p := me.(pc := Blocked)];
        }
      }
    }

    /** Any schedule of the two processes. */
    method Execute(es: seq<Event>)
      requires View() == Init()
      modifies this
      ensures View() == Run(es) && Inv(View()) && SomeoneRefused(View())
    {
      RunsKeepInv(es);
      OneRefused(es);
      var i := 0;
      while i < |es|
        invariant 0 <= i <= |es| && View() == Run(es[..i])
      {
        var e := es[i];
        ghost var before := View();
        if e.p < 2 {
          var pc := procs[e.p].pc;
          if e.Spurious? {
            if pc == Suspended { procs := procs[e.p := procs[e.p].(pc := Test)]; }
          } else if pc == Tell {
            TellPartner(e.p);
          } else if AtLoop(pc) || pc == Clear || pc == Unmask {
            WaitPartner(e.p);
          } else if pc != Suspended && pc != Exited {
            LockAByte(e.p);
          }
        }
        assert View() == Step(before, e);
        i := i + 1;
        assert es[..i][..i - 1] == es[..i - 1];
      }
      assert es[..i] == es;
    }
  }
}
