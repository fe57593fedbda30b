/** The start of a run as interleaved steps of two processes: the debugger attaches and waits, the
    forked child asks to be traced, prints and executes the program. Both print under one lock that is
    not recursive. */
module Handshake {
  import opened Options

  datatype Owner = Nobody | Parent | Child

  /** attachPtrace, with the wait of ptraceContinue inside; the lock steps exist only when
      ptraceContinue is asked to hold the print lock. */
  datatype ParentPoint =
    | Attaching | FirstWait | SettingOptions | Locking | Continuing | SecondWait | Unlocking | Returned

  /** initChild: TRACEME after its sleep, one print under the lock, execv, then the program itself. */
  datatype ChildPoint = Sleeping | AskingLock | Printing | Executing | InProgram

  /** A stop signal can be pending before it is taken; a stop is reported to one wait, and the child
      stays stopped. */
  datatype ChildState = Running | StopPending | Stopped | Reported

  datatype State = State(
    holdsLock: bool,
    parent: ParentPoint,
    child: ChildPoint,
    run: ChildState,
    lock: Owner,
    tracedBy: Owner)

  datatype Action =
    | Attach | Wait | SetOptions | ParentLock | Cont | ParentUnlock
    | TraceMe | ChildLock | ChildUnlock | Exec | TakeStop

  /** Just after the fork. */
  function Forked(holdsLock: bool): State {
    State(holdsLock, Attaching, Sleeping, Running, Nobody, Nobody)
  }

  predicate CanRun(s: State) { s.run.Running? || s.run.StopPending? }

  /** `None`: the action is not possible now. */
  function Do(s: State, a: Action): Option<State> {
    match a
    case Attach =>
      // fails without effect on a process already traced
      if s.parent != Attaching then None
      else if s.tracedBy != Nobody then Some(s.(parent := FirstWait))
      else Some(s.(parent := FirstWait, tracedBy := Parent, run := StopPending))
    case Wait =>
      if s.run != Stopped then None
      else if s.parent == FirstWait then Some(s.(parent := SettingOptions, run := Reported))
      else if s.parent == SecondWait then
        Some(s.(parent := if s.holdsLock then Unlocking else Returned, run := Reported))
      else None
    case SetOptions =>
      if s.parent != SettingOptions then None
      else Some(s.(parent := if s.holdsLock then Locking else Continuing))
    case ParentLock =>
      if s.parent != Locking || s.lock != Nobody then None
      else Some(s.(parent := Continuing, lock := Parent))
    case Cont =>
      if s.parent != Continuing then None
      else Some(s.(parent := SecondWait, run := if CanRun(s) then s.run else Running))
    case ParentUnlock =>
      if s.parent != Unlocking then None else Some(s.(parent := Returned, lock := Nobody))
    case TraceMe =>
      if s.child != Sleeping || !CanRun(s) then None
      else Some(s.(child := AskingLock, tracedBy := if s.tracedBy == Nobody then Child else s.tracedBy))
    case ChildLock =>
      if s.child != AskingLock || !CanRun(s) || s.lock != Nobody then None
      else Some(s.(child := Printing, lock := Child))
    case ChildUnlock =>
      if s.child != Printing || !CanRun(s) then None
      else Some(s.(child := Executing, lock := Nobody))
    case Exec =>
      // a pending stop is taken before; a traced process stops after its exec
      if s.child != Executing || s.run != Running then None
      else Some(s.(child := InProgram, run := if s.tracedBy != Nobody then Stopped else Running))
    case TakeStop =>
      if s.run != StopPending then None else Some(s.(run := Stopped))
  }

  function DoAll(s: State, actions: seq<Action>): Option<State>
    decreases |actions|
  {
    if actions == [] then Some(s)
    else
      match Do(s, actions[0])
      case None => None
      case Some(t) => DoAll(t, actions[1..])
  }

  predicate Stuck(s: State) {
    forall a: Action :: Do(s, a).None?
  }

  /** The parent is back from its wait, the child stands at its exec stop, and nobody has the lock. */
  predicate Ready(s: State) {
    s.parent == Returned && s.child == InProgram && s.run == Reported && s.lock == Nobody
  }

  function ParentLeft(p: ParentPoint): nat {
    match p
    case Attaching => 7 case FirstWait => 6 case SettingOptions => 5 case Locking => 4
    case Continuing => 3 case SecondWait => 2 case Unlocking => 1 case Returned => 0
  }

  function ChildLeft(c: ChildPoint): nat {
    match c
    case Sleeping => 4 case AskingLock => 3 case Printing => 2 case Executing => 1 case InProgram => 0
  }

  function StepsLeft(s: State): nat {
    2 * ParentLeft(s.parent) + ChildLeft(s.child) + if s.run == StopPending then 1 else 0
  }

  lemma ActionsProgress(s: State, a: Action)
    requires Do(s, a).Some?
    ensures StepsLeft(Do(s, a).value) < StepsLeft(s)
  {
  }

  /** No interleaving is longer than this. */
  lemma {:induction false} InterleavingsAreShort(s: State, actions: seq<Action>)
    requires DoAll(s, actions).Some?
    ensures |actions| + StepsLeft(DoAll(s, actions).value) <= StepsLeft(s)
    decreases |actions|
  {
    if actions != [] {
      ActionsProgress(s, actions[0]);
      InterleavingsAreShort(Do(s, actions[0]).value, actions[1..]);
    }
  }

  /** What every interleaving keeps in which the child did not ask to be traced before the attach. */
  predicate Inv(s: State) {
    && s.tracedBy != Child
    && (s.lock == Child <==> s.child == Printing)
    && (s.lock == Parent <==> s.holdsLock && s.parent in {Continuing, SecondWait, Unlocking})
    && (s.parent in {Locking, Unlocking} ==> s.holdsLock)
    && match s.parent
       case Attaching => s.tracedBy == Nobody && s.child == Sleeping && s.run == Running
       case FirstWait => s.tracedBy != Nobody && s.child != InProgram && (s.run == StopPending || s.run == Stopped)
       case SettingOptions | Locking | Continuing =>
         s.tracedBy != Nobody && s.child != InProgram && s.run == Reported
       case SecondWait =>
         s.tracedBy != Nobody && if s.child == InProgram then s.run == Stopped else s.run == Running
       case Unlocking | Returned => s.child == InProgram && s.run == Reported
  }

  lemma ActionsKeepInv(s: State, a: Action)
    requires Inv(s) && Do(s, a).Some? && Do(s, a).value.tracedBy != Child
    ensures Inv(Do(s, a).value)
  {
  }

  lemma {:induction false} SelfTracedStays(s: State, actions: seq<Action>)
    requires s.tracedBy == Child && DoAll(s, actions).Some?
    ensures DoAll(s, actions).value.tracedBy == Child
    decreases |actions|
  {
    if actions != [] {
      SelfTracedStays(Do(s, actions[0]).value, actions[1..]);
    }
  }

  lemma {:induction false} InterleavingsKeepInv(s: State, actions: seq<Action>)
    requires Inv(s) && DoAll(s, actions).Some?
    requires DoAll(s, actions).value.tracedBy != Child
    ensures Inv(DoAll(s, actions).value)
    ensures DoAll(s, actions).value.holdsLock == s.holdsLock
    decreases |actions|
  {
    if actions != [] {
      var next := Do(s, actions[0]).value;
      if next.tracedBy == Child {
        SelfTracedStays(next, actions[1..]);
      }
      ActionsKeepInv(s, actions[0]);
      InterleavingsKeepInv(next, actions[1..]);
    }
  }

  /** The child waits for the lock the parent holds, or is stopped with the lock the parent waits for. */
  predicate Deadlocked(s: State) {
    || (s.parent == SecondWait && s.lock == Parent && s.child == AskingLock && s.run == Running)
    || (s.parent == Locking && s.lock == Child && s.child == Printing && s.run == Reported)
  }

  lemma StuckIsReadyOrDeadlocked(s: State)
    requires Inv(s)
    ensures Stuck(s) <==> Ready(s) || Deadlocked(s)
  {
    if Ready(s) || Deadlocked(s) {
      forall a: Action
        ensures Do(s, a).None?
      {
      }
    } else {
      var a := Enabled(s);
      assert Do(s, a).Some?;
    }
  }

  /** Some action that is possible unless everything is done or deadlocked. */
  function Enabled(s: State): Action {
    match s.parent
    case Attaching => Attach
    case FirstWait => if s.run == Stopped then Wait else TakeStop
    case SettingOptions => SetOptions
    case Locking => ParentLock
    case Continuing => Cont
    case SecondWait =>
      (match s.child
       case Sleeping => TraceMe
       case AskingLock => ChildLock
       case Printing => ChildUnlock
       case Executing => Exec
       case InProgram => Wait)
    case _ => ParentUnlock
  }

  /** What every interleaving keeps once the child asked to be traced before the attach: the only stop
      there is is the exec stop, and the first wait takes it. */
  predicate SelfTracedInv(s: State) {
    && s.tracedBy == Child
    && (s.lock == Child <==> s.child == Printing)
    && (s.lock == Parent <==> s.holdsLock && s.parent in {Continuing, SecondWait})
    && (s.parent == Locking ==> s.holdsLock)
    && match s.parent
       case Attaching | FirstWait =>
         s.child != Sleeping && if s.child == InProgram then s.run == Stopped else s.run == Running
       case SettingOptions | Locking | Continuing => s.child == InProgram && s.run == Reported
       case SecondWait => s.child == InProgram && s.run == Running
       case _ => false
  }

  lemma ActionsKeepSelfTracedInv(s: State, a: Action)
    requires (Inv(s) || SelfTracedInv(s)) && Do(s, a).Some? && Do(s, a).value.tracedBy == Child
    ensures SelfTracedInv(Do(s, a).value)
  {
  }

  lemma {:induction false} SelfTracedKeepInv(s: State, actions: seq<Action>)
    requires (Inv(s) || SelfTracedInv(s)) && DoAll(s, actions).Some?
    requires DoAll(s, actions).value.tracedBy == Child
    ensures SelfTracedInv(DoAll(s, actions).value)
    decreases |actions|
  {
    if actions != [] {
      var next := Do(s, actions[0]).value;
      if next.tracedBy == Child {
        ActionsKeepSelfTracedInv(s, actions[0]);
      } else {
        ActionsKeepInv(s, actions[0]);
      }
      SelfTracedKeepInv(next, actions[1..]);
    }
  }

  /** The parent waits for a stop while the program it should have kept stopped runs on. */
  predicate RunAway(s: State) {
    s.parent == SecondWait && s.child == InProgram && s.run == Running
  }

  lemma StuckIsRunAway(s: State)
    requires SelfTracedInv(s)
    ensures !Ready(s)
    ensures Stuck(s) <==> RunAway(s)
  {
    if RunAway(s) {
      forall a: Action
        ensures Do(s, a).None?
      {
      }
    } else {
      var a := if s.parent == FirstWait && s.child != InProgram then
                 match s.child case AskingLock => ChildLock case Printing => ChildUnlock case _ => Exec
               else Enabled(s);
      assert Do(s, a).Some?;
    }
  }

  /** Whether an interleaving lets the child ask to be traced before the parent attaches. */
  predicate TraceMeFirst(actions: seq<Action>)
    decreases |actions|
  {
    actions != [] && (actions[0] == TraceMe || (actions[0] != Attach && TraceMeFirst(actions[1..])))
  }

  lemma TracedByChildIff(holdsLock: bool, actions: seq<Action>)
    requires DoAll(Forked(holdsLock), actions).Some?
    ensures DoAll(Forked(holdsLock), actions).value.tracedBy == Child <==> TraceMeFirst(actions)
  {
    if actions != [] {
      assert actions[0] in {Attach, TraceMe};
      TracerStays(Do(Forked(holdsLock), actions[0]).value, actions[1..]);
    }
  }

  lemma {:induction false} TracerStays(s: State, actions: seq<Action>)
    requires s.tracedBy != Nobody && DoAll(s, actions).Some?
    ensures DoAll(s, actions).value.tracedBy == s.tracedBy
    decreases |actions|
  {
    if actions != [] {
      TracerStays(Do(s, actions[0]).value, actions[1..]);
    }
  }

  /** The start of a run, in every interleaving: it ends after at most 18 steps; where it ends, the child
      is at its exec stop and the parent back from its wait with the lock free if and only if the attach
      came before TRACEME; otherwise the program has run away while the parent waits for ever. */
  lemma HandshakeCompletesIff(actions: seq<Action>)
    requires DoAll(Forked(false), actions).Some?
    ensures var s := DoAll(Forked(false), actions).value;
      && |actions| <= 18
      && (Stuck(s) <==> Ready(s) || (RunAway(s) && TraceMeFirst(actions)))
      && (Stuck(s) ==> (Ready(s) <==> !TraceMeFirst(actions)))
      && (TraceMeFirst(actions) <==> s.tracedBy == Child)
  {
    var s := DoAll(Forked(false), actions).value;
    InterleavingsAreShort(Forked(false), actions);
    TracedByChildIff(false, actions);
    if s.tracedBy == Child {
      SelfTracedKeepInv(Forked(false), actions);
      StuckIsRunAway(s);
    } else {
      InterleavingsKeepInv(Forked(false), actions);
      StuckIsReadyOrDeadlocked(s);
    }
  }

  /** Holding the lock while waiting: an interleaving that ends is ready exactly when the attach came first
      and the child got as far as its exec; it is deadlocked when the child did not, and has run away when
      TRACEME came first. */
  lemma HandshakeHoldingLock(actions: seq<Action>)
    requires DoAll(Forked(true), actions).Some?
    requires Stuck(DoAll(Forked(true), actions).value)
    ensures var s := DoAll(Forked(true), actions).value;
      && (Ready(s) <==> !TraceMeFirst(actions) && s.child == InProgram)
      && (!TraceMeFirst(actions) && s.child != InProgram ==> Deadlocked(s))
      && (TraceMeFirst(actions) ==> RunAway(s))
  {
    var s := DoAll(Forked(true), actions).value;
    TracedByChildIff(true, actions);
    if s.tracedBy == Child {
      SelfTracedKeepInv(Forked(true), actions);
      StuckIsRunAway(s);
    } else {
      InterleavingsKeepInv(Forked(true), actions);
      StuckIsReadyOrDeadlocked(s);
    }
  }

  lemma {:induction false} DoAllAppends(s: State, first: seq<Action>, second: seq<Action>)
    requires DoAll(s, first).Some?
    ensures DoAll(s, first + second) == DoAll(DoAll(s, first).value, second)
    decreases |first|
  {
    if first == [] {
      assert first + second == second;
    } else {
      assert (first + second)[1..] == first[1..] + second;
      DoAllAppends(Do(s, first[0]).value, first[1..], second);
    }
  }

  /** A deadlock that the lock-holding variant reaches. */
  lemma HoldingLockCanDeadlock()
    ensures var end := DoAll(Forked(true), [Attach, TraceMe, TakeStop, Wait] + [SetOptions, ParentLock, Cont]);
      end.Some? && Deadlocked(end.value)
  {
    hide DoAll;
    var mid := State(true, SettingOptions, AskingLock, Reported, Nobody, Parent);
    StopsBeforePrinting(mid);
    LocksThenContinues(mid);
    DoAllAppends(Forked(true), [Attach, TraceMe, TakeStop, Wait], [SetOptions, ParentLock, Cont]);
  }

  lemma StopsBeforePrinting(mid: State)
    requires mid == State(true, SettingOptions, AskingLock, Reported, Nobody, Parent)
    ensures DoAll(Forked(true), [Attach, TraceMe, TakeStop, Wait]) == Some(mid)
  {
  }

  lemma LocksThenContinues(mid: State)
    requires mid == State(true, SettingOptions, AskingLock, Reported, Nobody, Parent)
    ensures DoAll(mid, [SetOptions, ParentLock, Cont])
         == Some(State(true, SecondWait, AskingLock, Running, Parent, Parent))
  {
  }

  /** An interleaving of the other kind: TRACEME comes first, the first wait takes the exec stop, and the
      program runs on while the debugger waits for a stop it has already used up. */
  lemma TraceMeFirstMissesExecStop()
    ensures
      var end := DoAll(Forked(false), [TraceMe, Attach, ChildLock, ChildUnlock] + [Exec, Wait, SetOptions, Cont]);
      end.Some? && Stuck(end.value) && RunAway(end.value)
  {
    hide DoAll;
    var mid := State(false, FirstWait, Executing, Running, Nobody, Child);
    TracesItselfFirst(mid);
    RunsPastExec(mid);
    DoAllAppends(Forked(false), [TraceMe, Attach, ChildLock, ChildUnlock], [Exec, Wait, SetOptions, Cont]);
  }

  lemma TracesItselfFirst(mid: State)
    requires mid == State(false, FirstWait, Executing, Running, Nobody, Child)
    ensures DoAll(Forked(false), [TraceMe, Attach, ChildLock, ChildUnlock]) == Some(mid)
  {
  }

  lemma RunsPastExec(mid: State)
    requires mid == State(false, FirstWait, Executing, Running, Nobody, Child)
    ensures DoAll(mid, [Exec, Wait, SetOptions, Cont])
         == Some(State(false, SecondWait, InProgram, Running, Nobody, Child))
  {
  }
}
