/** The main results about a started program under the debugger. */
module Refinement {
  import opened Memory
  import opened Options
  import opened Machine
  import D = Debugger
  import Ideal
  import BareTrace
  import U = Unmistakable
  import opened Transparency

  /** A started program at a prompt: `points` are instruction starts of it, at least a word apart,
      and everything the debugger ever placed is among them. */
  ghost predicate Session<S>(cpu: Cpu<S>, clean: Image, points: set<Addr>, d: D.State<S>) {
    && DecodesLocally(cpu)
    && Breakable(clean, points)
    && Inv(clean, points, d)
    && OnTrack(cpu, clean, points, See(d))
  }

  predicate Executing<S>(d: D.State<S>) { !d.process.stop.Gone? && !d.process.stop.ExitStop? }

  /** What commands that place only points make of a session: a session again, and everything shown comes
      from the bare run of the program. A program still executing is at a state of it, an exit code is one it
      exits with, a signal is one that the instruction shown raises. */
  ghost predicate Refines<S>(cpu: Cpu<S>, clean: Image, points: set<Addr>, d: D.State<S>, after: D.State<S>) {
    && Session(cpu, clean, points, after)
    && (Executing(after) ==> Executing(d) && BareTrace.Visited(cpu, clean, See(d).core, See(after).core))
    && (Executing(d) ==> BareTrace.Traced(cpu, clean, See(d).core, See(after)))
    && (BareTrace.SignalIsRaised(cpu, clean, See(d)) ==> BareTrace.SignalIsRaised(cpu, clean, See(after)))
  }

  /** Memory is the clean image except for an INT3 at exactly the addresses that the ideal debugger has
      armed after the same commands, and each map entry saves the clean word. */
  ghost predicate CleanButForTraps<S>(cpu: Cpu<S>, clean: Image, d: D.State<S>, cs: seq<D.Command>, after: D.State<S>) {
    var v := Ideal.ExecuteAll(cpu, clean, See(d), cs);
    && v.Some?
    && (!after.process.stop.Gone? ==> after.process.mem == Overlay(clean, v.value.armed))
    && (forall a | a in after.placed :: Mapped(clean, a) && after.placed[a].original == Peek(clean, a))
  }

  /** Any one run that is never misled is a stuttering run of the bare program. */
  lemma UnmisledRunRefines<S>(cpu: Cpu<S>, clean: Image, points: set<Addr>, d: D.State<S>, cs: seq<D.Command>)
    requires Session(cpu, clean, points, d)
    requires D.PlacesOnly(points, cs) && Ideal.NeverMisled(cpu, clean, See(d), cs)
    ensures var after := D.ExecuteAll(cpu, d, cs);
      after.Some? ==> Refines(cpu, clean, points, d, after.value) && CleanButForTraps(cpu, clean, d, cs, after.value)
  {
    UnmisledRunIsTransparent(cpu, clean, points, d, cs);
    var after := D.ExecuteAll(cpu, d, cs);
    if after.Some? {
      BareTrace.CommandsStayOnTrace(cpu, clean, See(d), cs);
      EntriesSaveCleanWords(clean, points, after.value);
    }
  }

  lemma EntriesSaveCleanWords<S>(clean: Image, points: set<Addr>, d: D.State<S>)
    requires Inv(clean, points, d)
    ensures forall a | a in d.placed :: Mapped(clean, a) && d.placed[a].original == Peek(clean, a)
  {
    forall a | a in d.placed
      ensures Mapped(clean, a) && d.placed[a].original == Peek(clean, a)
    {
      assert ValidEntry(clean, d.process.pid, a, d.placed[a]);
    }
  }

  lemma AlwaysUnmisled<S>(cpu: Cpu<S>, clean: Image, points: set<Addr>, d: D.State<S>, cs: seq<D.Command>)
    requires Session(cpu, clean, points, d) && U.Unmistakable(cpu, clean, points, See(d))
    requires D.PlacesOnly(points, cs)
    ensures Ideal.NeverMisled(cpu, clean, See(d), cs)
    ensures D.ExecuteAll(cpu, d, cs).Some? ==>
      U.Unmistakable(cpu, clean, points, See(D.ExecuteAll(cpu, d, cs).value))
  {
    KnownIsPlaceable(clean, points, d);
    U.CommandsAreSafe(cpu, clean, points, See(d), cs);
    RunsAreTransparent(cpu, clean, points, d, cs);
  }

  /** For a program whose bare run never leaves the instruction pointer right behind a point, every mix of
      commands is a stuttering run of it, and the condition holds again afterwards. */
  lemma CommandsRefineBareRun<S>(cpu: Cpu<S>, clean: Image, points: set<Addr>, d: D.State<S>, cs: seq<D.Command>)
    requires Session(cpu, clean, points, d) && U.Unmistakable(cpu, clean, points, See(d))
    requires D.PlacesOnly(points, cs)
    ensures var after := D.ExecuteAll(cpu, d, cs);
      after.Some? ==>
      Refines(cpu, clean, points, d, after.value) && U.Unmistakable(cpu, clean, points, See(after.value))
  {
    AlwaysUnmisled(cpu, clean, points, d, cs);
    UnmisledRunRefines(cpu, clean, points, d, cs);
  }

  /** After any commands on such a program memory is the clean image except for an INT3 at exactly the
      addresses that the ideal debugger has armed. */
  lemma MemoryIsCleanButForTraps<S>(cpu: Cpu<S>, clean: Image, points: set<Addr>, d: D.State<S>, cs: seq<D.Command>)
    requires Session(cpu, clean, points, d) && U.Unmistakable(cpu, clean, points, See(d))
    requires D.PlacesOnly(points, cs)
    requires D.ExecuteAll(cpu, d, cs).Some?
    ensures CleanButForTraps(cpu, clean, d, cs, D.ExecuteAll(cpu, d, cs).value)
  {
    AlwaysUnmisled(cpu, clean, points, d, cs);
    UnmisledRunRefines(cpu, clean, points, d, cs);
  }

  // Repeated continue

  /** What the user is shown by `k` continues that all report a breakpoint. */
  ghost function Stops<S>(cpu: Cpu<S>, d: D.State<S>, k: nat, fuel: nat): Option<seq<Core<S>>>
    decreases k
  {
    if k == 0 then Some([])
    else
      match D.Continue(cpu, d, fuel)
      case None => None
      case Some(d') =>
        if !d'.process.stop.Int3Stop? then None
        else
          match Stops(cpu, d', k - 1, fuel)
          case None => None
          case Some(rest) => Some([See(d').core] + rest)
  }

  lemma {:induction false} StopsAgree<S>(cpu: Cpu<S>, clean: Image, points: set<Addr>, d: D.State<S>, k: nat, fuel: nat)
    requires Session(cpu, clean, points, d) && !Ideal.Misleading(See(d))
    ensures Stops(cpu, d, k, fuel) == BareTrace.Stops(cpu, clean, See(d), k, fuel)
    decreases k
  {
    hide D.Continue, Ideal.Continue, Inv, Breakable, DecodesLocally, Friendly;
    if k > 0 {
      ContinueKeeps(cpu, clean, points, d, fuel);
      var next := D.Continue(cpu, d, fuel);
      if next.Some? && next.value.process.stop.Int3Stop? {
        StopsAgree(cpu, clean, points, next.value, k - 1, fuel);
      }
    }
  }

  /** None missed: the stops of `k` continues are the next `k` hits of the bare run, whenever there
      are that many within `n` instructions and each wait lasts as long. */
  lemma ContinueMissesNoHit<S>(cpu: Cpu<S>, clean: Image, points: set<Addr>, d: D.State<S>, n: nat, k: nat, fuel: nat)
    requires Session(cpu, clean, points, d) && !Ideal.Misleading(See(d))
    requires BareTrace.Ready(See(d)) && fuel >= n
    requires |BareTrace.Hits(cpu, clean, Armed(d), See(d).core, n)| >= |BareTrace.Shown(See(d))| + k
    ensures var shown := |BareTrace.Shown(See(d))|;
      Stops(cpu, d, k, fuel) == Some(BareTrace.Hits(cpu, clean, Armed(d), See(d).core, n)[shown..shown + k])
  {
    hide Stops, BareTrace.Stops, BareTrace.Hits, Inv;
    var v := See(d);
    StopsAgree(cpu, clean, points, d, k, fuel);
    assert v.armed == Armed(d);
    BareTrace.HitsAreStops(cpu, clean, v, n, k, fuel);
  }

  /** None invented: where no armed instruction raises a signal, the stops of `k` continues are all
      the hits of a stretch of the bare run. */
  lemma ContinueInventsNoHit<S>(cpu: Cpu<S>, clean: Image, points: set<Addr>, d: D.State<S>, k: nat, fuel: nat)
    requires Session(cpu, clean, points, d) && !Ideal.Misleading(See(d))
    requires BareTrace.Ready(See(d)) && BareTrace.NoSignalAtArmed(cpu, clean, Armed(d), See(d).core)
    requires Stops(cpu, d, k, fuel).Some?
    ensures exists n: nat :: BareTrace.Hits(cpu, clean, Armed(d), See(d).core, n)
                          == BareTrace.Shown(See(d)) + Stops(cpu, d, k, fuel).value
  {
    StopsAgree(cpu, clean, points, d, k, fuel);
    BareTrace.StopsAreHits(cpu, clean, See(d), k, fuel);
  }

  /** Every report of a breakpoint by continue is a hit of the bare run. */
  ghost predicate InventsNothing<S>(cpu: Cpu<S>, clean: Image, d: D.State<S>) {
    forall k: nat, fuel: nat :: Stops(cpu, d, k, fuel).Some? ==>
      exists n: nat :: BareTrace.Hits(cpu, clean, Armed(d), See(d).core, n)
                    == BareTrace.Shown(See(d)) + Stops(cpu, d, k, fuel).value
  }

  /** None invented, for any number of continues and however long their waits, if and only if no armed
      instruction that the bare run reaches raises a signal. */
  lemma ContinueInventsNoHitIff<S>(cpu: Cpu<S>, clean: Image, points: set<Addr>, d: D.State<S>)
    requires Session(cpu, clean, points, d) && !Ideal.Misleading(See(d)) && BareTrace.Ready(See(d))
    ensures InventsNothing(cpu, clean, d) <==> BareTrace.NoSignalAtArmed(cpu, clean, Armed(d), See(d).core)
  {
    hide Stops, BareTrace.Stops, BareTrace.Hits, BareTrace.NoSignalAtArmed, Session, Inv;
    var v := See(d);
    assert v.armed == Armed(d);
    forall k: nat, fuel: nat
      ensures Stops(cpu, d, k, fuel) == BareTrace.Stops(cpu, clean, v, k, fuel)
    {
      StopsAgree(cpu, clean, points, d, k, fuel);
    }
    BareTrace.InventsNothingIff(cpu, clean, v);
  }

  lemma ResumeRaises<S>(cpu: Cpu<S>, clean: Image, points: set<Addr>, d: D.State<S>)
    requires Session(cpu, clean, points, d)
    requires d.process.stop.Int3Stop? && See(d).core.ip in Armed(d)
    requires Execute(cpu, clean, See(d).core).Raise?
    ensures var d' := D.ResumeBreakpoint(cpu, d);
      && d' == d.(process := d.process.(core := See(d).core,
                                        stop := SignalStop(Execute(cpu, clean, See(d).core).sig)))
      && Inv(clean, points, d')
      && Armed(d') == Armed(d)
  {
    hide D.ResumeBreakpoint;
    FriendlyHere(cpu, clean, points, See(d).core);
    ResumeIsOneBareInstruction(cpu, clean, points, d);
    assert Armed(d) + {See(d).core.ip} == Armed(d);
  }

  /** Why the signal premise is needed: at a breakpoint whose instruction raises a signal, continue
      reports the same hit for ever and changes nothing, while a step reports the signal. */
  lemma ContinueHidesSignal<S>(cpu: Cpu<S>, clean: Image, points: set<Addr>, d: D.State<S>, fuel: nat)
    requires Session(cpu, clean, points, d)
    requires d.process.stop.Int3Stop? && See(d).core.ip in Armed(d) && fuel > 0
    requires Execute(cpu, clean, See(d).core).Raise?
    ensures D.Continue(cpu, d, fuel) == Some(d)
    ensures D.Step(cpu, d).process.stop == SignalStop(Execute(cpu, clean, See(d).core).sig)
  {
    ResumeRaises(cpu, clean, points, d);
    var d' := D.ResumeBreakpoint(cpu, d);
    TrapStutters(cpu, clean, points, d');
    assert SingleStep(cpu, d'.process) == d.process;
  }

  // Misleading stops

  /** The view of a misleading stop that the debugger acts on: a breakpoint hit at the address before. */
  ghost function Mistaken<S>(v: Ideal.View<S>): Ideal.View<S> {
    v.(core := v.core.(ip := Before(v.core.ip)), stop := Int3Stop)
  }

  lemma MisledResume<S>(cpu: Cpu<S>, clean: Image, points: set<Addr>, d: D.State<S>)
    requires DecodesLocally(cpu) && Breakable(clean, points) && Inv(clean, points, d)
    requires Executing(d) && Ideal.Misleading(See(d))
    requires FriendlyAt(cpu, clean, points, Before(d.process.core.ip))
    ensures D.IsTrappedAtBreakpoint(d)
    ensures Inv(clean, points, D.ResumeBreakpoint(cpu, d))
    ensures See(D.ResumeBreakpoint(cpu, d)) == Ideal.Step(cpu, clean, Mistaken(See(d)))
    ensures !D.ResumeBreakpoint(cpu, d).process.stop.Int3Stop?
  {
    TrappedUnlessMisled(clean, points, d);
    ResumeIsOneBareInstruction(cpu, clean, points, d);
  }

  /** From a misleading stop a step does what the ideal debugger does from a breakpoint hit at the address
      before: the instruction there is executed, not the one at the instruction pointer, and that address is
      armed. */
  lemma MisledStepGoesBack<S>(cpu: Cpu<S>, clean: Image, points: set<Addr>, d: D.State<S>)
    requires DecodesLocally(cpu) && Breakable(clean, points) && Inv(clean, points, d)
    requires Executing(d) && Ideal.Misleading(See(d))
    requires FriendlyAt(cpu, clean, points, Before(d.process.core.ip))
    ensures See(D.Step(cpu, d)) == Ideal.Step(cpu, clean, Mistaken(See(d)))
    ensures var core := Core(Before(d.process.core.ip), d.process.core.data);
      (D.Step(cpu, d).process.core, D.Step(cpu, d).process.stop) == Outcome(cpu, clean, core)
  {
    MisledResume(cpu, clean, points, d);
    ResumeIsOneBareInstruction(cpu, clean, points, d);
  }

  /** So does a continue: it runs on from the outcome of the instruction before. */
  lemma MisledContinueGoesBack<S>(cpu: Cpu<S>, clean: Image, points: set<Addr>, d: D.State<S>, fuel: nat)
    requires DecodesLocally(cpu) && Breakable(clean, points) && Inv(clean, points, d)
    requires Executing(d) && Ideal.Misleading(See(d))
    requires Friendly(cpu, clean, points, Mistaken(See(d)).core)
    ensures Agree(cpu, clean, points, D.Continue(cpu, d, fuel), Ideal.Continue(cpu, clean, Mistaken(See(d)), fuel))
  {
    hide Inv, Breakable, DecodesLocally, Friendly, D.ResumeBreakpoint;
    StaysOnTrack(cpu, clean, points, Mistaken(See(d)).core);
    MisledResume(cpu, clean, points, d);
    RunKeeps(cpu, clean, points, D.ResumeBreakpoint(cpu, d), fuel);
  }

  /** A one-byte instruction at a breakpoint, once stepped over, leaves a misleading stop. */
  lemma OneByteStepMisleads<S>(cpu: Cpu<S>, clean: Image, points: set<Addr>, d: D.State<S>, data: S)
    requires Session(cpu, clean, points, d)
    requires d.process.stop.Int3Stop?
    requires Execute(cpu, clean, See(d).core) == Next(Wrap(See(d).core.ip + 1), data)
    ensures var d' := D.Step(cpu, d);
      && d'.process.core == Core(Wrap(See(d).core.ip + 1), data) && d'.process.stop == StepStop
      && Before(d'.process.core.ip) == See(d).core.ip
      && Inv(clean, points, d')
      && Ideal.Misleading(See(d'))
  {
    var a := D.GetIp(d.process);
    FriendlyHere(cpu, clean, points, See(d).core);
    assert ValidEntry(clean, d.process.pid, a, d.placed[a]);
    ResumeIsOneBareInstruction(cpu, clean, points, d);
  }

  /** Stepping twice from a breakpoint on a one-byte instruction executes that instruction twice. */
  lemma OneByteInstructionRunsTwice<S>(cpu: Cpu<S>, clean: Image, points: set<Addr>, d: D.State<S>, data: S)
    requires Session(cpu, clean, points, d)
    requires d.process.stop.Int3Stop?
    requires Execute(cpu, clean, See(d).core) == Next(Wrap(See(d).core.ip + 1), data)
    ensures See(D.Step(cpu, d)).core == Core(Wrap(See(d).core.ip + 1), data)
    ensures D.Step(cpu, D.Step(cpu, d)).process.core == Outcome(cpu, clean, Core(See(d).core.ip, data)).0
  {
    FriendlyHere(cpu, clean, points, See(d).core);
    OneByteStepMisleads(cpu, clean, points, d, data);
    MisledStepGoesBack(cpu, clean, points, D.Step(cpu, d));
  }

  const NOP: Byte := 0x90

  /** A program of sixteen one-byte instructions that count themselves. */
  const NOPS: Image := map x: Addr | 4096 <= x < 4112 :: NOP

  function Counting(): Cpu<int> {
    Cpu((m: Image, ip: Addr) => 1, (code: seq<Byte>, ip: Addr, data: int) => Next(Wrap(ip + 1), data + 1))
  }

  function CountingAtEntry(): D.State<int> {
    D.State(Process(1, NOPS, Core(4096, 0), ExecStop), map[], [], 4096)
  }

  lemma {:induction false} CountingBareRun(ip: Addr, data: int, n: nat)
    ensures var after := BareAt(Counting(), NOPS, Core(ip, data), n);
      after.Some? ==> after.value.data == data + n && (n > 0 ==> ip in NOPS && after.value.ip == ip + n)
    decreases n
  {
    if n > 0 && ip in NOPS {
      CountingBareRun(ip + 1, data + 1, n - 1);
    }
  }

  lemma CountingIsASession()
    ensures Session(Counting(), NOPS, {4096}, CountingAtEntry())
  {
  }

  lemma FourCommands<S>(cpu: Cpu<S>, d0: D.State<S>, d1: D.State<S>, d2: D.State<S>, a: Addr, name: string, fuel: nat)
    requires D.PlaceAt(d0, a, name).0 == d1 && D.Continue(cpu, d1, fuel) == Some(d2)
    ensures D.ExecuteAll(cpu, d0, [D.PlaceCmd(a, name), D.ContinueCmd(fuel), D.StepCmd, D.StepCmd])
         == Some(D.Step(cpu, D.Step(cpu, d2)))
  {
    var c := [D.PlaceCmd(a, name), D.ContinueCmd(fuel), D.StepCmd, D.StepCmd];
    assert c[3..][1..] == [] && c[2..][1..] == c[3..] && c[1..][1..] == c[2..];
    var d3 := D.Step(cpu, d2);
    assert D.ExecuteAll(cpu, d3, c[3..]) == Some(D.Step(cpu, d3));
    assert D.ExecuteAll(cpu, d2, c[2..]) == Some(D.Step(cpu, d3));
    assert D.ExecuteAll(cpu, d1, c[1..]) == Some(D.Step(cpu, d3));
  }

  lemma CountingIsPlaced() returns (placed: D.State<int>)
    ensures placed == D.PlaceAt(CountingAtEntry(), 4096, "f").0
    ensures Session(Counting(), NOPS, {4096}, placed)
    ensures See(placed) == Ideal.View(Core(4096, 0), ExecStop, {4096}, {4096})
  {
    CountingIsASession();
    PlaceKeeps(NOPS, {4096}, CountingAtEntry(), 4096, "f");
    placed := D.PlaceAt(CountingAtEntry(), 4096, "f").0;
    assert Mapped(NOPS, 4096);
  }

  /** Placing at the entry and continuing: the program is shown at its first instruction. */
  lemma CountingIsHit(placed: D.State<int>) returns (hit: D.State<int>)
    requires Session(Counting(), NOPS, {4096}, placed)
    requires See(placed) == Ideal.View(Core(4096, 0), ExecStop, {4096}, {4096})
    ensures D.Continue(Counting(), placed, 1) == Some(hit)
    ensures Session(Counting(), NOPS, {4096}, hit)
    ensures hit.process.stop.Int3Stop? && See(hit).core == Core(4096, 0)
  {
    ContinueKeeps(Counting(), NOPS, {4096}, placed, 1);
    var shown := Ideal.View(Core(4096, 0), Int3Stop, {4096}, {4096});
    assert Ideal.Step(Counting(), NOPS, See(placed)) == shown;
    assert Ideal.Continue(Counting(), NOPS, See(placed), 1) == Some(shown);
    hit := D.Continue(Counting(), placed, 1).value;
  }

  /** Why runs must not be misled: place, continue, step, step reaches a state the bare program never
      has. The second step counts the first instruction again. */
  lemma TwoStepsLeaveBareRun()
    ensures var after := D.ExecuteAll(Counting(), CountingAtEntry(),
                                      [D.PlaceCmd(4096, "f"), D.ContinueCmd(1), D.StepCmd, D.StepCmd]);
      after.Some? && after.value.process.core == Core(4097, 2)
    ensures !BareTrace.Visited(Counting(), NOPS, CountingAtEntry().process.core, Core(4097, 2))
  {
    var placed := CountingIsPlaced();
    var hit := CountingIsHit(placed);
    CountsTwice(hit);
    FourCommands(Counting(), CountingAtEntry(), placed, hit, 4096, "f", 1);
    forall n: nat
      ensures BareAt(Counting(), NOPS, Core(4096, 0), n) != Some(Core(4097, 2))
    {
      CountingBareRun(4096, 0, n);
    }
  }

  lemma CountsTwice(hit: D.State<int>)
    requires Session(Counting(), NOPS, {4096}, hit)
    requires hit.process.stop.Int3Stop? && See(hit).core == Core(4096, 0)
    ensures D.Step(Counting(), D.Step(Counting(), hit)).process.core == Core(4097, 2)
  {
    assert Execute(Counting(), NOPS, Core(4096, 0)) == Next(4097, 1);
    assert Execute(Counting(), NOPS, Core(4096, 1)) == Next(4097, 2);
    OneByteInstructionRunsTwice(Counting(), NOPS, {4096}, hit, 1);
  }

  // Disabling

  ghost predicate Off<S>(v: Ideal.View<S>, a: Addr) {
    a !in v.armed && !(v.stop.Int3Stop? && v.core.ip == a)
  }

  lemma {:induction false} RunLeavesOff<S>(cpu: Cpu<S>, clean: Image, v: Ideal.View<S>, a: Addr, fuel: nat)
    requires Off(v, a) && Ideal.RunTo(cpu, clean, v, fuel).Some?
    ensures Off(Ideal.RunTo(cpu, clean, v, fuel).value, a)
    decreases fuel
  {
    var w := Ideal.Step(cpu, clean, v);
    if w.stop.StepStop? {
      RunLeavesOff(cpu, clean, w, a, fuel - 1);
    }
  }

  lemma {:induction false} CommandsLeaveOff<S>(cpu: Cpu<S>, clean: Image, v: Ideal.View<S>, a: Addr, cs: seq<D.Command>)
    requires Off(v, a) && Ideal.ExecuteAll(cpu, clean, v, cs).Some?
    requires forall c | c in cs :: !(c.PlaceCmd? && c.address == a)
    ensures Off(Ideal.ExecuteAll(cpu, clean, v, cs).value, a)
    decreases |cs|
  {
    if cs != [] {
      if cs[0].ContinueCmd? {
        RunLeavesOff(cpu, clean, if v.stop.Int3Stop? then Ideal.Step(cpu, clean, v) else v, a, cs[0].fuel);
      }
      CommandsLeaveOff(cpu, clean, Ideal.Execute(cpu, clean, v, cs[0]).value, a, cs[1..]);
    }
  }

  /** A breakpoint disabled while the program is not stopped at it stays off in any one run that is never
      misled. */
  lemma UnmisledRunLeavesOff<S>(cpu: Cpu<S>, clean: Image, points: set<Addr>, d: D.State<S>, a: Addr, cs: seq<D.Command>)
    requires Session(cpu, clean, points, d) && a in d.placed
    requires !(d.process.stop.Int3Stop? && See(d).core.ip == a)
    requires D.PlacesOnly(points, cs) && forall c | c in cs :: !(c.PlaceCmd? && c.address == a)
    requires var off := D.DisableAt(d, a).0;
      Ideal.NeverMisled(cpu, clean, See(off), cs) && D.ExecuteAll(cpu, off, cs).Some?
    ensures var after := D.ExecuteAll(cpu, D.DisableAt(d, a).0, cs).value;
      a !in Armed(after) && !(after.process.stop.Int3Stop? && See(after).core.ip == a)
  {
    var off := D.DisableAt(d, a).0;
    DisableKeeps(clean, points, d, a);
    UnmisledRunIsTransparent(cpu, clean, points, off, cs);
    CommandsLeaveOff(cpu, clean, See(off), a, cs);
  }

  /** A breakpoint disabled while the program is not stopped at it stays off, and is never reported,
      until it is placed again, whatever the commands. */
  lemma DisabledStaysOff<S>(cpu: Cpu<S>, clean: Image, points: set<Addr>, d: D.State<S>, a: Addr, cs: seq<D.Command>)
    requires Session(cpu, clean, points, d) && a in d.placed && U.Unmistakable(cpu, clean, points, See(d))
    requires !(d.process.stop.Int3Stop? && See(d).core.ip == a)
    requires D.PlacesOnly(points, cs) && forall c | c in cs :: !(c.PlaceCmd? && c.address == a)
    requires D.ExecuteAll(cpu, D.DisableAt(d, a).0, cs).Some?
    ensures var after := D.ExecuteAll(cpu, D.DisableAt(d, a).0, cs).value;
      a !in Armed(after) && !(after.process.stop.Int3Stop? && See(after).core.ip == a)
  {
    var off := D.DisableAt(d, a).0;
    DisableKeeps(clean, points, d, a);
    KnownIsPlaceable(clean, points, off);
    U.CommandsAreSafe(cpu, clean, points, See(off), cs);
    UnmisledRunLeavesOff(cpu, clean, points, d, a, cs);
  }

  lemma {:induction false} RunLeavesArmed<S>(cpu: Cpu<S>, clean: Image, v: Ideal.View<S>, a: Addr, fuel: nat)
    requires a in v.armed && Ideal.RunTo(cpu, clean, v, fuel).Some?
    ensures var w := Ideal.RunTo(cpu, clean, v, fuel).value; w.stop.Gone? || a in w.armed
    decreases fuel
  {
    var w := Ideal.Step(cpu, clean, v);
    if w.stop.StepStop? {
      RunLeavesArmed(cpu, clean, w, a, fuel - 1);
    }
  }

  /** One disabled while the program is stopped at it is armed again by the next step or continue. */
  lemma DisabledAtPromptReturns<S>(cpu: Cpu<S>, clean: Image, points: set<Addr>, d: D.State<S>, fuel: nat)
    requires Session(cpu, clean, points, d) && d.process.stop.Int3Stop?
    ensures var a := See(d).core.ip;
      var off := D.DisableAt(d, a).0;
      && D.DisableAt(d, a).1
      && a !in Armed(off)
      && a in Armed(D.Step(cpu, off))
      && var after := D.Continue(cpu, off, fuel);
         after.Some? && !after.value.process.stop.Gone? ==> a in Armed(after.value)
  {
    hide Inv, Breakable, DecodesLocally, Friendly, D.Step, D.Continue, D.DisableAt;
    var a := See(d).core.ip;
    DisableKeeps(clean, points, d, a);
    var off := D.DisableAt(d, a).0;
    HitIsPlaced(clean, points, d);
    StepKeeps(cpu, clean, points, off);
    ContinueKeeps(cpu, clean, points, off, fuel);
    var stepped := Ideal.Step(cpu, clean, See(off));
    if Ideal.RunTo(cpu, clean, stepped, fuel).Some? {
      RunLeavesArmed(cpu, clean, stepped, a, fuel);
    }
  }

  lemma HitIsPlaced<S>(clean: Image, points: set<Addr>, d: D.State<S>)
    requires Inv(clean, points, d) && d.process.stop.Int3Stop?
    ensures See(d).core.ip in d.placed
  {
  }

  // Spacing

  /** What `disable` leaves at another address: inside the word, what was there when the breakpoint was first
      placed. */
  lemma DisabledWord<S>(d: D.State<S>, a: Addr, b: Addr)
    requires a in d.placed && Accessible(d.process, d.placed[a].pid, d.placed[a].address)
    requires d.placed[a].address == a && b in d.process.mem
    ensures var after := D.DisableAt(d, a).0;
      && after == d.(process := d.process.(mem := after.process.mem))
      && after.process.mem.Keys == d.process.mem.Keys
      && after.process.mem[b] == if a <= b < a as int + 8 then d.placed[a].original[b - a] else d.process.mem[b]
  {
  }

  /** Placing two breakpoints, whatever else is placed and wherever. */
  lemma PlacedTwice<S>(d: D.State<S>, a: Addr, b: Addr, name: string)
    requires D.HasStarted(d) && !d.process.stop.Gone? && a !in d.placed && a != b
    requires Mapped(d.process.mem, a) && Mapped(d.process.mem, b)
    ensures var d2 := D.PlaceAt(D.PlaceAt(d, a, name).0, b, name).0;
      && a in d2.placed && b in d2.placed
      && d2.placed[a].original == Peek(d.process.mem, a)
      && d2.placed[a].address == a && d2.placed[a].pid == d.process.pid
      && d2.process == d.process.(mem := d.process.mem[a := INT3][b := INT3])
  {
    hide Poke, Peek, WithTrap;
    ArmPatchesOneByte(d.process.mem, a);
    var d1 := D.PlaceAt(d, a, name).0;
    assert d1.process.mem == d.process.mem[a := INT3] && Mapped(d1.process.mem, b);
    ArmPatchesOneByte(d1.process.mem, b);
  }

  /** Why points must be a word apart. Of two breakpoints placed one after the other, among any others, the
      second survives disabling the first exactly when it does not lie in the first one's word or its
      address held an INT3 before. The map keeps it either way. */
  lemma NeighbourSurvivesIff<S>(d: D.State<S>, a: Addr, b: Addr, name: string)
    requires D.HasStarted(d) && !d.process.stop.Gone? && a !in d.placed && a != b
    requires Mapped(d.process.mem, a) && Mapped(d.process.mem, b)
    ensures var after := D.DisableAt(D.PlaceAt(D.PlaceAt(d, a, name).0, b, name).0, a).0;
      && a in after.placed && b in after.placed && b in after.process.mem && b in d.process.mem
      && (after.process.mem[b] == INT3 <==> !(a < b < a as int + 8) || d.process.mem[b] == INT3)
  {
    hide Poke, WithTrap, D.PlaceAt, D.DisableAt;
    PlacedTwice(d, a, b, name);
    var d2 := D.PlaceAt(D.PlaceAt(d, a, name).0, b, name).0;
    assert b in d.process.mem && Mapped(d2.process.mem, a);
    DisabledWord(d2, a, b);
  }

  /** Resuming at the first erases the second in the same cases: wherever the program has come from since,
      once it stands at the first breakpoint. */
  lemma NeighbourSurvivesResumeIff<S>(cpu: Cpu<S>, d: D.State<S>, a: Addr, b: Addr, name: string,
                                      core: Core<S>, stop: Stop)
    requires D.HasStarted(d) && !d.process.stop.Gone? && a !in d.placed && a != b
    requires Mapped(d.process.mem, a) && Mapped(d.process.mem, b)
    requires Before(core.ip) == a && !stop.Gone? && !stop.ExitStop?
    ensures var d2 := D.PlaceAt(D.PlaceAt(d, a, name).0, b, name).0;
      var there := d2.(process := d2.process.(core := core, stop := stop));
      && D.IsTrappedAtBreakpoint(there)
      && var after := D.ResumeBreakpoint(cpu, there);
         && after.placed == d2.placed && b in after.process.mem && b in d.process.mem
         && (after.process.mem[b] == INT3 <==> !(a < b < a as int + 8) || d.process.mem[b] == INT3)
  {
    hide Poke, WithTrap, D.PlaceAt;
    PlacedTwice(d, a, b, name);
    var d2 := D.PlaceAt(D.PlaceAt(d, a, name).0, b, name).0;
    var there := d2.(process := d2.process.(core := core, stop := stop));
    assert b in d.process.mem && Mapped(there.process.mem, a);
    DisabledWord(there, a, b);
    ResumedWord(cpu, there, a, b);
  }

  /** Stepping and re-arming leave every other byte as the disable left it. */
  lemma ResumedWord<S>(cpu: Cpu<S>, d: D.State<S>, a: Addr, b: Addr)
    requires D.GetIp(d.process) == a && a in d.placed && d.placed[a].address == a && d.placed[a].pid == d.process.pid
    requires !d.process.stop.Gone? && !d.process.stop.ExitStop? && Mapped(d.process.mem, a)
    requires a != b && b in d.process.mem
    ensures b in D.ResumeBreakpoint(cpu, d).process.mem && b in D.DisableAt(d, a).0.process.mem
    ensures D.ResumeBreakpoint(cpu, d).process.mem[b] == D.DisableAt(d, a).0.process.mem[b]
  {
    hide WithTrap, Outcome;
    var (p1, e1) := D.Disable(d.process, d.placed[a]);
    var p3 := SingleStep(cpu, PokeIp(p1, a));
    assert p3.mem == p1.mem && Mapped(p3.mem, a);
    ArmPatchesOneByte(p3.mem, a);
  }
}
