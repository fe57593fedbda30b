/** Breakpoints are invisible: whatever the commands, the debugger with its patched memory shows
    exactly what the ideal debugger over the bare program shows. */
module Transparency {
  import opened Memory
  import opened Options
  import opened Machine
  import D = Debugger
  import Ideal
  import U = Unmistakable

  ghost predicate Spaced(points: set<Addr>) {
    forall a, b | a in points && b in points && a < b :: a + 8 <= b
  }

  /** Addresses at least a word apart whose own byte is not an INT3. */
  ghost predicate Breakable(clean: Image, points: set<Addr>) {
    Spaced(points) && forall a | a in points && a in clean :: clean[a] != INT3
  }

  /** The placed addresses that memory traps. */
  ghost function Armed<S>(d: D.State<S>): set<Addr> {
    set a | a in d.placed && a in d.process.mem && d.process.mem[a] == INT3
  }

  ghost predicate ValidEntry(clean: Image, pid: int, a: Addr, e: D.Entry) {
    Mapped(clean, a) && e.address == a && e.pid == pid && e.original == Peek(clean, a) && e.enabled
  }

  /** What every command keeps: memory is the clean image except for an INT3 at exactly the armed
      addresses, and each map entry saves the clean word at its address and is flagged enabled, disabled
      or not. */
  ghost predicate Inv<S>(clean: Image, points: set<Addr>, d: D.State<S>) {
    && D.HasStarted(d)
    && d.placed.Keys <= points
    && (forall a | a in d.placed :: ValidEntry(clean, d.process.pid, a, d.placed[a]))
    && d.process.mem == (if d.process.stop.Gone? then map[] else Overlay(clean, Armed(d)))
    && (d.process.stop.Int3Stop? ==> D.IsTrappedAtBreakpoint(d))
  }

  /** What the user sees: after a breakpoint, the program just before the trapped instruction. */
  ghost function See<S>(d: D.State<S>): Ideal.View<S> {
    var core := d.process.core;
    Ideal.View(
      if d.process.stop.Int3Stop? then core.(ip := Before(core.ip)) else core,
      d.process.stop, Armed(d), d.placed.Keys)
  }

  // Patching

  lemma UnarmedWordIsClean(clean: Image, points: set<Addr>, armed: set<Addr>, a: Addr)
    requires Spaced(points) && armed <= points && a in points && a !in armed
    requires Mapped(clean, a)
    ensures Mapped(Overlay(clean, armed), a)
    ensures Peek(Overlay(clean, armed), a) == Peek(clean, a)
  {
  }

  lemma DisarmOverlay(clean: Image, points: set<Addr>, armed: set<Addr>, a: Addr)
    requires Spaced(points) && armed <= points && a in points
    requires Mapped(clean, a)
    ensures Poke(Overlay(clean, armed), a, Peek(clean, a)) == Overlay(clean, armed - {a})
  {
  }

  /** In an overlay of clean memory, the trapped ones among some breakable points are the armed. */
  lemma ArmedOfOverlay<S>(clean: Image, points: set<Addr>, armed: set<Addr>, d: D.State<S>)
    requires Breakable(clean, points)
    requires armed <= d.placed.Keys <= points
    requires forall a | a in d.placed :: Mapped(clean, a)
    requires d.process.mem == Overlay(clean, armed)
    ensures Armed(d) == armed
  {
  }

  lemma EnableArms<S>(clean: Image, armed: set<Addr>, p: Process<S>, e: D.Entry)
    requires !p.stop.Gone? && p.pid == e.pid && Mapped(clean, e.address)
    requires p.mem == Overlay(clean, armed)
    ensures D.Enable(p, e) ==
      (p.(mem := Overlay(clean, armed + {e.address})), e.(original := Peek(p.mem, e.address), enabled := true), true)
  {
    ArmOverlay(clean, armed, e.address);
  }

  lemma DisableDisarms<S>(clean: Image, points: set<Addr>, armed: set<Addr>, p: Process<S>, a: Addr, e: D.Entry)
    requires !p.stop.Gone? && ValidEntry(clean, p.pid, a, e)
    requires Spaced(points) && armed <= points && a in points
    requires p.mem == Overlay(clean, armed)
    ensures D.Disable(p, e) == (p.(mem := Overlay(clean, armed - {a})), e)
  {
    assert Mapped(p.mem, a);
    DisarmOverlay(clean, points, armed, a);
  }

  // One command at a time

  /** A successful placement arms the address; a first one saves the clean word, and a re-placement
      leaves the map as it is. */
  lemma PlaceEffect<S>(clean: Image, points: set<Addr>, d: D.State<S>, a: Addr, name: string)
    requires Breakable(clean, points) && Inv(clean, points, d) && a in points
    requires !d.process.stop.Gone? && Mapped(clean, a)
    ensures var (d', ok) := D.PlaceAt(d, a, name);
      && ok
      && d'.process == d.process.(mem := Overlay(clean, Armed(d) + {a}))
      && d'.placed == (if a in d.placed then d.placed
                       else d.placed[a := D.Entry(true, d.process.pid, a, Peek(clean, a), name)])
      && d' == d.(process := d'.process, placed := d'.placed)
  {
    EnableArms(clean, Armed(d), d.process, D.NewEntry(d.process.pid, a, name));
    if a !in d.placed {
      UnarmedWordIsClean(clean, points, Armed(d), a);
    }
  }

  /** Re-placing at an armed address changes nothing at all, however often it is done. */
  lemma ReplacingChangesNothing<S>(clean: Image, points: set<Addr>, d: D.State<S>, a: Addr, name: string)
    requires Breakable(clean, points) && Inv(clean, points, d) && a in Armed(d)
    requires !d.process.stop.Gone?
    ensures D.PlaceAt(d, a, name) == (d, true)
  {
    assert ValidEntry(clean, d.process.pid, a, d.placed[a]);
    PlaceEffect(clean, points, d, a, name);
    assert Armed(d) + {a} == Armed(d);
  }

  lemma PlaceKeeps<S>(clean: Image, points: set<Addr>, d: D.State<S>, a: Addr, name: string)
    requires Breakable(clean, points) && Inv(clean, points, d) && a in points
    ensures var (d', ok) := D.PlaceAt(d, a, name);
      && Inv(clean, points, d')
      && See(d') == Ideal.Place(clean, See(d), a)
      && (ok <==> !d.process.stop.Gone? && Mapped(clean, a))
  {
    hide Poke, Peek, WithTrap;
    var p := d.process;
    var armed := Armed(d);
    var (d', ok) := D.PlaceAt(d, a, name);
    if !p.stop.Gone? {
      assert p.mem.Keys == clean.Keys;
      if Mapped(clean, a) {
        PlaceEffect(clean, points, d, a, name);
        ArmedOfOverlay(clean, points, armed + {a}, d');
      }
    }
  }

  lemma DisableKeeps<S>(clean: Image, points: set<Addr>, d: D.State<S>, a: Addr)
    requires Breakable(clean, points) && Inv(clean, points, d)
    ensures var (d', ok) := D.DisableAt(d, a);
      && Inv(clean, points, d')
      && See(d') == Ideal.Disable(See(d), a)
      && (ok <==> a in d.placed)
  {
    var (d', ok) := D.DisableAt(d, a);
    if a in d.placed && !d.process.stop.Gone? {
      assert ValidEntry(clean, d.process.pid, a, d.placed[a]);
      assert Mapped(d.process.mem, a);
      DisarmOverlay(clean, points, Armed(d), a);
      ArmedOfOverlay(clean, points, Armed(d) - {a}, d');
    }
  }

  /** The program still executes instructions, and the points are instruction starts of it. */
  ghost predicate OnTrack<S>(cpu: Cpu<S>, clean: Image, points: set<Addr>, v: Ideal.View<S>) {
    !v.stop.Gone? && !v.stop.ExitStop? ==> Friendly(cpu, clean, points, v.core)
  }

  lemma ExecutesBareInstruction<S>(cpu: Cpu<S>, clean: Image, points: set<Addr>, armed: set<Addr>, p: Process<S>)
    requires DecodesLocally(cpu)
    requires armed <= points && FriendlyAt(cpu, clean, points, p.core.ip)
    requires !p.stop.Gone? && !p.stop.ExitStop?
    requires p.mem == Overlay(clean, armed)
    requires p.core.ip !in armed
    ensures SingleStep(cpu, p) == p.(core := Outcome(cpu, clean, p.core).0, stop := Outcome(cpu, clean, p.core).1)
  {
    PatchedElsewhereExecutesAlike(cpu, clean, p.mem, armed, p.core);
  }

  lemma StaysOnTrack<S>(cpu: Cpu<S>, clean: Image, points: set<Addr>, core: Core<S>)
    requires Friendly(cpu, clean, points, core)
    ensures FriendlyAt(cpu, clean, points, core.ip)
    ensures !Outcome(cpu, clean, core).1.ExitStop? ==> Friendly(cpu, clean, points, Outcome(cpu, clean, core).0)
  {
    FriendlyHere(cpu, clean, points, core);
    if Machine.Execute(cpu, clean, core).Next? {
      FriendlyNext(cpu, clean, points, core);
    }
  }

  /** Un-patching, rewinding, stepping and re-patching, as one effect on the process. */
  lemma ResumedProcess<S>(cpu: Cpu<S>, clean: Image, points: set<Addr>, armed: set<Addr>,
                          p: Process<S>, a: Addr, e: D.Entry)
    requires DecodesLocally(cpu) && Breakable(clean, points)
    requires !p.stop.Gone? && !p.stop.ExitStop? && ValidEntry(clean, p.pid, a, e)
    requires armed <= points && a in points && FriendlyAt(cpu, clean, points, a)
    requires p.mem == Overlay(clean, armed)
    ensures var (core, stop) := Outcome(cpu, clean, Core(a, p.core.data));
      D.Enable(SingleStep(cpu, PokeIp(D.Disable(p, e).0, a)), D.Disable(p, e).1).0
      == Process(p.pid, Overlay(clean, armed + {a}), core, stop)
  {
    DisableDisarms(clean, points, armed, p, a, e);
    var p2 := PokeIp(D.Disable(p, e).0, a);
    ExecutesBareInstruction(cpu, clean, points, armed - {a}, p2);
    EnableArms(clean, armed - {a}, SingleStep(cpu, p2), e);
    assert armed - {a} + {a} == armed + {a};
  }

  /** Resuming executes one instruction of the bare program, the one at the trapped address, and
      leaves every patch and every map entry as before, that breakpoint being armed. */
  lemma ResumeIsOneBareInstruction<S>(cpu: Cpu<S>, clean: Image, points: set<Addr>, d: D.State<S>)
    requires DecodesLocally(cpu) && Breakable(clean, points) && Inv(clean, points, d)
    requires !d.process.stop.Gone? && !d.process.stop.ExitStop? && D.IsTrappedAtBreakpoint(d)
    requires FriendlyAt(cpu, clean, points, D.GetIp(d.process))
    ensures var a := D.GetIp(d.process);
      var (core, stop) := Outcome(cpu, clean, Core(a, d.process.core.data));
      var d' := D.ResumeBreakpoint(cpu, d);
      && d' == d.(process := Process(d.process.pid, Overlay(clean, Armed(d) + {a}), core, stop))
      && Armed(d') == Armed(d) + {a}
      && Inv(clean, points, d')
  {
    hide SingleStep, Poke, Peek, WithTrap;
    var a := D.GetIp(d.process);
    ResumedProcess(cpu, clean, points, Armed(d), d.process, a, d.placed[a]);
    ArmedOfOverlay(clean, points, Armed(d) + {a}, D.ResumeBreakpoint(cpu, d));
  }

  /** Reaching an armed instruction reports it and changes nothing the user sees. */
  lemma TrapStutters<S>(cpu: Cpu<S>, clean: Image, points: set<Addr>, d: D.State<S>)
    requires Breakable(clean, points) && Inv(clean, points, d)
    requires !d.process.stop.Gone? && !d.process.stop.ExitStop? && !d.process.stop.Int3Stop?
    requires d.process.core.ip in Armed(d)
    ensures var d' := d.(process := SingleStep(cpu, d.process));
      && Inv(clean, points, d')
      && See(d') == See(d).(stop := Int3Stop)
      && d.process.core.ip + 1 < ADDRESS_LIMIT
      && d'.process == d.process.(core := d.process.core.(ip := d.process.core.ip + 1), stop := Int3Stop)
  {
  }

  /** A raw step from anything but a breakpoint hit. */
  lemma RawStepKeeps<S>(cpu: Cpu<S>, clean: Image, points: set<Addr>, d: D.State<S>)
    requires DecodesLocally(cpu) && Breakable(clean, points) && Inv(clean, points, d)
    requires OnTrack(cpu, clean, points, See(d)) && !d.process.stop.Int3Stop?
    ensures var d' := d.(process := SingleStep(cpu, d.process));
      && Inv(clean, points, d')
      && See(d') == Ideal.Step(cpu, clean, See(d))
      && OnTrack(cpu, clean, points, See(d'))
  {
    var p := d.process;
    if !p.stop.Gone? && !p.stop.ExitStop? {
      if p.core.ip in Armed(d) {
        TrapStutters(cpu, clean, points, d);
      } else {
        StaysOnTrack(cpu, clean, points, p.core);
        ExecutesBareInstruction(cpu, clean, points, Armed(d), p);
        ArmedOfOverlay(clean, points, Armed(d), d.(process := SingleStep(cpu, p)));
      }
    }
  }

  /** A dead process is never taken for one at a breakpoint, and a hit always is. */
  lemma TrappedUnlessMisled<S>(clean: Image, points: set<Addr>, d: D.State<S>)
    requires Inv(clean, points, d)
    ensures D.IsTrappedAtBreakpoint(d) <==> d.process.stop.Int3Stop? || Ideal.Misleading(See(d))
  {
  }

  lemma StepKeeps<S>(cpu: Cpu<S>, clean: Image, points: set<Addr>, d: D.State<S>)
    requires DecodesLocally(cpu) && Breakable(clean, points) && Inv(clean, points, d)
    requires OnTrack(cpu, clean, points, See(d)) && !Ideal.Misleading(See(d))
    ensures var d' := D.Step(cpu, d);
      && Inv(clean, points, d')
      && See(d') == Ideal.Step(cpu, clean, See(d))
      && OnTrack(cpu, clean, points, See(d'))
  {
    TrappedUnlessMisled(clean, points, d);
    if d.process.stop.Int3Stop? {
      StaysOnTrack(cpu, clean, points, See(d).core);
      ResumeIsOneBareInstruction(cpu, clean, points, d);
    } else {
      RawStepKeeps(cpu, clean, points, d);
    }
  }

  /** The debugger and the ideal debugger both wait, or both stop and show the same. */
  ghost predicate Agree<S>(cpu: Cpu<S>, clean: Image, points: set<Addr>,
                           d: Option<D.State<S>>, v: Option<Ideal.View<S>>) {
    match d
    case None => v.None?
    case Some(d) => Inv(clean, points, d) && v == Some(See(d)) && OnTrack(cpu, clean, points, See(d))
  }

  lemma {:induction false} RunKeeps<S>(cpu: Cpu<S>, clean: Image, points: set<Addr>, d: D.State<S>, fuel: nat)
    requires DecodesLocally(cpu) && Breakable(clean, points) && Inv(clean, points, d)
    requires OnTrack(cpu, clean, points, See(d)) && !d.process.stop.Int3Stop?
    ensures var p := Resume(cpu, d.process, fuel);
      Agree(cpu, clean, points, if p.None? then None else Some(d.(process := p.value)),
            Ideal.RunTo(cpu, clean, See(d), fuel))
    decreases fuel
  {
    if fuel > 0 {
      RawStepKeeps(cpu, clean, points, d);
      var d' := d.(process := SingleStep(cpu, d.process));
      if d'.process.stop.StepStop? {
        RunKeeps(cpu, clean, points, d', fuel - 1);
      }
    }
  }

  lemma ContinueKeeps<S>(cpu: Cpu<S>, clean: Image, points: set<Addr>, d: D.State<S>, fuel: nat)
    requires DecodesLocally(cpu) && Breakable(clean, points) && Inv(clean, points, d)
    requires OnTrack(cpu, clean, points, See(d)) && !Ideal.Misleading(See(d))
    ensures Agree(cpu, clean, points, D.Continue(cpu, d, fuel), Ideal.Continue(cpu, clean, See(d), fuel))
  {
    TrappedUnlessMisled(clean, points, d);
    StepKeeps(cpu, clean, points, d);
    RunKeeps(cpu, clean, points, if d.process.stop.Int3Stop? then D.Step(cpu, d) else d, fuel);
  }

  // Whole runs

  /** Over every sequence of commands that places only points and never moves the program from a misleading
      stop, the debugger shows what the ideal debugger shows, and memory and map keep their invariant. */
  lemma {:induction false} UnmisledRunIsTransparent<S>(cpu: Cpu<S>, clean: Image, points: set<Addr>,
                                                       d: D.State<S>, cs: seq<D.Command>)
    requires DecodesLocally(cpu) && Breakable(clean, points) && Inv(clean, points, d)
    requires OnTrack(cpu, clean, points, See(d))
    requires D.PlacesOnly(points, cs) && Ideal.NeverMisled(cpu, clean, See(d), cs)
    ensures Agree(cpu, clean, points, D.ExecuteAll(cpu, d, cs), Ideal.ExecuteAll(cpu, clean, See(d), cs))
    decreases |cs|
  {
    if cs != [] {
      match cs[0] {
        case PlaceCmd(a, name) => PlaceKeeps(clean, points, d, a, name);
        case DisableCmd(a) => DisableKeeps(clean, points, d, a);
        case StepCmd => StepKeeps(cpu, clean, points, d);
        case ContinueCmd(fuel) => ContinueKeeps(cpu, clean, points, d, fuel);
      }
      var next := D.Execute(cpu, d, cs[0]);
      if next.Some? {
        UnmisledRunIsTransparent(cpu, clean, points, next.value, cs[1..]);
      }
    }
  }

  lemma KnownIsPlaceable<S>(clean: Image, points: set<Addr>, d: D.State<S>)
    requires Inv(clean, points, d)
    ensures See(d).known <= U.Placeable(clean, points)
  {
    forall a | a in d.placed
      ensures Mapped(clean, a)
    {
      assert ValidEntry(clean, d.process.pid, a, d.placed[a]);
    }
  }

  /** For a program whose bare run never leaves the instruction pointer right behind a point, over every
      sequence of place, re-place, disable, step and continue at points: the debugger shows what the ideal
      debugger shows, and memory and map keep their invariant. */
  lemma RunsAreTransparent<S>(cpu: Cpu<S>, clean: Image, points: set<Addr>, d: D.State<S>, cs: seq<D.Command>)
    requires DecodesLocally(cpu) && Breakable(clean, points) && Inv(clean, points, d)
    requires OnTrack(cpu, clean, points, See(d))
    requires U.Unmistakable(cpu, clean, points, See(d)) && D.PlacesOnly(points, cs)
    ensures Agree(cpu, clean, points, D.ExecuteAll(cpu, d, cs), Ideal.ExecuteAll(cpu, clean, See(d), cs))
    ensures var after := D.ExecuteAll(cpu, d, cs);
      after.Some? ==> U.Unmistakable(cpu, clean, points, See(after.value))
  {
    KnownIsPlaceable(clean, points, d);
    U.CommandsAreSafe(cpu, clean, points, See(d), cs);
    UnmisledRunIsTransparent(cpu, clean, points, d, cs);
  }
}
