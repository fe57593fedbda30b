/** The debugger's classes, updating their fields in place, against the functions of `Debugger`. */
module TracedProgram {
  import opened Memory
  import opened Options
  import M = Machine
  import Status
  import D = Debugger
  import ElfFile
  import ElfFunctions
  import AddressText
  import Lifecycle

  /** The traced process behind its ptrace requests. */
  class Tracee<S> {
    const cpu: M.Cpu<S>
    var process: M.Process<S>

    constructor (cpu: M.Cpu<S>, process: M.Process<S>)
      ensures this.cpu == cpu && this.process == process
    {
      this.cpu := cpu;
      this.process := process;
    }

    method PeekText(pid: int, a: Addr) returns (w: Word)
      ensures w == M.PeekText(process, pid, a)
    {
      w := M.PeekText(process, pid, a);
    }

    method PokeText(pid: int, a: Addr, w: Word) returns (ok: bool)
      modifies this
      ensures process == M.PokeText(old(process), pid, a, w) && ok == M.Accessible(old(process), pid, a)
    {
      ok := M.Accessible(process, pid, a);
      process := M.PokeText(process, pid, a, w);
    }

    method PeekIp() returns (ip: Addr)
      ensures ip == M.PeekIp(process)
    {
      ip := M.PeekIp(process);
    }

    method PokeIp(ip: Addr)
      modifies this
      ensures process == M.PokeIp(old(process), ip)
    {
      process := M.PokeIp(process, ip);
    }

    /** The request and the wait that follows it. */
    method SingleStep() returns (status: bv32)
      modifies this
      ensures process == M.SingleStep(cpu, old(process)) && status == M.StatusWord(process.stop)
    {
      process := M.SingleStep(cpu, process);
      status := M.StatusWord(process.stop);
    }

    /** The request and the wait that follows it, which has not returned after `fuel` instructions
        when `stopped` is false. */
    method Cont(fuel: nat) returns (stopped: bool, status: bv32)
      modifies this
      ensures stopped == M.Resume(cpu, old(process), fuel).Some?
      ensures stopped ==> process == M.Resume(cpu, old(process), fuel).value && status == M.StatusWord(process.stop)
    {
      match M.Resume(cpu, process, fuel)
      case None =>
        stopped, status := false, 0;
      case Some(p) =>
        process := p;
        stopped, status := true, M.StatusWord(p.stop);
    }
  }

  class Breakpoint {
    var enabled: bool
    var programPid: int
    var address: Addr
    var original: Word
    var name: string

    /** The fields as a value: what copying the object copies. */
    function Value(): D.Entry
      reads this
    {
      D.Entry(enabled, programPid, address, original, name)
    }

    constructor (pid: int, address: Addr, name: string)
      ensures Value() == D.NewEntry(pid, address, name)
    {
      enabled := false;
      programPid := pid;
      this.address := address;
      original := ZERO;
      this.name := name;
    }

    constructor Copy(e: D.Entry)
      ensures Value() == e
    {
      enabled := e.enabled;
      programPid := e.pid;
      address := e.address;
      original := e.original;
      name := e.name;
    }

    method Enable<S>(t: Tracee<S>) returns (ok: bool)
      modifies this, t
      ensures (t.process, Value(), ok) == D.Enable(old(t.process), old(Value()))
    {
      original := t.PeekText(programPid, address);
      ok := t.PokeText(programPid, address, WithTrap(original));
      if !ok {
        return false;
      }
      enabled := true;
    }

    method Disable<S>(t: Tracee<S>)
      modifies this, t
      ensures (t.process, Value()) == D.Disable(old(t.process), old(Value()))
    {
      var ok := t.PokeText(programPid, address, original);
      if !ok {
        enabled := false;
      }
    }
  }

  /** What fork returns to the parent: EAGAIN, another error, or a child that reaches its exec stop,
      with the first line of its memory map. */
  datatype Fork<S> = Again | Failed | Forked(child: D.Child<S>, firstLine: string)

  class TracedProgram<S> {
    const elf: ElfFile.Contents
    var tracee: Tracee<S>
    var ramStartAddress: Addr
    var cachedStatus: bv32
    var breakpointsMap: map<Addr, D.Entry>
    var pendingBreakpointsMap: seq<D.Entry>

    ghost function State(): D.State<S>
      reads this, tracee
    {
      D.State(tracee.process, breakpointsMap, pendingBreakpointsMap, ramStartAddress)
    }

    /** The cached status is the one the kernel last reported. */
    ghost predicate Valid()
      reads this, tracee
    {
      cachedStatus == M.StatusWord(tracee.process.stop)
    }

    /** `none` stands for the absence of a process before the first run. */
    constructor (elf: ElfFile.Contents, none: Tracee<S>)
      requires none.process.stop == M.Gone(0)
      ensures Valid() && tracee == none && this.elf == elf
      ensures State() == D.State(none.process, map[], [], 0)
    {
      this.elf := elf;
      tracee := none;
      ramStartAddress := 0;
      cachedStatus := 0;
      breakpointsMap := map[];
      pendingBreakpointsMap := [];
    }

    predicate HasStarted()
      reads this
    {
      ramStartAddress > 0
    }

    predicate IsAlive()
      reads this
    {
      Status.IsAlive(cachedStatus)
    }

    method GetIp() returns (ip: Addr)
      ensures ip == D.GetIp(tracee.process)
    {
      var v := tracee.PeekIp();
      ip := if v == 0 then ADDRESS_LIMIT - 1 else v - 1;
    }

    method IsTrappedAtBreakpoint() returns (trapped: bool)
      ensures trapped == D.IsTrappedAtBreakpoint(State())
    {
      var ip := GetIp();
      trapped := ip in breakpointsMap;
    }

    method SetBreakpoint(breakpoint: Breakpoint)
      requires Valid()
      modifies this
      ensures Valid() && tracee == old(tracee)
      ensures State() == D.SetBreakpoint(old(State()), breakpoint.Value())
    {
      if !HasStarted() {
        pendingBreakpointsMap := pendingBreakpointsMap + [breakpoint.Value()];
      } else if breakpoint.address !in breakpointsMap {
        breakpointsMap := breakpointsMap[breakpoint.address := breakpoint.Value()];
      }
    }

    method BreakpointAtAddress(address: Addr, name: string) returns (ok: bool)
      requires Valid()
      modifies this, tracee
      ensures Valid() && tracee == old(tracee)
      ensures (State(), ok) == D.PlaceAt(old(State()), address, name)
    {
      var bp := new Breakpoint(tracee.process.pid, address, name);
      if HasStarted() {
        ok := bp.Enable(tracee);
        if !ok {
          return false;
        }
      }
      SetBreakpoint(bp);
      ok := true;
    }

    /** breakpointAtAddress of an address typed as text */
    method BreakpointAtText(text: string) returns (ok: bool)
      requires Valid()
      modifies this, tracee
      ensures Valid() && tracee == old(tracee)
      ensures (State(), ok) == D.PlaceAt(old(State()), AddressText.Strtoul(text), "Unknown")
    {
      ok := BreakpointAtAddress(AddressText.Strtoul(text), D.UNKNOWN);
    }

    /** A function the symbol tables know. */
    ghost predicate Knows(name: string) {
      && ElfFunctions.Readable(elf) && ElfFunctions.Named(elf)
      && ElfFunctions.HasFunction(ElfFunctions.Functions(elf), name)
    }

    /** The value of the first matching symbol of the file. */
    ghost function ElfAddress(name: string): (a: Addr)
      requires Knows(name)
      ensures exists p :: ElfFunctions.IsFirstMatch(elf, p, name) && a == ElfFunctions.SymbolAt(elf, p).value
    {
      ElfFunctions.AddressesAreWords(elf, name);
      ElfFunctions.FindsFirstMatchingSymbol(elf, name);
      ElfFunctions.FirstAddress(ElfFunctions.Functions(elf), name)
    }

    method GetElfAddress(name: string) returns (address: Addr)
      requires Knows(name)
      ensures address == ElfAddress(name)
    {
      ElfFunctions.AddressesAreWords(elf, name);
      address := ElfFunctions.GetFunctionAddress(elf, name);
    }

    /** `assert(isAlive())` is part of the source. */
    method GetFunctionPhysicalAddress(name: string) returns (address: Addr)
      requires Knows(name) && HasStarted() && IsAlive()
      ensures address == D.PhysicalAddress(State(), ElfAddress(name))
    {
      var elfAddress := GetElfAddress(name);
      address := M.Wrap(ramStartAddress + elfAddress);
    }

    method BreakpointAtFunction(name: string) returns (ok: bool)
      requires Valid() && Knows(name) && (HasStarted() ==> IsAlive())
      modifies this, tracee
      ensures Valid() && tracee == old(tracee)
      ensures (State(), ok) == D.PlaceAtFunction(old(State()), ElfAddress(name), name)
    {
      if !HasStarted() {
        var elfAddress := GetElfAddress(name);
        var placed := BreakpointAtAddress(elfAddress, name);
        return true;
      }
      var address := GetFunctionPhysicalAddress(name);
      if address == 0 {
        return false;
      }
      ok := BreakpointAtAddress(address, name);
    }

    /** A copy of the map's entry is disabled; the entry itself stays as it is. */
    method DisableAt(address: Addr) returns (ok: bool)
      requires Valid()
      modifies this, tracee
      ensures Valid() && tracee == old(tracee)
      ensures (State(), ok) == D.DisableAt(old(State()), address)
    {
      if address !in breakpointsMap {
        return false;
      }
      var bp := new Breakpoint.Copy(breakpointsMap[address]);
      bp.Disable(tracee);
      ok := true;
    }

    method DisableBreakpointAtText(text: string) returns (ok: bool)
      requires Valid()
      modifies this, tracee
      ensures Valid() && tracee == old(tracee)
      ensures (State(), ok) == D.DisableAt(old(State()), AddressText.Strtoul(text))
    {
      ok := DisableAt(AddressText.Strtoul(text));
    }

    method DisableBreakpointAtFunction(name: string) returns (ok: bool)
      requires Valid() && Knows(name) && HasStarted() && IsAlive()
      modifies this, tracee
      ensures Valid() && tracee == old(tracee)
      ensures (State(), ok) == D.DisableAtFunction(old(State()), ElfAddress(name))
    {
      var address := GetFunctionPhysicalAddress(name);
      if address == 0 {
        return false;
      }
      ok := DisableAt(address);
    }

    method PtraceRawStep()
      requires Valid()
      modifies this, tracee
      ensures Valid() && tracee == old(tracee)
      ensures State() == old(State()).(process := M.SingleStep(tracee.cpu, old(tracee.process)))
    {
      cachedStatus := tracee.SingleStep();
    }

    method PtraceBackwardStep()
      modifies tracee
      ensures tracee.process == M.PokeIp(old(tracee.process), D.GetIp(old(tracee.process)))
    {
      var ip := GetIp();
      tracee.PokeIp(ip);
    }

    method ResumeBreakpoint()
      requires Valid() && D.IsTrappedAtBreakpoint(State())
      modifies this, tracee
      ensures Valid() && tracee == old(tracee)
      ensures State() == D.ResumeBreakpoint(tracee.cpu, old(State()))
    {
      var ip := GetIp();
      var bp := new Breakpoint.Copy(breakpointsMap[ip]);
      bp.Disable(tracee);
      PtraceBackwardStep();
      PtraceRawStep();
      var ok := bp.Enable(tracee);
    }

    method PtraceStep()
      requires Valid()
      modifies this, tracee
      ensures Valid() && tracee == old(tracee)
      ensures State() == D.Step(tracee.cpu, old(State()))
    {
      var trapped := IsTrappedAtBreakpoint();
      if trapped {
        ResumeBreakpoint();
      } else {
        PtraceRawStep();
      }
    }

    /** `stopped` is false while the wait has not returned within `fuel` instructions. */
    method PtraceContinue(fuel: nat) returns (stopped: bool)
      requires Valid()
      modifies this, tracee
      ensures tracee == old(tracee)
      ensures stopped == D.Continue(tracee.cpu, old(State()), fuel).Some?
      ensures stopped ==> Valid() && State() == D.Continue(tracee.cpu, old(State()), fuel).value
    {
      var trapped := IsTrappedAtBreakpoint();
      if trapped {
        ResumeBreakpoint();
      }
      var status;
      stopped, status := tracee.Cont(fuel);
      if stopped {
        cachedStatus := status;
      }
    }

    /** The loop runs over the queue while placing; nothing it calls appends to that queue. */
    method PlaceEveryPendingBreakpoints() returns (status: seq<(D.Entry, bool)>)
      requires Valid() && HasStarted() && IsAlive()
      modifies this, tracee
      ensures Valid() && tracee == old(tracee)
      ensures (State(), status) == D.PlacePending(old(State()))
    {
      hide D.PlaceAt, D.PendingAddress;
      status := [];
      var i := 0;
      ghost var all := D.PlaceEach(State(), pendingBreakpointsMap);
      assert pendingBreakpointsMap[0..] == pendingBreakpointsMap;
      while i < |pendingBreakpointsMap|
        invariant Valid() && HasStarted() && tracee == old(tracee)
        invariant pendingBreakpointsMap == old(pendingBreakpointsMap)
        invariant i <= |pendingBreakpointsMap|
        invariant all.0 == D.PlaceEach(State(), pendingBreakpointsMap[i..]).0
        invariant all.1 == status + D.PlaceEach(State(), pendingBreakpointsMap[i..]).1
      {
        ghost var left := pendingBreakpointsMap[i..];
        ghost var before, sofar := State(), status;
        var bp := pendingBreakpointsMap[i];
        DefinePending(ramStartAddress, bp.address);
        var realAddress := if bp.address < ramStartAddress then M.Wrap(bp.address + ramStartAddress) else bp.address;
        var ok := BreakpointAtAddress(realAddress, bp.name);
        Lifecycle.PlaceAtFrame(before, realAddress, bp.name);
        status := status + [(bp, ok)];
        i := i + 1;
        assert left[0] == bp && left[1..] == pendingBreakpointsMap[i..];
        ghost var rest := D.PlaceEach(State(), pendingBreakpointsMap[i..]).1;
        assert status + rest == sofar + ([(bp, ok)] + rest);
      }
      assert pendingBreakpointsMap[i..] == [] && status + [] == status;
      pendingBreakpointsMap := [];
    }

    lemma DefinePending(base: Addr, address: Addr)
      ensures D.PendingAddress(base, address) == if address < base then M.Wrap(address + base) else address
    {
    }

    /** Before the first run the address comes from the memory map: for a line that the kernel prints for a
        mapping at `base` it is `base`. Afterwards it is not read again. */
    method GetTracedRamAddress(firstLine: string) returns (address: Addr)
      ensures HasStarted() ==> address == ramStartAddress
      ensures !HasStarted() ==> forall base: Addr :: AddressText.IsMapsLine(firstLine, base) ==> address == base
      ensures !HasStarted() ==> address == AddressText.BaseOf(firstLine)
    {
      if ramStartAddress > 0 {
        return ramStartAddress;
      }
      address := AddressText.BaseOf(firstLine);
      forall base: Addr | AddressText.IsMapsLine(firstLine, base)
        ensures address == base
      {
        AddressText.MapsLineGivesBase(firstLine, base);
      }
    }

    /** The old process is killed, its breakpoints forgotten. */
    method ClearCurrentProcess()
      requires Valid()
      modifies this
      ensures Valid() && fresh(tracee) && tracee.cpu == old(tracee.cpu)
      ensures State() == D.Clear(old(State()))
    {
      tracee := new Tracee(tracee.cpu, tracee.process.(pid := 0, mem := map[], stop := M.Gone(0)));
      breakpointsMap := map[];
      ramStartAddress := 0;
      cachedStatus := 0;
    }

    /** initBDD, with the child at its exec stop: remember its load address, place what is pending. */
    method InitBdd(child: D.Child<S>, firstLine: string)
      requires AddressText.IsMapsLine(firstLine, child.base) && child.base > 0
      modifies this
      ensures Valid() && fresh(tracee) && tracee.cpu == old(tracee.cpu)
      ensures var d := old(State());
        State() == D.PlacePending(d.(process := D.Spawned(child), base := if d.base > 0 then d.base else child.base)).0
    {
      hide D.PlacePending;
      tracee := new Tracee(tracee.cpu, D.Spawned(child));
      cachedStatus := M.StatusWord(M.ExecStop);
      ramStartAddress := GetTracedRamAddress(firstLine);
      Lifecycle.AliveUnlessGone(State());
      var status := PlaceEveryPendingBreakpoints();
    }

    /** run: clear a live process, fork until it is not told to try again, and set up the child. */
    method Run(forks: seq<Fork<S>>)
      requires Valid()
      requires forks != [] && forall i | 0 <= i < |forks| :: forks[i].Again? <==> i < |forks| - 1
      requires var last := forks[|forks| - 1];
        last.Forked? ==> AddressText.IsMapsLine(last.firstLine, last.child.base) && last.child.base > 0
      modifies this, tracee
      ensures Valid() && tracee.cpu == old(tracee.cpu)
      ensures var last := forks[|forks| - 1];
        State() == D.Run(old(State()), if last.Forked? then Some(last.child) else None)
    {
      hide D.PlacePending;
      if IsAlive() {
        ClearCurrentProcess();
      }
      ghost var cleared := State();
      var i := 0;
      while forks[i].Again?
        invariant 0 <= i < |forks| && Valid() && tracee.cpu == old(tracee.cpu)
        invariant State() == cleared.(process := cleared.process.(pid := State().process.pid))
        invariant i == 0 ==> State() == cleared
        decreases |forks| - i
      {
        tracee := new Tracee(tracee.cpu, tracee.process.(pid := -1));
        i := i + 1;
      }
      match forks[i]
      case Failed =>
        tracee := new Tracee(tracee.cpu, tracee.process.(pid := -1));
      case Forked(child, firstLine) =>
        InitBdd(child, firstLine);
    }
  }
}
