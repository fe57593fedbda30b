/** The debugger's state and, as functions, what each operation of `Breakpoint` and
    `TracedProgram` makes of it. */
module Debugger {
  import opened Memory
  import opened Machine
  import opened Options
  import Status

  /** The fields of a `Breakpoint`. Objects of that class are copied into and out of the map. */
  datatype Entry = Entry(enabled: bool, pid: int, address: Addr, original: Word, name: string)

  datatype State<S> = State(
    process: Process<S>,
    placed: map<Addr, Entry>,
    pending: seq<Entry>,
    base: Addr)

  const UNKNOWN := "Unknown"

  function NewEntry(pid: int, address: Addr, name: string): Entry {
    Entry(false, pid, address, ZERO, name)
  }

  /** Breakpoint::enable: the process, the breakpoint and the answer afterwards. */
  function Enable<S>(p: Process<S>, e: Entry): (Process<S>, Entry, bool) {
    var saved := PeekText(p, e.pid, e.address);
    var q := PokeText(p, e.pid, e.address, WithTrap(saved));
    if Accessible(p, e.pid, e.address) then (q, e.(original := saved, enabled := true), true)
    else (q, e.(original := saved), false)
  }

  /** Breakpoint::disable: `enabled` is cleared only when the write fails. */
  function Disable<S>(p: Process<S>, e: Entry): (Process<S>, Entry) {
    var q := PokeText(p, e.pid, e.address, e.original);
    if Accessible(p, e.pid, e.address) then (q, e) else (q, e.(enabled := false))
  }

  predicate HasStarted<S>(d: State<S>) { d.base > 0 }

  predicate IsAlive<S>(d: State<S>) { Status.IsAlive(StatusWord(d.process.stop)) }

  function GetIp<S>(p: Process<S>): Addr { Before(PeekIp(p)) }

  predicate IsTrappedAtBreakpoint<S>(d: State<S>) { GetIp(d.process) in d.placed }

  /** Queues before the first run, `try_emplace` afterwards: the first entry at an address stays. */
  function SetBreakpoint<S>(d: State<S>, e: Entry): State<S> {
    if !HasStarted(d) then d.(pending := d.pending + [e])
    else if e.address in d.placed then d
    else d.(placed := d.placed[e.address := e])
  }

  /** breakpointAtAddress */
  function PlaceAt<S>(d: State<S>, address: Addr, name: string): (State<S>, bool) {
    var e := NewEntry(d.process.pid, address, name);
    if !HasStarted(d) then (SetBreakpoint(d, e), true)
    else
      var (p, e', ok) := Enable(d.process, e);
      var d' := d.(process := p);
      if ok then (SetBreakpoint(d', e'), true) else (d', false)
  }

  /** disableBreakpointAtAddress, after parsing: a copy of the entry is disabled. */
  function DisableAt<S>(d: State<S>, address: Addr): (State<S>, bool) {
    if address !in d.placed then (d, false)
    else (d.(process := Disable(d.process, d.placed[address]).0), true)
  }

  /** The run-time address of a function: load address plus ELF value, modulo 2^64. */
  function PhysicalAddress<S>(d: State<S>, elfAddress: Addr): Addr {
    Wrap(d.base + elfAddress)
  }

  /** breakpointAtFunction, after the symbol lookup */
  function PlaceAtFunction<S>(d: State<S>, elfAddress: Addr, name: string): (State<S>, bool) {
    if !HasStarted(d) then (PlaceAt(d, elfAddress, name).0, true)
    else
      var address := PhysicalAddress(d, elfAddress);
      if address == 0 then (d, false) else PlaceAt(d, address, name)
  }

  /** disableBreakpointAtFunction, after the symbol lookup */
  function DisableAtFunction<S>(d: State<S>, elfAddress: Addr): (State<S>, bool) {
    var address := PhysicalAddress(d, elfAddress);
    if address == 0 then (d, false) else DisableAt(d, address)
  }

  /** resumeBreakpoint: un-patch, rewind, single-step, re-patch. `e` is a copy of the map's entry. */
  function ResumeBreakpoint<S>(cpu: Cpu<S>, d: State<S>): State<S>
    requires IsTrappedAtBreakpoint(d)
  {
    var (p1, e1) := Disable(d.process, d.placed[GetIp(d.process)]);
    var p2 := PokeIp(p1, GetIp(p1));
    var p3 := SingleStep(cpu, p2);
    d.(process := Enable(p3, e1).0)
  }

  /** ptraceStep */
  function Step<S>(cpu: Cpu<S>, d: State<S>): State<S> {
    if IsTrappedAtBreakpoint(d) then ResumeBreakpoint(cpu, d)
    else d.(process := SingleStep(cpu, d.process))
  }

  /** ptraceContinue: `None` while its wait has not returned within `fuel` instructions. */
  function Continue<S>(cpu: Cpu<S>, d: State<S>, fuel: nat): Option<State<S>> {
    var d1 := if IsTrappedAtBreakpoint(d) then ResumeBreakpoint(cpu, d) else d;
    match Resume(cpu, d1.process, fuel)
    case None => None
    case Some(p) => Some(d1.(process := p))
  }

  /** The address at which a queued breakpoint is placed. */
  function PendingAddress(base: Addr, address: Addr): Addr {
    if address < base then Wrap(address + base) else address
  }

  /** The loop of placeEveryPendingBreakpoints over `queue`, with its status list. */
  function PlaceEach<S>(d: State<S>, queue: seq<Entry>): (State<S>, seq<(Entry, bool)>)
    decreases |queue|
  {
    if queue == [] then (d, [])
    else
      var e := queue[0];
      var (d1, ok) := PlaceAt(d, PendingAddress(d.base, e.address), e.name);
      var (d2, rest) := PlaceEach(d1, queue[1..]);
      (d2, [(e, ok)] + rest)
  }

  /** placeEveryPendingBreakpoints */
  function PlacePending<S>(d: State<S>): (State<S>, seq<(Entry, bool)>) {
    var (d', status) := PlaceEach(d, d.pending);
    (d'.(pending := []), status)
  }

  /** clearCurrentProcess */
  function Clear<S>(d: State<S>): State<S> {
    d.(process := d.process.(pid := 0, mem := map[], stop := Gone(0)), placed := map[], base := 0)
  }

  /** A freshly executed child at its exec stop, and the first address of its memory map. */
  datatype Child<S> = Child(pid: int, image: Image, core: Core<S>, base: Addr)

  function Spawned<S>(c: Child<S>): Process<S> {
    Process(c.pid, c.image, c.core, ExecStop)
  }

  /** run: `None` is a fork that failed for good. A load address still cached is kept. */
  function Run<S>(d: State<S>, child: Option<Child<S>>): State<S> {
    var d1 := if IsAlive(d) then Clear(d) else d;
    match child
    case None => d1.(process := d1.process.(pid := -1))
    case Some(c) =>
      PlacePending(d1.(process := Spawned(c), base := if d1.base > 0 then d1.base else c.base)).0
  }

  /** The user's commands on a started program. */
  datatype Command =
    | PlaceCmd(address: Addr, name: string)
    | DisableCmd(address: Addr)
    | StepCmd
    | ContinueCmd(fuel: nat)

  /** The commands place breakpoints at points only. */
  ghost predicate PlacesOnly(points: set<Addr>, cs: seq<Command>) {
    forall c | c in cs :: c.PlaceCmd? ==> c.address in points
  }

  /** `None`: the command's wait has not returned. */
  function Execute<S>(cpu: Cpu<S>, d: State<S>, c: Command): Option<State<S>> {
    match c
    case PlaceCmd(address, name) => Some(PlaceAt(d, address, name).0)
    case DisableCmd(address) => Some(DisableAt(d, address).0)
    case StepCmd => Some(Step(cpu, d))
    case ContinueCmd(fuel) => Continue(cpu, d, fuel)
  }

  function ExecuteAll<S>(cpu: Cpu<S>, d: State<S>, cs: seq<Command>): Option<State<S>>
    decreases |cs|
  {
    if cs == [] then Some(d)
    else
      match Execute(cpu, d, cs[0])
      case None => None
      case Some(d') => ExecuteAll(cpu, d', cs[1..])
  }
}
