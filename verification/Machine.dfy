/** The traced process as ptrace shows it: memory, instruction pointer, everything else the
    program computes with, and the reason for its last stop. */
module Machine {
  import opened Memory
  import opened Options
  import Status

  /** What executing one instruction does. */
  datatype Effect<S> =
    | Next(ip: Addr, data: S)
    | Exit(code: bv8)
    | Raise(sig: bv8)

  /** A deterministic processor. `size` is the length of the instruction at an address; `exec` maps
      the fetched bytes, the address and the program's data to an effect. Text is never read or
      written as data. */
  datatype Cpu<!S> = Cpu(size: (Image, Addr) -> nat, exec: (seq<Byte>, Addr, S) -> Effect<S>)

  /** Why the process is stopped. After `Gone` there is no process and no memory. */
  datatype Stop =
    | ExecStop
    | StepStop
    | Int3Stop
    | SignalStop(sig: bv8)
    | ExitStop(code: bv8)
    | Gone(code: bv8)

  datatype Core<S> = Core(ip: Addr, data: S)

  datatype Process<S> = Process(pid: int, mem: Image, core: Core<S>, stop: Stop)

  /** Instruction length is decided by the instruction's own bytes. */
  ghost predicate DecodesLocally<S>(cpu: Cpu<S>) {
    forall m: Image, n: Image, ip: Addr ::
      m.Keys == n.Keys && (forall x: Addr | ip <= x < ip + cpu.size(m, ip) && x in m :: m[x] == n[x])
      ==> cpu.size(n, ip) == cpu.size(m, ip)
  }

  predicate Fetchable<S>(cpu: Cpu<S>, mem: Image, ip: Addr) {
    && ip in mem
    && ip + cpu.size(mem, ip) <= ADDRESS_LIMIT
    && forall x: Addr | ip <= x < ip + cpu.size(mem, ip) :: x in mem
  }

  function Fetch<S>(cpu: Cpu<S>, mem: Image, ip: Addr): seq<Byte>
    requires Fetchable(cpu, mem, ip)
  {
    seq(cpu.size(mem, ip), k requires 0 <= k < cpu.size(mem, ip) && Fetchable(cpu, mem, ip) => mem[ip + k])
  }

  /** Fetch and execute the instruction at `core.ip`; unmapped bytes raise SIGSEGV. */
  function Execute<S>(cpu: Cpu<S>, mem: Image, core: Core<S>): Effect<S> {
    if !Fetchable(cpu, mem, core.ip) then Raise(Status.SIGSEGV)
    else
      cpu.exec(Fetch(cpu, mem, core.ip), core.ip, core.data)
  }

  /** `a` modulo 2^64, as unsigned arithmetic truncates a sum. */
  function Wrap(a: nat): Addr {
    if a < ADDRESS_LIMIT then a else a % ADDRESS_LIMIT
  }

  /** The address before `a`, modulo 2^64. */
  function Before(a: Addr): Addr {
    if a == 0 then ADDRESS_LIMIT - 1 else a - 1
  }

  /** Where an effect leaves the program and why it stops there. An exit stop is reported from
      inside the exit call, past its instruction; a raised signal leaves the state untouched. */
  function Outcome<S>(cpu: Cpu<S>, mem: Image, core: Core<S>): (Core<S>, Stop) {
    match Execute(cpu, mem, core)
    case Next(ip, data) => (Core(ip, data), StepStop)
    case Exit(code) => (Core(Wrap(core.ip + cpu.size(mem, core.ip)), core.data), ExitStop(code))
    case Raise(sig) => (core, SignalStop(sig))
  }

  /** PTRACE_SINGLESTEP and the wait that follows. INT3 advances the instruction pointer by one and traps. */
  function SingleStep<S>(cpu: Cpu<S>, p: Process<S>): Process<S> {
    match p.stop
    case Gone(_) => p
    case ExitStop(code) => p.(mem := map[], stop := Gone(code))
    case _ =>
      if p.core.ip in p.mem && p.mem[p.core.ip] == INT3 then
        p.(core := p.core.(ip := Wrap(p.core.ip + 1)), stop := Int3Stop)
      else
        var (core, stop) := Outcome(cpu, p.mem, p.core);
        p.(core := core, stop := stop)
  }

  /** PTRACE_CONT and the wait that follows: `None` while the wait has not returned within `fuel`
      instructions. */
  function Resume<S>(cpu: Cpu<S>, p: Process<S>, fuel: nat): Option<Process<S>>
    decreases fuel
  {
    if fuel == 0 then None
    else
      var q := SingleStep(cpu, p);
      if q.stop.StepStop? then Resume(cpu, q, fuel - 1) else Some(q)
  }

  predicate Accessible<S>(p: Process<S>, pid: int, a: Addr) {
    p.pid == pid && !p.stop.Gone? && Mapped(p.mem, a)
  }

  function PeekText<S>(p: Process<S>, pid: int, a: Addr): Word {
    if Accessible(p, pid, a) then Peek(p.mem, a) else MINUS_ONE
  }

  function PokeText<S>(p: Process<S>, pid: int, a: Addr, w: Word): Process<S> {
    if Accessible(p, pid, a) then p.(mem := Poke(p.mem, a, w)) else p
  }

  /** PTRACE_PEEKUSER of the instruction pointer: -1 when there is no process. */
  function PeekIp<S>(p: Process<S>): Addr {
    if p.stop.Gone? then ADDRESS_LIMIT - 1 else p.core.ip
  }

  function PokeIp<S>(p: Process<S>, ip: Addr): Process<S> {
    if p.stop.Gone? then p else p.(core := p.core.(ip := ip))
  }

  /** The word `waitpid` stores for a stop. */
  function StatusWord(stop: Stop): bv32 {
    Status.Encode(
      match stop
      case ExecStop | StepStop | Int3Stop => Status.Stopped(Status.SIGTRAP, 0)
      case SignalStop(sig) => Status.Stopped(sig, 0)
      case ExitStop(_) => Status.Stopped(Status.SIGTRAP, Status.PTRACE_EVENT_EXIT)
      case Gone(code) => Status.Exited(code))
  }

  /** What the cached status tells about a stop. A finished step and a breakpoint look alike. */
  lemma StatusTellsStop(stop: Stop)
    ensures Status.IsDead(StatusWord(stop)) <==> stop.Gone?
    ensures Status.IsExiting(StatusWord(stop)) <==> stop.ExitStop?
    ensures Status.IsSegfault(StatusWord(stop)) <==> stop == SignalStop(Status.SIGSEGV)
    ensures Status.IsTrapped(StatusWord(stop)) <==> !stop.Gone? && (stop.SignalStop? ==> stop.sig == Status.SIGTRAP)
    ensures StatusWord(StepStop) == StatusWord(Int3Stop)
  {
    match stop
    case SignalStop(sig) => Status.ReportsDecode(Status.Stopped(sig, 0));
    case Gone(code) => Status.ReportsDecode(Status.Exited(code));
    case ExitStop(_) => Status.ReportsDecode(Status.Stopped(Status.SIGTRAP, Status.PTRACE_EVENT_EXIT));
    case _ => Status.ReportsDecode(Status.Stopped(Status.SIGTRAP, 0));
  }

  /** The very words for a step or breakpoint, a segmentation fault, a stop at exit and an exit. */
  lemma StatusWords(code: bv8)
    ensures StatusWord(ExecStop) == StatusWord(StepStop) == StatusWord(Int3Stop) == 0x057F
    ensures StatusWord(SignalStop(11)) == 0x0B7F
    ensures StatusWord(ExitStop(code)) == 0x6_057F
    ensures StatusWord(Gone(0)) == 0 && StatusWord(Gone(1)) == 0x0100 && StatusWord(Gone(255)) == 0xFF00
    ensures StatusWord(Gone(code)) & 0xFF == 0
  {
  }

  /** Both are arithmetic modulo 2^64, and undo each other. */
  lemma BeforeAndWrap(a: Addr, n: nat)
    ensures Before(a) == (a + 0xFFFF_FFFF_FFFF_FFFF) % 0x1_0000_0000_0000_0000
    ensures Wrap(n) == n % 0x1_0000_0000_0000_0000
    ensures Wrap(Before(a) + 1) == a && Before(Wrap(a + 1)) == a
  {
  }

  // The bare program

  /** The program's state after `n` instructions without a debugger, if it gets that far. */
  function BareAt<S>(cpu: Cpu<S>, clean: Image, core: Core<S>, n: nat): Option<Core<S>>
    decreases n
  {
    if n == 0 then Some(core)
    else
      match Execute(cpu, clean, core)
      case Next(ip, data) => BareAt(cpu, clean, Core(ip, data), n - 1)
      case _ => None
  }

  /** No INT3 of the program's own starts an instruction here, and no point lies inside it. */
  ghost predicate FriendlyAt<S>(cpu: Cpu<S>, clean: Image, points: set<Addr>, ip: Addr) {
    && (ip in clean ==> clean[ip] != INT3)
    && forall a | a in points :: !(ip < a < ip + cpu.size(clean, ip))
  }

  /** The points are instruction starts of the program: every instruction of the bare run from
      `core` is friendly. */
  ghost predicate Friendly<S>(cpu: Cpu<S>, clean: Image, points: set<Addr>, core: Core<S>) {
    forall n: nat :: BareAt(cpu, clean, core, n).Some? ==>
      FriendlyAt(cpu, clean, points, BareAt(cpu, clean, core, n).value.ip)
  }

  lemma FriendlyHere<S>(cpu: Cpu<S>, clean: Image, points: set<Addr>, core: Core<S>)
    requires Friendly(cpu, clean, points, core)
    ensures FriendlyAt(cpu, clean, points, core.ip)
  {
    assert BareAt(cpu, clean, core, 0).Some?;
  }

  lemma FriendlyNext<S>(cpu: Cpu<S>, clean: Image, points: set<Addr>, core: Core<S>)
    requires Friendly(cpu, clean, points, core)
    requires Execute(cpu, clean, core).Next?
    ensures Friendly(cpu, clean, points, Outcome(cpu, clean, core).0)
  {
    var next := Outcome(cpu, clean, core).0;
    forall n: nat | BareAt(cpu, clean, next, n).Some?
      ensures FriendlyAt(cpu, clean, points, BareAt(cpu, clean, next, n).value.ip)
    {
      assert BareAt(cpu, clean, core, n + 1) == BareAt(cpu, clean, next, n);
    }
  }

  /** Patches outside an instruction do not change what it does. */
  lemma PatchedElsewhereExecutesAlike<S>(cpu: Cpu<S>, clean: Image, mem: Image, armed: set<Addr>, core: Core<S>)
    requires DecodesLocally(cpu)
    requires mem == Overlay(clean, armed)
    requires core.ip !in armed
    requires FriendlyAt(cpu, clean, armed, core.ip)
    ensures Execute(cpu, mem, core) == Execute(cpu, clean, core)
    ensures Outcome(cpu, mem, core) == Outcome(cpu, clean, core)
    ensures core.ip in mem ==> mem[core.ip] != INT3
  {
    var ip := core.ip;
    assert mem.Keys == clean.Keys;
    forall x: Addr | ip <= x < ip + cpu.size(clean, ip) && x in clean
      ensures clean[x] == mem[x]
    {
      assert x !in armed;
    }
    assert cpu.size(mem, ip) == cpu.size(clean, ip);
    assert Fetchable(cpu, mem, ip) <==> Fetchable(cpu, clean, ip);
    if Fetchable(cpu, clean, ip) {
      assert Fetch(cpu, mem, ip) == Fetch(cpu, clean, ip);
    }
  }
}
