/** Wait-status words and the predicates that `TracedProgram` evaluates on its cached one. */
module Status {
  /** The lifetime events of the traced process, as the kernel reports them to `waitpid`. */
  datatype Report =
    | Exited(code: bv8)
    | Killed(sig: bv8, core: bool)
    | Stopped(sig: bv8, event: bv8)

  const SIGSEGV: bv8 := 11
  const SIGTRAP: bv8 := 5
  const PTRACE_EVENT_EXIT: bv8 := 6

  /** A fatal signal number: 0x7f marks a stop and is no signal. */
  predicate WellFormed(r: Report) {
    r.Killed? ==> 0 < r.sig < 0x7F
  }

  /** The 32-bit encoding of a report (Linux, `wait(2)` and `ptrace(2)`). */
  function Encode(r: Report): bv32 {
    match r
    case Exited(code) => (code as bv32) << 8
    case Killed(sig, core) => (sig as bv32) | (if core then 0x80 else 0)
    case Stopped(sig, event) => ((event as bv32) << 16) | ((sig as bv32) << 8) | 0x7F
  }

  predicate IsDead(status: bv32) { status & 0x7F == 0 }

  predicate IsAlive(status: bv32) { !IsDead(status) }

  predicate IsStopped(status: bv32) { status & 0xFF == 0x7F }

  function StopSignal(status: bv32): bv32 { (status >> 8) & 0xFF }

  predicate IsSegfault(status: bv32) {
    IsStopped(status) && StopSignal(status) == SIGSEGV as bv32
  }

  predicate IsTrapped(status: bv32) {
    IsStopped(status) && StopSignal(status) == SIGTRAP as bv32
  }

  predicate IsExiting(status: bv32) {
    IsTrapped(status) && (status >> 16) & 0xFFFF == PTRACE_EVENT_EXIT as bv32
  }

  /** For every status word the predicates are nested, and a segfault is neither a trap nor an exit. */
  lemma PredicatesNest(status: bv32)
    ensures IsExiting(status) ==> IsTrapped(status)
    ensures IsTrapped(status) ==> IsStopped(status)
    ensures IsStopped(status) ==> IsAlive(status)
    ensures IsSegfault(status) ==> IsStopped(status) && !IsTrapped(status) && !IsExiting(status)
  {
  }

  /** The predicates as tests of the whole word: 0x7F marks a stop, then the signal (5 a trap, 11 a segmentation
      fault), then the event (6 an exit). */
  lemma PredicatesAreWordTests(status: bv32)
    ensures IsTrapped(status) <==> status & 0xFFFF == 0x057F
    ensures IsSegfault(status) <==> status & 0xFFFF == 0x0B7F
    ensures IsExiting(status) <==> status == 0x0006_057F
  {
  }

  /** Each report decodes to exactly its own class. */
  lemma ReportsDecode(r: Report)
    requires WellFormed(r)
    ensures IsDead(Encode(r)) <==> r.Exited?
    ensures IsStopped(Encode(r)) <==> r.Stopped?
    ensures IsTrapped(Encode(r)) <==> r.Stopped? && r.sig == SIGTRAP
    ensures IsSegfault(Encode(r)) <==> r.Stopped? && r.sig == SIGSEGV
    ensures IsExiting(Encode(r)) <==> r.Stopped? && r.sig == SIGTRAP && r.event == PTRACE_EVENT_EXIT
    ensures r.Stopped? ==> StopSignal(Encode(r)) == r.sig as bv32
  {
  }

  /** The low byte says how the process changed state, the others with what. */
  lemma ExitCodeReadsBack(code: bv8)
    ensures (Encode(Exited(code)) >> 8) as bv8 == code
  {
  }

  lemma FatalSignalReadsBack(sig: bv8, core: bool)
    requires sig < 0x7F
    ensures (Encode(Killed(sig, core)) & 0x7F) as bv8 == sig
    ensures Encode(Killed(sig, core)) & 0x80 == 0x80 <==> core
  {
  }

  lemma StopReadsBack(sig: bv8, event: bv8)
    ensures StopSignal(Encode(Stopped(sig, event))) as bv8 == sig
    ensures (Encode(Stopped(sig, event)) >> 16) as bv8 == event
  {
  }

  /** No two reports share a status word. */
  lemma EncodeIsInjective(r: Report, q: Report)
    requires WellFormed(r) && WellFormed(q) && Encode(r) == Encode(q)
    ensures r == q
  {
    hide Encode, IsDead, IsStopped, IsTrapped, IsSegfault, IsExiting, StopSignal;
    ReportsDecode(r);
    ReportsDecode(q);
    match r
    case Exited(code) =>
      ExitCodeReadsBack(code);
      ExitCodeReadsBack(q.code);
    case Killed(sig, core) =>
      FatalSignalReadsBack(sig, core);
      FatalSignalReadsBack(q.sig, q.core);
    case Stopped(sig, event) =>
      StopReadsBack(sig, event);
      StopReadsBack(q.sig, q.event);
  }

  /** Among the reports that end a process, `isDead` recognises it exactly when it exited by itself:
      a process that a signal killed still counts as alive. */
  lemma DeadMissesKilled(r: Report)
    requires WellFormed(r) && !r.Stopped?
    ensures IsDead(Encode(r)) <==> !r.Killed?
  {
  }
}
