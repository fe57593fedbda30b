/** The reference: a debugger that watches the bare program from outside. It patches nothing, keeps
    no map and reads no memory but the clean image; breakpoints are a set of armed addresses. */
module Ideal {
  import opened Memory
  import opened Options
  import M = Machine
  import opened Debugger

  /** `known` are the addresses ever placed, `armed` those where the program stops. A program that
      reports a breakpoint is shown at it, before the instruction. */
  datatype View<S> = View(core: M.Core<S>, stop: M.Stop, armed: set<Addr>, known: set<Addr>)

  function Place<S>(clean: Image, v: View<S>, a: Addr): View<S> {
    if v.stop.Gone? || !Mapped(clean, a) then v
    else v.(armed := v.armed + {a}, known := v.known + {a})
  }

  function Disable<S>(v: View<S>, a: Addr): View<S> {
    if v.stop.Gone? || a !in v.known then v else v.(armed := v.armed - {a})
  }

  /** One instruction of the bare program. */
  function Advance<S>(cpu: M.Cpu<S>, clean: Image, v: View<S>): View<S> {
    match v.stop
    case Gone(_) => v
    case ExitStop(code) => v.(stop := M.Gone(code), armed := {})
    case _ =>
      var (core, stop) := M.Outcome(cpu, clean, v.core);
      v.(core := core, stop := stop)
  }

  /** From a breakpoint, a step executes its instruction and leaves it armed. Elsewhere a step
      reports an armed instruction once, without executing it, and executes any other. */
  function Step<S>(cpu: M.Cpu<S>, clean: Image, v: View<S>): View<S> {
    if v.stop.Int3Stop? then Advance(cpu, clean, v.(armed := v.armed + {v.core.ip}))
    else if !v.stop.Gone? && !v.stop.ExitStop? && v.core.ip in v.armed then v.(stop := M.Int3Stop)
    else Advance(cpu, clean, v)
  }

  /** Run until an armed instruction, an exit or a signal. */
  function RunTo<S>(cpu: M.Cpu<S>, clean: Image, v: View<S>, fuel: nat): Option<View<S>>
    decreases fuel
  {
    if fuel == 0 then None
    else
      var w := Step(cpu, clean, v);
      if w.stop.StepStop? then RunTo(cpu, clean, w, fuel - 1) else Some(w)
  }

  function Continue<S>(cpu: M.Cpu<S>, clean: Image, v: View<S>, fuel: nat): Option<View<S>> {
    RunTo(cpu, clean, if v.stop.Int3Stop? then Step(cpu, clean, v) else v, fuel)
  }

  function Execute<S>(cpu: M.Cpu<S>, clean: Image, v: View<S>, c: Command): Option<View<S>> {
    match c
    case PlaceCmd(a, _) => Some(Place(clean, v, a))
    case DisableCmd(a) => Some(Disable(v, a))
    case StepCmd => Some(Step(cpu, clean, v))
    case ContinueCmd(fuel) => Continue(cpu, clean, v, fuel)
  }

  function ExecuteAll<S>(cpu: M.Cpu<S>, clean: Image, v: View<S>, cs: seq<Command>): Option<View<S>>
    decreases |cs|
  {
    if cs == [] then Some(v)
    else
      match Execute(cpu, clean, v, cs[0])
      case None => None
      case Some(w) => ExecuteAll(cpu, clean, w, cs[1..])
  }

  /** The stop was not reported by an INT3, yet the address before the instruction pointer is a
      placed breakpoint: the debugger cannot tell this from a breakpoint hit. */
  predicate Misleading<S>(v: View<S>) {
    !v.stop.Int3Stop? && !v.stop.Gone? && M.Before(v.core.ip) in v.known
  }

  /** No step or continue of the run starts from a misleading stop. */
  predicate NeverMisled<S>(cpu: M.Cpu<S>, clean: Image, v: View<S>, cs: seq<Command>)
    decreases |cs|
  {
    if cs == [] then true
    else
      && (cs[0].StepCmd? || cs[0].ContinueCmd? ==> !Misleading(v))
      && match Execute(cpu, clean, v, cs[0])
         case None => true
         case Some(w) => NeverMisled(cpu, clean, w, cs[1..])
  }
}
