/** Which programs and points never lead to a misleading stop: a condition on the bare run alone. */
module Unmistakable {
  import opened Memory
  import opened Options
  import M = Machine
  import D = Debugger
  import opened Ideal

  /** The points at which a breakpoint can be placed. */
  ghost function Placeable(clean: Image, points: set<Addr>): set<Addr> {
    set a | a in points && Mapped(clean, a)
  }

  /** No instruction of the bare run from `core` leaves the instruction pointer right behind a point. */
  ghost predicate NoneBehind<S>(cpu: M.Cpu<S>, clean: Image, points: set<Addr>, core: M.Core<S>) {
    forall n: nat :: M.BareAt(cpu, clean, core, n).Some? ==>
      M.Before(M.Outcome(cpu, clean, M.BareAt(cpu, clean, core, n).value).0.ip) !in Placeable(clean, points)
  }

  /** Nor does it stand there now, breakpoint hits excepted, where it is known to. */
  ghost predicate Unmistakable<S>(cpu: M.Cpu<S>, clean: Image, points: set<Addr>, v: View<S>) {
    match v.stop
    case Gone(_) => true
    case ExitStop(_) => M.Before(v.core.ip) !in Placeable(clean, points)
    case Int3Stop => NoneBehind(cpu, clean, points, v.core)
    case _ => M.Before(v.core.ip) !in Placeable(clean, points) && NoneBehind(cpu, clean, points, v.core)
  }

  /** What commands keep that place only points. */
  ghost predicate Safe<S>(cpu: M.Cpu<S>, clean: Image, points: set<Addr>, v: View<S>) {
    v.known <= Placeable(clean, points) && Unmistakable(cpu, clean, points, v)
  }

  lemma NoneBehindNext<S>(cpu: M.Cpu<S>, clean: Image, points: set<Addr>, core: M.Core<S>)
    requires NoneBehind(cpu, clean, points, core)
    ensures var (next, stop) := M.Outcome(cpu, clean, core);
      && M.Before(next.ip) !in Placeable(clean, points)
      && (!stop.ExitStop? ==> NoneBehind(cpu, clean, points, next))
  {
    var (next, stop) := M.Outcome(cpu, clean, core);
    assert M.BareAt(cpu, clean, core, 0).Some?;
    if stop.StepStop? {
      forall n: nat | M.BareAt(cpu, clean, next, n).Some?
        ensures M.Before(M.Outcome(cpu, clean, M.BareAt(cpu, clean, next, n).value).0.ip) !in Placeable(clean, points)
      {
        assert M.BareAt(cpu, clean, core, n + 1) == M.BareAt(cpu, clean, next, n);
      }
    }
  }

  lemma StepIsSafe<S>(cpu: M.Cpu<S>, clean: Image, points: set<Addr>, v: View<S>)
    requires Safe(cpu, clean, points, v)
    ensures Safe(cpu, clean, points, Step(cpu, clean, v))
  {
    if !v.stop.Gone? && !v.stop.ExitStop? {
      NoneBehindNext(cpu, clean, points, v.core);
    }
  }

  lemma {:induction false} RunIsSafe<S>(cpu: M.Cpu<S>, clean: Image, points: set<Addr>, v: View<S>, fuel: nat)
    requires Safe(cpu, clean, points, v) && RunTo(cpu, clean, v, fuel).Some?
    ensures Safe(cpu, clean, points, RunTo(cpu, clean, v, fuel).value)
    decreases fuel
  {
    hide Safe, Step;
    StepIsSafe(cpu, clean, points, v);
    var w := Step(cpu, clean, v);
    if w.stop.StepStop? {
      RunIsSafe(cpu, clean, points, w, fuel - 1);
    }
  }

  lemma CommandIsSafe<S>(cpu: M.Cpu<S>, clean: Image, points: set<Addr>, v: View<S>, c: D.Command)
    requires Safe(cpu, clean, points, v) && (c.PlaceCmd? ==> c.address in points)
    requires Execute(cpu, clean, v, c).Some?
    ensures Safe(cpu, clean, points, Execute(cpu, clean, v, c).value)
  {
    match c
    case StepCmd => StepIsSafe(cpu, clean, points, v);
    case ContinueCmd(fuel) =>
      StepIsSafe(cpu, clean, points, v);
      RunIsSafe(cpu, clean, points, if v.stop.Int3Stop? then Step(cpu, clean, v) else v, fuel);
    case _ =>
  }

  /** Under the condition no command sequence is ever misled, and the condition holds again. */
  lemma {:induction false} CommandsAreSafe<S>(cpu: M.Cpu<S>, clean: Image, points: set<Addr>,
                                              v: View<S>, cs: seq<D.Command>)
    requires Safe(cpu, clean, points, v) && D.PlacesOnly(points, cs)
    ensures NeverMisled(cpu, clean, v, cs)
    ensures ExecuteAll(cpu, clean, v, cs).Some? ==> Safe(cpu, clean, points, ExecuteAll(cpu, clean, v, cs).value)
    decreases |cs|
  {
    if cs != [] {
      assert cs[0] in cs;
      SafeIsNotMisleading(cpu, clean, points, v);
      hide Safe, Misleading;
      var next := Execute(cpu, clean, v, cs[0]);
      if next.Some? {
        CommandIsSafe(cpu, clean, points, v, cs[0]);
        CommandsAreSafe(cpu, clean, points, next.value, cs[1..]);
      }
    }
  }

  lemma SafeIsNotMisleading<S>(cpu: M.Cpu<S>, clean: Image, points: set<Addr>, v: View<S>)
    requires Safe(cpu, clean, points, v)
    ensures !Misleading(v)
  {
  }

  // The condition is exact

  function Steps(k: nat): seq<D.Command> {
    if k == 0 then [] else [D.StepCmd] + Steps(k - 1)
  }

  lemma OneMoreStep<S>(cpu: M.Cpu<S>, clean: Image, v: View<S>, k: nat)
    requires !NeverMisled(cpu, clean, Step(cpu, clean, v), Steps(k))
    ensures !NeverMisled(cpu, clean, v, Steps(k + 1))
  {
    assert Steps(k + 1)[1..] == Steps(k);
  }

  /** If the bare run leaves the instruction pointer right behind a known address, some number of steps is
      misled there. */
  lemma {:induction false} StepsGetMisled<S>(cpu: M.Cpu<S>, clean: Image, v: View<S>, n: nat) returns (k: nat)
    requires !v.stop.Gone? && !v.stop.ExitStop? && M.BareAt(cpu, clean, v.core, n).Some?
    requires M.Before(M.Outcome(cpu, clean, M.BareAt(cpu, clean, v.core, n).value).0.ip) in v.known
    ensures !NeverMisled(cpu, clean, v, Steps(k))
    decreases n, if v.stop.Int3Stop? then 0 else 1
  {
    if Misleading(v) {
      k := 1;
    } else {
      var w := Step(cpu, clean, v);
      if n == 0 && !w.stop.Int3Stop? {
        assert !NeverMisled(cpu, clean, w, Steps(1));
        k := 1;
      } else {
        k := StepsGetMisled(cpu, clean, w, if w.stop.Int3Stop? then n else n - 1);
      }
      OneMoreStep(cpu, clean, v, k);
      k := k + 1;
    }
  }

  lemma PlaceThenSteps<S>(cpu: M.Cpu<S>, clean: Image, points: set<Addr>, v: View<S>, a: Addr, k: nat)
    requires a in points && !NeverMisled(cpu, clean, Place(clean, v, a), Steps(k))
    ensures D.PlacesOnly(points, [D.PlaceCmd(a, "")] + Steps(k))
    ensures !NeverMisled(cpu, clean, v, [D.PlaceCmd(a, "")] + Steps(k))
  {
    StepsPlaceNothing(k);
    assert ([D.PlaceCmd(a, "")] + Steps(k))[1..] == Steps(k);
  }

  lemma {:induction false} StepsPlaceNothing(k: nat)
    ensures forall c | c in Steps(k) :: c == D.StepCmd
    decreases k
  {
    if k > 0 {
      StepsPlaceNothing(k - 1);
    }
  }

  /** Some sequence of commands is misled unless the condition holds. */
  lemma MistakableIsMisled<S>(cpu: M.Cpu<S>, clean: Image, points: set<Addr>, v: View<S>) returns (cs: seq<D.Command>)
    requires !Unmistakable(cpu, clean, points, v)
    ensures D.PlacesOnly(points, cs) && !NeverMisled(cpu, clean, v, cs)
  {
    var a, k;
    if !v.stop.Int3Stop? && M.Before(v.core.ip) in Placeable(clean, points) {
      a, k := M.Before(v.core.ip), 1;
    } else {
      var n: nat :| M.BareAt(cpu, clean, v.core, n).Some? &&
        M.Before(M.Outcome(cpu, clean, M.BareAt(cpu, clean, v.core, n).value).0.ip) in Placeable(clean, points);
      a := M.Before(M.Outcome(cpu, clean, M.BareAt(cpu, clean, v.core, n).value).0.ip);
      k := StepsGetMisled(cpu, clean, Place(clean, v, a), n);
    }
    PlaceThenSteps(cpu, clean, points, v, a, k);
    cs := [D.PlaceCmd(a, "")] + Steps(k);
  }

  /** No sequence of commands that places only points is ever misled, if and only if the program, apart
      from breakpoint hits, neither stands nor ever comes to stand right behind a point. */
  lemma NeverMisledIff<S>(cpu: M.Cpu<S>, clean: Image, points: set<Addr>, v: View<S>)
    requires v.known <= Placeable(clean, points)
    ensures (forall cs | D.PlacesOnly(points, cs) :: NeverMisled(cpu, clean, v, cs))
       <==> Unmistakable(cpu, clean, points, v)
  {
    if Unmistakable(cpu, clean, points, v) {
      forall cs | D.PlacesOnly(points, cs)
        ensures NeverMisled(cpu, clean, v, cs)
      {
        CommandsAreSafe(cpu, clean, points, v, cs);
      }
    } else {
      var cs := MistakableIsMisled(cpu, clean, points, v);
    }
  }
}
