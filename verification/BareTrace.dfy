/** What the ideal debugger shows is the bare program's own run. */
module BareTrace {
  import opened Memory
  import opened Options
  import opened Machine
  import D = Debugger
  import opened Ideal

  predicate Executing<S>(v: View<S>) { !v.stop.Gone? && !v.stop.ExitStop? }

  /** `core` is a state of the bare run from `start`. */
  ghost predicate Visited<S>(cpu: Cpu<S>, clean: Image, start: Core<S>, core: Core<S>) {
    exists n: nat :: BareAt(cpu, clean, start, n) == Some(core)
  }

  lemma {:induction false} BareAtAdds<S>(cpu: Cpu<S>, clean: Image, start: Core<S>, m: nat, n: nat)
    requires BareAt(cpu, clean, start, m).Some?
    ensures BareAt(cpu, clean, start, m + n)
         == BareAt(cpu, clean, BareAt(cpu, clean, start, m).value, n)
    decreases m
  {
    if m > 0 {
      BareAtAdds(cpu, clean, Outcome(cpu, clean, start).0, m - 1, n);
    }
  }

  /** The program exits with `code` from some state of the bare run. */
  ghost predicate ExitsFrom<S>(cpu: Cpu<S>, clean: Image, start: Core<S>, code: bv8) {
    exists n: nat :: BareAt(cpu, clean, start, n).Some?
      && Machine.Execute(cpu, clean, BareAt(cpu, clean, start, n).value) == Exit(code)
  }

  /** What is shown comes from the bare run: a program still executing is at one of its states, an exit
      code is one that it exits with. */
  ghost predicate Traced<S>(cpu: Cpu<S>, clean: Image, start: Core<S>, v: View<S>) {
    match v.stop
    case ExitStop(code) => ExitsFrom(cpu, clean, start, code)
    case Gone(code) => ExitsFrom(cpu, clean, start, code)
    case _ => Visited(cpu, clean, start, v.core)
  }

  /** A signal shown is the one that the instruction shown raises. */
  ghost predicate SignalIsRaised<S>(cpu: Cpu<S>, clean: Image, v: View<S>) {
    v.stop.SignalStop? ==> Machine.Execute(cpu, clean, v.core) == Raise(v.stop.sig)
  }

  /** `w` can be shown after `v`. */
  ghost predicate Follows<S>(cpu: Cpu<S>, clean: Image, start: Core<S>, v: View<S>, w: View<S>) {
    && (Traced(cpu, clean, start, v) ==> Traced(cpu, clean, start, w))
    && (SignalIsRaised(cpu, clean, v) ==> SignalIsRaised(cpu, clean, w))
    && (Executing(w) ==> Executing(v))
  }

  lemma StepFollows<S>(cpu: Cpu<S>, clean: Image, start: Core<S>, v: View<S>)
    ensures Follows(cpu, clean, start, v, Step(cpu, clean, v))
  {
    var w := Step(cpu, clean, v);
    if Executing(v) && Traced(cpu, clean, start, v) && w.core != v.core {
      var n: nat :| BareAt(cpu, clean, start, n) == Some(v.core);
      if w.stop.StepStop? {
        BareAtAdds(cpu, clean, start, n, 1);
        assert BareAt(cpu, clean, v.core, 1) == Some(w.core);
      }
    }
  }

  lemma {:induction false} RunFollows<S>(cpu: Cpu<S>, clean: Image, start: Core<S>, v: View<S>, fuel: nat)
    requires RunTo(cpu, clean, v, fuel).Some?
    ensures Follows(cpu, clean, start, v, RunTo(cpu, clean, v, fuel).value)
    decreases fuel
  {
    hide Traced, SignalIsRaised, Step;
    var w := Step(cpu, clean, v);
    StepFollows(cpu, clean, start, v);
    if w.stop.StepStop? {
      RunFollows(cpu, clean, start, w, fuel - 1);
    }
  }

  lemma CommandFollows<S>(cpu: Cpu<S>, clean: Image, start: Core<S>, v: View<S>, c: D.Command)
    requires Ideal.Execute(cpu, clean, v, c).Some?
    ensures Follows(cpu, clean, start, v, Ideal.Execute(cpu, clean, v, c).value)
  {
    match c
    case StepCmd => StepFollows(cpu, clean, start, v);
    case ContinueCmd(fuel) =>
      StepFollows(cpu, clean, start, v);
      RunFollows(cpu, clean, start, if v.stop.Int3Stop? then Step(cpu, clean, v) else v, fuel);
    case _ =>
  }

  /** Whatever the commands, what is shown at the end comes from the same bare run as what was shown at the
      beginning: states, exit codes and signals. */
  lemma {:induction false} CommandsFollow<S>(cpu: Cpu<S>, clean: Image, start: Core<S>, v: View<S>, cs: seq<D.Command>)
    requires ExecuteAll(cpu, clean, v, cs).Some?
    ensures Follows(cpu, clean, start, v, ExecuteAll(cpu, clean, v, cs).value)
    decreases |cs|
  {
    hide Traced, SignalIsRaised;
    if cs != [] {
      CommandFollows(cpu, clean, start, v, cs[0]);
      CommandsFollow(cpu, clean, start, Ideal.Execute(cpu, clean, v, cs[0]).value, cs[1..]);
    }
  }

  /** After any commands, a program still executing is shown in a state of the bare run from where it was;
      an exit code shown is one the program exits with from there; and a signal is one that the instruction
      shown raises, unless it was shown from the beginning. */
  lemma CommandsStayOnTrace<S>(cpu: Cpu<S>, clean: Image, v: View<S>, cs: seq<D.Command>)
    requires ExecuteAll(cpu, clean, v, cs).Some?
    ensures var w := ExecuteAll(cpu, clean, v, cs).value;
      && (Executing(w) ==> Executing(v) && Visited(cpu, clean, v.core, w.core))
      && (Executing(v) ==> Traced(cpu, clean, v.core, w))
      && (SignalIsRaised(cpu, clean, v) ==> SignalIsRaised(cpu, clean, w))
  {
    CommandsFollow(cpu, clean, v.core, v, cs);
    assert BareAt(cpu, clean, v.core, 0) == Some(v.core);
  }

  // Continuing from stop to stop

  /** The states among the first `n` of the bare run at which an armed instruction is about to run. */
  function Hits<S>(cpu: Cpu<S>, clean: Image, armed: set<Addr>, core: Core<S>, n: nat): seq<Core<S>>
    decreases n
  {
    if n == 0 then []
    else
      (if core.ip in armed then [core] else []) +
      match Machine.Execute(cpu, clean, core)
      case Next(ip, data) => Hits(cpu, clean, armed, Core(ip, data), n - 1)
      case _ => []
  }

  lemma {:induction false} HitsAdd<S>(cpu: Cpu<S>, clean: Image, armed: set<Addr>, core: Core<S>, m: nat, n: nat)
    requires BareAt(cpu, clean, core, m).Some?
    ensures Hits(cpu, clean, armed, core, m + n)
         == Hits(cpu, clean, armed, core, m) + Hits(cpu, clean, armed, BareAt(cpu, clean, core, m).value, n)
    decreases m
  {
    if m > 0 {
      HitsAdd(cpu, clean, armed, Outcome(cpu, clean, core).0, m - 1, n);
    }
  }

  /** A run that stops at a breakpoint stopped at the next hit. */
  lemma {:induction false} RunStopsAtNextHit<S>(cpu: Cpu<S>, clean: Image, v: View<S>, fuel: nat)
    returns (j: nat)
    requires Executing(v) && !v.stop.Int3Stop?
    requires RunTo(cpu, clean, v, fuel).Some? && RunTo(cpu, clean, v, fuel).value.stop.Int3Stop?
    ensures var w := RunTo(cpu, clean, v, fuel).value;
      && w == v.(core := w.core, stop := Int3Stop)
      && BareAt(cpu, clean, v.core, j) == Some(w.core)
      && w.core.ip in v.armed
      && Hits(cpu, clean, v.armed, v.core, j) == []
    decreases fuel
  {
    var w := Step(cpu, clean, v);
    if w.stop.StepStop? {
      j := RunStopsAtNextHit(cpu, clean, w, fuel - 1);
      j := j + 1;
    } else {
      j := 0;
    }
  }

  /** A hit within `n` instructions stops a run that waits that long. */
  lemma {:induction false} RunFindsHit<S>(cpu: Cpu<S>, clean: Image, v: View<S>, n: nat, fuel: nat)
    requires Executing(v) && !v.stop.Int3Stop?
    requires Hits(cpu, clean, v.armed, v.core, n) != [] && fuel >= n
    ensures RunTo(cpu, clean, v, fuel).Some? && RunTo(cpu, clean, v, fuel).value.stop.Int3Stop?
    decreases n
  {
    var w := Step(cpu, clean, v);
    if v.core.ip !in v.armed {
      RunFindsHit(cpu, clean, w, n - 1, fuel - 1);
    }
  }

  /** Where `k` continues stop, if all of them stop at breakpoints. */
  function Stops<S>(cpu: Cpu<S>, clean: Image, v: View<S>, k: nat, fuel: nat): Option<seq<Core<S>>>
    decreases k
  {
    if k == 0 then Some([])
    else
      match Continue(cpu, clean, v, fuel)
      case None => None
      case Some(w) =>
        if !w.stop.Int3Stop? then None
        else
          match Stops(cpu, clean, w, k - 1, fuel)
          case None => None
          case Some(rest) => Some([w.core] + rest)
  }

  /** The program is about to run, or shown at, an armed or unarmed instruction; a breakpoint it is
      shown at has not been disabled since. */
  predicate Ready<S>(v: View<S>) {
    Executing(v) && (v.stop.Int3Stop? ==> v.core.ip in v.armed)
  }

  ghost predicate NoSignalAtArmed<S>(cpu: Cpu<S>, clean: Image, armed: set<Addr>, core: Core<S>) {
    forall n: nat :: BareAt(cpu, clean, core, n).Some? && BareAt(cpu, clean, core, n).value.ip in armed ==>
      !Machine.Execute(cpu, clean, BareAt(cpu, clean, core, n).value).Raise?
  }

  function Shown<S>(v: View<S>): seq<Core<S>> {
    if v.stop.Int3Stop? then [v.core] else []
  }

  /** One continue from a breakpoint or anywhere else: to the next hit, that breakpoint excepted. */
  lemma ContinueStopsAtNextHit<S>(cpu: Cpu<S>, clean: Image, v: View<S>, fuel: nat) returns (j: nat)
    requires Ready(v)
    requires v.stop.Int3Stop? ==> !Machine.Execute(cpu, clean, v.core).Raise?
    requires Continue(cpu, clean, v, fuel).Some? && Continue(cpu, clean, v, fuel).value.stop.Int3Stop?
    ensures var w := Continue(cpu, clean, v, fuel).value;
      && w == v.(core := w.core, stop := Int3Stop)
      && w.core.ip in v.armed
      && BareAt(cpu, clean, v.core, j) == Some(w.core)
      && Hits(cpu, clean, v.armed, v.core, j) == Shown(v)
  {
    if v.stop.Int3Stop? {
      assert v.armed + {v.core.ip} == v.armed;
      var w := Step(cpu, clean, v);
      assert w.stop.StepStop?;
      j := RunStopsAtNextHit(cpu, clean, w, fuel);
      j := j + 1;
    } else {
      j := RunStopsAtNextHit(cpu, clean, v, fuel);
    }
  }

  /** None invented: the stops of `k` continues are all the hits of a stretch of the bare run. */
  lemma {:induction false} StopsAreHits<S>(cpu: Cpu<S>, clean: Image, v: View<S>, k: nat, fuel: nat)
    requires Ready(v) && NoSignalAtArmed(cpu, clean, v.armed, v.core)
    requires Stops(cpu, clean, v, k, fuel).Some?
    ensures exists n: nat :: Hits(cpu, clean, v.armed, v.core, n)
                          == Shown(v) + Stops(cpu, clean, v, k, fuel).value
    decreases k
  {
    if k == 0 {
      assert Hits(cpu, clean, v.armed, v.core, if v.stop.Int3Stop? then 1 else 0) == Shown(v) + [];
    } else {
      assert BareAt(cpu, clean, v.core, 0) == Some(v.core);
      var j := ContinueStopsAtNextHit(cpu, clean, v, fuel);
      var w := Continue(cpu, clean, v, fuel).value;
      forall n: nat
        ensures BareAt(cpu, clean, w.core, n) == BareAt(cpu, clean, v.core, j + n)
      {
        BareAtAdds(cpu, clean, v.core, j, n);
      }
      StopsAreHits(cpu, clean, w, k - 1, fuel);
      var rest := Stops(cpu, clean, w, k - 1, fuel).value;
      var n: nat :| Hits(cpu, clean, v.armed, w.core, n) == [w.core] + rest;
      HitsAdd(cpu, clean, v.armed, v.core, j, n);
      assert Hits(cpu, clean, v.armed, v.core, j + n) == Shown(v) + ([w.core] + rest);
    }
  }

  /** None missed: with enough waiting, `k` continues stop at the first `k` hits still to come. */
  lemma {:induction false} HitsAreStops<S>(cpu: Cpu<S>, clean: Image, v: View<S>, n: nat, k: nat, fuel: nat)
    requires Ready(v) && fuel >= n
    requires |Hits(cpu, clean, v.armed, v.core, n)| >= |Shown(v)| + k
    ensures Stops(cpu, clean, v, k, fuel)
         == Some(Hits(cpu, clean, v.armed, v.core, n)[|Shown(v)|..|Shown(v)| + k])
    decreases k
  {
    var hits := Hits(cpu, clean, v.armed, v.core, n);
    if k == 0 {
      assert hits[|Shown(v)|..|Shown(v)| + k] == [];
    } else {
      var w, m := NextHit(cpu, clean, v, n, fuel);
      HitsAreStops(cpu, clean, w, m, k - 1, fuel);
      var rest := Hits(cpu, clean, v.armed, w.core, m);
      assert Stops(cpu, clean, w, k - 1, fuel) == Some(rest[1..k]);
      SplitAfter(Shown(v), rest, w.core, k);
    }
  }

  lemma SplitAfter<T>(before: seq<T>, rest: seq<T>, first: T, k: nat)
    requires [first] <= rest && 0 < k <= |rest|
    ensures (before + rest)[|before|..|before| + k] == [first] + rest[1..k]
  {
  }

  /** The stop of one continue splits the hits still to come. */
  lemma NextHit<S>(cpu: Cpu<S>, clean: Image, v: View<S>, n: nat, fuel: nat) returns (w: View<S>, m: nat)
    requires Ready(v) && fuel >= n
    requires |Hits(cpu, clean, v.armed, v.core, n)| > |Shown(v)|
    ensures Continue(cpu, clean, v, fuel) == Some(w)
    ensures w == v.(core := w.core, stop := Int3Stop) && Ready(w) && 0 < m <= n
    ensures BareAt(cpu, clean, v.core, n - m) == Some(w.core)
    ensures Hits(cpu, clean, v.armed, v.core, n) == Shown(v) + Hits(cpu, clean, v.armed, w.core, m)
    ensures [w.core] <= Hits(cpu, clean, v.armed, w.core, m)
  {
    ContinueFindsHit(cpu, clean, v, n, fuel);
    var j := ContinueStopsAtNextHit(cpu, clean, v, fuel);
    w := Continue(cpu, clean, v, fuel).value;
    HitsFrom(cpu, clean, v.armed, v.core, j, n);
    m := n - j;
  }

  lemma ContinueFindsHit<S>(cpu: Cpu<S>, clean: Image, v: View<S>, n: nat, fuel: nat)
    requires Ready(v) && fuel >= n
    requires |Hits(cpu, clean, v.armed, v.core, n)| > |Shown(v)|
    ensures v.stop.Int3Stop? ==> Machine.Execute(cpu, clean, v.core).Next?
    ensures Continue(cpu, clean, v, fuel).Some? && Continue(cpu, clean, v, fuel).value.stop.Int3Stop?
  {
    if v.stop.Int3Stop? {
      assert v.armed + {v.core.ip} == v.armed;
      RunFindsHit(cpu, clean, Step(cpu, clean, v), n - 1, fuel);
    } else {
      RunFindsHit(cpu, clean, v, n, fuel);
    }
  }

  lemma HitsFrom<S>(cpu: Cpu<S>, clean: Image, armed: set<Addr>, core: Core<S>, j: nat, n: nat)
    requires BareAt(cpu, clean, core, j).Some?
    requires |Hits(cpu, clean, armed, core, n)| > |Hits(cpu, clean, armed, core, j)|
    ensures j < n
    ensures Hits(cpu, clean, armed, core, n)
         == Hits(cpu, clean, armed, core, j) + Hits(cpu, clean, armed, BareAt(cpu, clean, core, j).value, n - j)
  {
    if n <= j {
      HitsGrow(cpu, clean, armed, core, n, j);
    } else {
      HitsAdd(cpu, clean, armed, core, j, n - j);
    }
  }

  lemma {:induction false} HitsGrow<S>(cpu: Cpu<S>, clean: Image, armed: set<Addr>, core: Core<S>, m: nat, n: nat)
    requires m <= n
    ensures Hits(cpu, clean, armed, core, m) <= Hits(cpu, clean, armed, core, n)
    decreases m
  {
    if m > 0 && Machine.Execute(cpu, clean, core).Next? {
      HitsGrow(cpu, clean, armed, Outcome(cpu, clean, core).0, m - 1, n - 1);
    }
  }

  // The signal premise is exact

  /** Where the bare run raises a signal it ends, and so do its hits. */
  lemma HitsEndAtSignal<S>(cpu: Cpu<S>, clean: Image, armed: set<Addr>, core: Core<S>, n: nat, m: nat)
    requires BareAt(cpu, clean, core, n).Some?
    requires Machine.Execute(cpu, clean, BareAt(cpu, clean, core, n).value).Raise?
    ensures |Hits(cpu, clean, armed, core, m)| <= |Hits(cpu, clean, armed, core, n + 1)|
  {
    if m <= n + 1 {
      HitsGrow(cpu, clean, armed, core, m, n + 1);
    } else {
      HitsAdd(cpu, clean, armed, core, n, 1);
      HitsAdd(cpu, clean, armed, core, n, m - n);
    }
  }

  lemma {:induction false} StopsLength<S>(cpu: Cpu<S>, clean: Image, v: View<S>, k: nat, fuel: nat)
    requires Stops(cpu, clean, v, k, fuel).Some?
    ensures |Stops(cpu, clean, v, k, fuel).value| == k
    decreases k
  {
    if k > 0 {
      StopsLength(cpu, clean, Continue(cpu, clean, v, fuel).value, k - 1, fuel);
    }
  }

  /** Continue from an armed instruction that raises a signal shows it again. */
  lemma ContinueRepeats<S>(cpu: Cpu<S>, clean: Image, v: View<S>, fuel: nat)
    requires v.stop.Int3Stop? && v.core.ip in v.armed && fuel > 0
    requires Machine.Execute(cpu, clean, v.core).Raise?
    ensures Continue(cpu, clean, v, fuel) == Some(v)
  {
    assert v.armed + {v.core.ip} == v.armed;
  }

  /** If the last of `k` hits to come raises a signal, one continue more than there are hits still reports
      a breakpoint. */
  lemma {:induction false} SignalRepeatsHit<S>(cpu: Cpu<S>, clean: Image, v: View<S>, n: nat, k: nat, fuel: nat)
    requires Ready(v) && fuel > n
    requires BareAt(cpu, clean, v.core, n).Some? && BareAt(cpu, clean, v.core, n).value.ip in v.armed
    requires Machine.Execute(cpu, clean, BareAt(cpu, clean, v.core, n).value).Raise?
    requires |Hits(cpu, clean, v.armed, v.core, n + 1)| == |Shown(v)| + k
    ensures Stops(cpu, clean, v, k + 1, fuel).Some?
    decreases k
  {
    if k == 0 {
      OnlyHitIsShown(cpu, clean, v, n);
      ContinueRepeats(cpu, clean, v, fuel);
      assert Stops(cpu, clean, v, 0, fuel) == Some([]);
    } else {
      var w, m := NextHit(cpu, clean, v, n + 1, fuel);
      BareAtAdds(cpu, clean, v.core, n + 1 - m, m - 1);
      SignalRepeatsHit(cpu, clean, w, m - 1, k - 1, fuel);
    }
  }

  lemma OnlyHitIsShown<S>(cpu: Cpu<S>, clean: Image, v: View<S>, n: nat)
    requires Ready(v)
    requires BareAt(cpu, clean, v.core, n).Some? && BareAt(cpu, clean, v.core, n).value.ip in v.armed
    requires |Hits(cpu, clean, v.armed, v.core, n + 1)| == |Shown(v)|
    ensures n == 0 && v.stop.Int3Stop?
  {
    HitsGrow(cpu, clean, v.armed, v.core, if n > 0 then 1 else 0, n);
    HitsAdd(cpu, clean, v.armed, v.core, n, 1);
  }

  /** Every report of a breakpoint is a hit of the bare run, however many continues and however long their
      waits: the stops are all the hits of a stretch of it. */
  ghost predicate InventsNothing<S>(cpu: Cpu<S>, clean: Image, v: View<S>) {
    forall k: nat, fuel: nat :: Stops(cpu, clean, v, k, fuel).Some? ==>
      exists n: nat :: Hits(cpu, clean, v.armed, v.core, n) == Shown(v) + Stops(cpu, clean, v, k, fuel).value
  }

  /** None invented, if and only if no armed instruction of the bare run raises a signal. */
  lemma InventsNothingIff<S>(cpu: Cpu<S>, clean: Image, v: View<S>)
    requires Ready(v)
    ensures InventsNothing(cpu, clean, v) <==> NoSignalAtArmed(cpu, clean, v.armed, v.core)
  {
    if NoSignalAtArmed(cpu, clean, v.armed, v.core) {
      forall k: nat, fuel: nat | Stops(cpu, clean, v, k, fuel).Some?
        ensures exists n: nat :: Hits(cpu, clean, v.armed, v.core, n) == Shown(v) + Stops(cpu, clean, v, k, fuel).value
      {
        StopsAreHits(cpu, clean, v, k, fuel);
      }
    } else {
      var n: nat :| BareAt(cpu, clean, v.core, n).Some? && BareAt(cpu, clean, v.core, n).value.ip in v.armed
        && Machine.Execute(cpu, clean, BareAt(cpu, clean, v.core, n).value).Raise?;
      SignalInventsStop(cpu, clean, v, n);
    }
  }

  lemma SignalInventsStop<S>(cpu: Cpu<S>, clean: Image, v: View<S>, n: nat)
    requires Ready(v)
    requires BareAt(cpu, clean, v.core, n).Some? && BareAt(cpu, clean, v.core, n).value.ip in v.armed
    requires Machine.Execute(cpu, clean, BareAt(cpu, clean, v.core, n).value).Raise?
    ensures !InventsNothing(cpu, clean, v)
  {
    ShownIsHit(cpu, clean, v, n);
    var k := |Hits(cpu, clean, v.armed, v.core, n + 1)| - |Shown(v)|;
    SignalRepeatsHit(cpu, clean, v, n, k, n + 1);
    StopsLength(cpu, clean, v, k + 1, n + 1);
    forall m: nat
      ensures Hits(cpu, clean, v.armed, v.core, m) != Shown(v) + Stops(cpu, clean, v, k + 1, n + 1).value
    {
      HitsEndAtSignal(cpu, clean, v.armed, v.core, n, m);
    }
  }

  lemma ShownIsHit<S>(cpu: Cpu<S>, clean: Image, v: View<S>, n: nat)
    requires Ready(v)
    ensures |Hits(cpu, clean, v.armed, v.core, n + 1)| >= |Shown(v)|
  {
  }
}
