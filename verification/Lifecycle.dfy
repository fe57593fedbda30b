/** Queued breakpoints, runs and restarts. */
module Lifecycle {
  import opened Memory
  import opened Options
  import opened Machine
  import opened Debugger
  import T = Transparency
  import R = Refinement
  import Ideal
  import U = Unmistakable
  import BareTrace

  lemma AliveUnlessGone<S>(d: State<S>)
    ensures IsAlive(d) <==> !d.process.stop.Gone?
  {
    StatusTellsStop(d.process.stop);
  }

  // Between operations

  /** Before the first run nothing is placed; from then on nothing is pending. */
  predicate PendingXorPlaced<S>(d: State<S>) {
    && (!HasStarted(d) ==> d.placed == map[])
    && (HasStarted(d) ==> d.pending == [])
  }

  /** Everything a user can ask for. Loading happens above address zero. */
  datatype Operation<S> =
    | OnProgram(command: Command)
    | PlaceFunction(elfAddress: Addr, name: string)
    | DisableFunction(elfAddress: Addr)
    | RunProgram(child: Option<Child<S>>)

  /** `None`: the operation does not return, or aborts on `assert(isAlive())`. */
  function Perform<S>(cpu: Cpu<S>, d: State<S>, o: Operation<S>): Option<State<S>> {
    match o
    case OnProgram(c) => Debugger.Execute(cpu, d, c)
    case PlaceFunction(a, name) =>
      if HasStarted(d) && !IsAlive(d) then None else Some(PlaceAtFunction(d, a, name).0)
    case DisableFunction(a) =>
      if !IsAlive(d) then None else Some(DisableAtFunction(d, a).0)
    case RunProgram(child) => Some(Run(d, child))
  }

  function PerformAll<S>(cpu: Cpu<S>, d: State<S>, os: seq<Operation<S>>): Option<State<S>>
    decreases |os|
  {
    if os == [] then Some(d)
    else
      match Perform(cpu, d, os[0])
      case None => None
      case Some(d') => PerformAll(cpu, d', os[1..])
  }

  predicate LoadsAboveZero<S>(o: Operation<S>) {
    o.RunProgram? && o.child.Some? ==> o.child.value.base > 0
  }

  /** Placing on a started program never touches the queue it may be called from, the load address
      or the stop. */
  lemma PlaceAtFrame<S>(d: State<S>, address: Addr, name: string)
    requires HasStarted(d)
    ensures var d' := PlaceAt(d, address, name).0;
      && d'.base == d.base && d'.pending == d.pending
      && d'.process == d.process.(mem := d'.process.mem)
      && d.placed.Keys <= d'.placed.Keys <= d.placed.Keys + {address}
      && (forall a | a in d.placed :: d'.placed[a] == d.placed[a])
  {
  }

  lemma {:induction false} PlaceEachFrame<S>(d: State<S>, queue: seq<Entry>)
    requires HasStarted(d)
    ensures var d' := PlaceEach(d, queue).0;
      && d'.base == d.base && d'.pending == d.pending
      && d'.process == d.process.(mem := d'.process.mem)
      && (forall a | a in d.placed :: a in d'.placed && d'.placed[a] == d.placed[a])
    decreases |queue|
  {
    if queue != [] {
      var address := PendingAddress(d.base, queue[0].address);
      PlaceAtFrame(d, address, queue[0].name);
      PlaceEachFrame(PlaceAt(d, address, queue[0].name).0, queue[1..]);
    }
  }

  lemma {:induction false} OperationsKeepPendingXorPlaced<S>(cpu: Cpu<S>, d: State<S>, os: seq<Operation<S>>)
    requires PendingXorPlaced(d) && forall o | o in os :: LoadsAboveZero(o)
    requires PerformAll(cpu, d, os).Some?
    ensures PendingXorPlaced(PerformAll(cpu, d, os).value)
    decreases |os|
  {
    if os != [] {
      assert LoadsAboveZero(os[0]);
      match os[0] {
        case RunProgram(Some(c)) =>
          var d1 := if IsAlive(d) then Clear(d) else d;
          var d2 := d1.(process := Spawned(c), base := if d1.base > 0 then d1.base else c.base);
          PlaceEachFrame(d2, d2.pending);
        case _ =>
      }
      OperationsKeepPendingXorPlaced(cpu, Perform(cpu, d, os[0]).value, os[1..]);
    }
  }

  // Queueing first or starting first

  function PlaceFunctions<S>(d: State<S>, fs: seq<(Addr, string)>): State<S>
    decreases |fs|
  {
    if fs == [] then d
    else PlaceFunctions(PlaceAtFunction(d, fs[0].0, fs[0].1).0, fs[1..])
  }

  function Queued(pid: int, fs: seq<(Addr, string)>): seq<Entry> {
    seq(|fs|, i requires 0 <= i < |fs| => NewEntry(pid, fs[i].0, fs[i].1))
  }

  lemma {:induction false} QueueingAppends<S>(d: State<S>, fs: seq<(Addr, string)>)
    requires !HasStarted(d)
    ensures PlaceFunctions(d, fs) == d.(pending := d.pending + Queued(d.process.pid, fs))
    decreases |fs|
  {
    if fs == [] {
      assert d.pending + Queued(d.process.pid, fs) == d.pending;
    } else {
      var d1 := PlaceAtFunction(d, fs[0].0, fs[0].1).0;
      QueueingAppends(d1, fs[1..]);
      assert d1.pending + Queued(d.process.pid, fs[1..]) == d.pending + Queued(d.process.pid, fs);
    }
  }

  lemma {:induction false} PlaceEachAppends<S>(d: State<S>, first: seq<Entry>, second: seq<Entry>)
    ensures PlaceEach(d, first + second).0 == PlaceEach(PlaceEach(d, first).0, second).0
    decreases |first|
  {
    if first == [] {
      assert first + second == second;
    } else {
      var d1 := PlaceAt(d, PendingAddress(d.base, first[0].address), first[0].name).0;
      assert (first + second)[1..] == first[1..] + second;
      PlaceEachAppends(d1, first[1..], second);
    }
  }

  /** A queued function is placed where a direct request would place it exactly when its ELF value is
      below the load address. */
  lemma PendingAddressIsPhysical<S>(d: State<S>, elfAddress: Addr)
    requires HasStarted(d)
    ensures PendingAddress(d.base, elfAddress) == PhysicalAddress(d, elfAddress) <==> elfAddress < d.base
  {
  }

  /** Below the load address, and not placed at address zero, which only a direct request refuses. */
  predicate Relocatable(base: Addr, f: (Addr, string)) {
    f.0 < base && f.0 + base != ADDRESS_LIMIT
  }

  lemma {:induction false} PlacingQueueIsPlacingFunctions<S>(d: State<S>, pid: int, fs: seq<(Addr, string)>)
    requires HasStarted(d) && forall f | f in fs :: Relocatable(d.base, f)
    ensures PlaceEach(d, Queued(pid, fs)).0 == PlaceFunctions(d, fs)
    decreases |fs|
  {
    hide PlaceAt, PendingAddress;
    if fs != [] {
      assert Relocatable(d.base, fs[0]);
      var address := PhysicalAddress(d, fs[0].0);
      PendingAddressIsPhysical(d, fs[0].0);
      PlaceAtFrame(d, address, fs[0].1);
      assert Queued(pid, fs)[1..] == Queued(pid, fs[1..]);
      PlacingQueueIsPlacingFunctions(PlaceAt(d, address, fs[0].1).0, pid, fs[1..]);
    }
  }

  /** Queueing function breakpoints and then running, or running and then placing them: the same
      memory, the same map with the same first-given names, the same everything. */
  lemma QueueingCommutesWithRunning<S>(d: State<S>, fs: seq<(Addr, string)>, c: Child<S>)
    requires !HasStarted(d) && d.process.stop.Gone? && c.base > 0
    requires forall f | f in fs :: Relocatable(c.base, f)
    ensures Run(PlaceFunctions(d, fs), Some(c)) == PlaceFunctions(Run(d, Some(c)), fs)
  {
    var queue := Queued(d.process.pid, fs);
    var started := FirstStarted(d, c);
    QueueingAppends(d, fs);
    RunPlacesQueue(d, c);
    RunPlacesQueue(d.(pending := d.pending + queue), c);
    PlaceEachAppends(started, d.pending, queue);
    PlaceEachFrame(started, d.pending);
    PlacingQueueIsPlacingFunctions(PlaceEach(started, d.pending).0, d.process.pid, fs);
  }

  /** The state in which a first run places its queue, that queue taken away. */
  function FirstStarted<S>(d: State<S>, c: Child<S>): State<S> {
    d.(process := Spawned(c), base := c.base, pending := [])
  }

  lemma RunPlacesQueue<S>(d: State<S>, c: Child<S>)
    requires !HasStarted(d) && d.process.stop.Gone? && c.base > 0
    ensures Run(d, Some(c)) == PlaceEach(FirstStarted(d, c), d.pending).0
  {
    AliveUnlessGone(d);
    var started := FirstStarted(d, c);
    EachIgnoresQueue(started, d.pending, d.pending, []);
    assert started.(pending := d.pending) == d.(process := Spawned(c), base := c.base);
    assert started.(pending := []) == started;
  }

  /** Placing on a started program does not look at the queue field. */
  lemma {:induction false} EachIgnoresQueue<S>(d: State<S>, queue: seq<Entry>, p: seq<Entry>, q: seq<Entry>)
    requires HasStarted(d)
    ensures PlaceEach(d.(pending := p), queue).0.(pending := q) == PlaceEach(d.(pending := q), queue).0
    decreases |queue|
  {
    if queue != [] {
      var address := PendingAddress(d.base, queue[0].address);
      PlaceAtFrame(d.(pending := q), address, queue[0].name);
      EachIgnoresQueue(PlaceAt(d.(pending := q), address, queue[0].name).0, queue[1..], p, q);
    }
  }

  // Restarting

  lemma {:induction false} PlaceEachKeeps<S>(clean: Image, points: set<Addr>, d: State<S>, queue: seq<Entry>)
    requires T.Breakable(clean, points) && T.Inv(clean, points, d)
    requires forall e | e in queue :: PendingAddress(d.base, e.address) in points
    ensures T.Inv(clean, points, PlaceEach(d, queue).0)
    decreases |queue|
  {
    if queue != [] {
      assert queue[0] in queue;
      var address := PendingAddress(d.base, queue[0].address);
      T.PlaceKeeps(clean, points, d, address, queue[0].name);
      PlaceAtFrame(d, address, queue[0].name);
      PlaceEachKeeps(clean, points, PlaceAt(d, address, queue[0].name).0, queue[1..]);
    }
  }

  lemma SpawnedIsClean<S>(c: Child<S>, points: set<Addr>, d: State<S>)
    requires HasStarted(d) && d.placed == map[] && d.process == Spawned(c)
    ensures T.Inv(c.image, points, d)
  {
  }

  /** The state in which a run places its queue. */
  function Started<S>(d: State<S>, c: Child<S>): State<S> {
    var d1 := if IsAlive(d) then Clear(d) else d;
    d1.(process := Spawned(c), base := if d1.base > 0 then d1.base else c.base)
  }

  /** When a run starts afresh: exactly if the old process counts as alive, or nothing was placed and
      no other load address is remembered. Otherwise the map keeps the dead process's breakpoints,
      none of which is in the new one's memory, or the old load address is used for the new one. */
  lemma RunStartsAfreshIff<S>(d: State<S>, c: Child<S>, points: set<Addr>)
    requires PendingXorPlaced(d) && c.base > 0
    requires T.Breakable(c.image, points)
    requires forall a | a in d.placed :: d.placed[a].pid != c.pid
    requires forall e | e in d.pending :: PendingAddress(c.base, e.address) in points
    ensures T.Inv(c.image, points, Run(d, Some(c))) && Run(d, Some(c)).base == c.base
       <==> IsAlive(d) || (d.placed == map[] && (!HasStarted(d) || d.base == c.base))
  {
    var started := Started(d, c);
    var after := PlaceEach(started, started.pending).0;
    assert Run(d, Some(c)) == after.(pending := []);
    PlaceEachFrame(started, started.pending);
    if IsAlive(d) || d.placed == map[] {
      SpawnedIsClean(c, points, started);
      if started.base == c.base {
        PlaceEachKeeps(c.image, points, started, started.pending);
        assert T.Armed(after.(pending := [])) == T.Armed(after);
      }
    } else {
      var a :| a in d.placed;
      assert after.placed[a].pid != c.pid;
    }
  }

  lemma RunIsShownAtStart<S>(d: State<S>, c: Child<S>)
    requires c.base > 0
    ensures T.See(Run(d, Some(c))).core == c.core && Run(d, Some(c)).process.stop == ExecStop
  {
    var started := Started(d, c);
    PlaceEachFrame(started, started.pending);
  }

  /** What is shown after a run of `c` comes from its own bare run from the entry. */
  ghost predicate Faithful<S>(cpu: Cpu<S>, c: Child<S>, points: set<Addr>, after: State<S>) {
    && R.Session(cpu, c.image, points, after)
    && BareTrace.Traced(cpu, c.image, c.core, T.See(after))
    && BareTrace.SignalIsRaised(cpu, c.image, T.See(after))
  }

  /** The commands given after one run, if none is misled. */
  lemma UnmisledWholeRun<S>(cpu: Cpu<S>, d: State<S>, c: Child<S>, points: set<Addr>, cs: seq<Command>)
    requires PendingXorPlaced(d) && c.base > 0 && (IsAlive(d) || !HasStarted(d))
    requires forall a | a in d.placed :: d.placed[a].pid != c.pid
    requires forall e | e in d.pending :: PendingAddress(c.base, e.address) in points
    requires DecodesLocally(cpu) && T.Breakable(c.image, points) && Friendly(cpu, c.image, points, c.core)
    requires PlacesOnly(points, cs) && Ideal.NeverMisled(cpu, c.image, T.See(Run(d, Some(c))), cs)
    ensures var after := ExecuteAll(cpu, Run(d, Some(c)), cs);
      after.Some? ==> Faithful(cpu, c, points, after.value)
  {
    RunStartsAfreshIff(d, c, points);
    RunIsShownAtStart(d, c);
    R.UnmisledRunRefines(cpu, c.image, points, Run(d, Some(c)), cs);
  }

  /** From the run to any later prompt. For a program that at its entry does not stand, and in its bare run
      never comes to stand, right behind a point: queued breakpoints placed and whatever the commands, what is
      shown comes from its own bare run from the entry, states, exit codes and signals. */
  lemma WholeRunIsTransparent<S>(cpu: Cpu<S>, d: State<S>, c: Child<S>, points: set<Addr>, cs: seq<Command>)
    requires PendingXorPlaced(d) && c.base > 0 && (IsAlive(d) || !HasStarted(d))
    requires forall a | a in d.placed :: d.placed[a].pid != c.pid
    requires forall e | e in d.pending :: PendingAddress(c.base, e.address) in points
    requires DecodesLocally(cpu) && T.Breakable(c.image, points) && Friendly(cpu, c.image, points, c.core)
    requires Before(c.core.ip) !in U.Placeable(c.image, points) && U.NoneBehind(cpu, c.image, points, c.core)
    requires PlacesOnly(points, cs)
    ensures var after := ExecuteAll(cpu, Run(d, Some(c)), cs);
      after.Some? ==> Faithful(cpu, c, points, after.value)
  {
    RunStartsAfreshIff(d, c, points);
    RunIsShownAtStart(d, c);
    R.AlwaysUnmisled(cpu, c.image, points, Run(d, Some(c)), cs);
    UnmisledWholeRun(cpu, d, c, points, cs);
  }
}
