/** What the requests to place and disable breakpoints do and answer, in terms of memory bytes, map and queue. */
module Requests {
  import opened Memory
  import opened Options
  import opened Machine
  import opened Debugger
  import T = Transparency
  import L = Lifecycle
  import Ideal

  // Placing

  /** Eight bytes can be accessed from `a` in a process that is there. */
  predicate Reachable<S>(p: Process<S>, a: Addr) {
    && !p.stop.Gone?
    && a + 8 <= 0x1_0000_0000_0000_0000
    && forall x: Addr | a <= x < a + 8 :: x in p.mem
  }

  /** The request joined the end of the queue, not yet enabled, and nothing else happened. */
  ghost predicate IsQueued<S>(d: State<S>, after: State<S>, a: Addr, name: string) {
    && |after.pending| == |d.pending| + 1
    && after.pending[..|d.pending|] == d.pending
    && after.pending[|d.pending|] == Entry(false, d.process.pid, a, [0, 0, 0, 0, 0, 0, 0, 0], name)
    && after.process == d.process && after.placed == d.placed && after.base == d.base
  }

  /** Memory has an INT3 (0xCC) at `a` and is otherwise as it was. The map has the entry it had at `a`, or else
      a new one that saves the eight bytes found there. Nothing else happened. */
  ghost predicate IsTrapped<S>(d: State<S>, after: State<S>, a: Addr, name: string)
    requires Reachable(d.process, a)
  {
    && after.process == d.process.(mem := d.process.mem[a := 0xCC])
    && after.base == d.base && after.pending == d.pending
    && after.placed.Keys == d.placed.Keys + {a}
    && (forall b | b in d.placed :: after.placed[b] == d.placed[b])
    && (a !in d.placed ==>
          && after.placed[a].enabled && after.placed[a].pid == d.process.pid
          && after.placed[a].address == a && after.placed[a].name == name
          && forall x: Addr | a <= x < a + 8 :: after.placed[a].original[x - a] == d.process.mem[x])
  }

  lemma ReachableIsAccessible<S>(p: Process<S>, a: Addr)
    ensures Accessible(p, p.pid, a) <==> Reachable(p, a)
  {
  }

  /** A request to place a breakpoint, in every state. Before the first run it is queued and the answer is
      true. Afterwards the answer is true exactly where eight bytes can be accessed; the address is trapped
      then, and otherwise nothing happens. */
  lemma PlaceAnswers<S>(d: State<S>, a: Addr, name: string)
    ensures var (after, ok) := PlaceAt(d, a, name);
      && (d.base == 0 ==> ok && IsQueued(d, after, a, name))
      && (d.base > 0 ==>
            && (ok <==> Reachable(d.process, a))
            && (ok ==> IsTrapped(d, after, a, name))
            && (!ok ==> after == d))
  {
    hide Poke, Peek, WithTrap, Mapped;
    ReachableIsAccessible(d.process, a);
    if d.base > 0 && Reachable(d.process, a) {
      ArmPatchesOneByte(d.process.mem, a);
      SavedIsThere(d.process.mem, a);
    }
  }

  lemma SavedIsThere(mem: Image, a: Addr)
    requires Mapped(mem, a)
    ensures forall x: Addr | a <= x < a + 8 :: x in mem && Peek(mem, a)[x - a] == mem[x]
  {
  }

  /** The same for a function by its value in the ELF file. Before the first run the value itself is queued.
      Afterwards load address and value are added modulo 2^64, and the sum zero is refused. */
  lemma PlaceFunctionAnswers<S>(d: State<S>, value: Addr, name: string)
    ensures var (after, ok) := PlaceAtFunction(d, value, name);
      var sum: Addr := (d.base + value) % 0x1_0000_0000_0000_0000;
      && (d.base == 0 ==> ok && IsQueued(d, after, value, name))
      && (d.base > 0 ==>
            && (ok <==> sum != 0 && Reachable(d.process, sum))
            && (ok ==> IsTrapped(d, after, sum, name))
            && (!ok ==> after == d))
  {
    hide PlaceAt, IsQueued, IsTrapped, Reachable;
    PlaceAnswers(d, value, name);
    PlaceAnswers(d, (d.base + value) % 0x1_0000_0000_0000_0000, name);
  }

  // Disabling

  /** A request to disable, in every state: true exactly when the address was ever placed. If the entry's word
      can be written back, that is all that happens; otherwise nothing does. */
  lemma DisableAnswers<S>(d: State<S>, a: Addr)
    ensures var (after, ok) := DisableAt(d, a);
      && (ok <==> a in d.placed)
      && if ok && d.placed[a].pid == d.process.pid && Reachable(d.process, d.placed[a].address) then
           var at, saved := d.placed[a].address, d.placed[a].original;
           && after == d.(process := d.process.(mem := after.process.mem))
           && after.process.mem.Keys == d.process.mem.Keys
           && forall x | x in d.process.mem ::
                after.process.mem[x] == if at <= x < at + 8 then saved[x - at] else d.process.mem[x]
         else after == d
  {
    if a in d.placed {
      ReachableIsAccessible(d.process, d.placed[a].address);
    }
  }

  /** Disabling a function, by its value in the ELF file, on a session: the answer is true exactly when the sum
      of load address and value modulo 2^64 is not zero and was ever placed. Then that address alone is
      disarmed, its byte being the program's own again; the map and everything else stay. */
  lemma DisableFunctionAnswers<S>(clean: Image, points: set<Addr>, d: State<S>, value: Addr)
    requires T.Breakable(clean, points) && T.Inv(clean, points, d)
    ensures var (after, ok) := DisableAtFunction(d, value);
      var sum: Addr := (d.base + value) % 0x1_0000_0000_0000_0000;
      && (ok <==> sum != 0 && sum in d.placed)
      && T.Inv(clean, points, after)
      && T.See(after) == (if sum == 0 then T.See(d) else Ideal.Disable(T.See(d), sum))
      && (ok && !d.process.stop.Gone? ==>
            && T.Armed(after) == T.Armed(d) - {sum}
            && sum in clean
            && after == d.(process := d.process.(mem := d.process.mem[sum := clean[sum]])))
      && (!ok || d.process.stop.Gone? ==> after == d)
  {
    var sum: Addr := (d.base + value) % 0x1_0000_0000_0000_0000;
    hide T.Inv, T.Breakable, T.Armed, T.See, DisableAt, DisableAtFunction, Ideal.Disable;
    DisableFunctionIsDisable(d, value);
    T.DisableKeeps(clean, points, d, sum);
    DisableEffect(clean, points, d, sum);
  }

  lemma DisableFunctionIsDisable<S>(d: State<S>, value: Addr)
    ensures var sum: Addr := (d.base + value) % 0x1_0000_0000_0000_0000;
      DisableAtFunction(d, value) == if sum == 0 then (d, false) else DisableAt(d, sum)
  {
    hide DisableAt;
  }

  lemma DisableEffect<S>(clean: Image, points: set<Addr>, d: State<S>, a: Addr)
    requires T.Breakable(clean, points) && T.Inv(clean, points, d)
    ensures var (after, ok) := DisableAt(d, a);
      && (ok && !d.process.stop.Gone? ==>
            && T.Armed(after) == T.Armed(d) - {a}
            && a in clean
            && after == d.(process := d.process.(mem := d.process.mem[a := clean[a]])))
      && (!ok || d.process.stop.Gone? ==> after == d)
  {
    if a in d.placed && !d.process.stop.Gone? {
      assert T.ValidEntry(clean, d.process.pid, a, d.placed[a]);
      hide Disable;
      T.DisableDisarms(clean, points, T.Armed(d), d.process, a, d.placed[a]);
      T.ArmedOfOverlay(clean, points, T.Armed(d) - {a}, DisableAt(d, a).0);
      assert Overlay(clean, T.Armed(d) - {a}) == Overlay(clean, T.Armed(d))[a := clean[a]];
    }
  }

  /** Placing a function and disabling it again, wherever its sum with the load address is a point: the
      placement's address is disarmed and no other, the answer is true, and the map keeps the entry. If it was
      not armed before, memory is what it was. */
  lemma DisableUndoesPlacingFunction<S>(clean: Image, points: set<Addr>, d: State<S>, value: Addr, name: string)
    requires T.Breakable(clean, points) && T.Inv(clean, points, d)
    requires (d.base + value) % 0x1_0000_0000_0000_0000 in points
    requires PlaceAtFunction(d, value, name).1
    ensures var sum: Addr := (d.base + value) % 0x1_0000_0000_0000_0000;
      var placed := PlaceAtFunction(d, value, name).0;
      var (after, ok) := DisableAtFunction(placed, value);
      && ok
      && T.Armed(placed) == T.Armed(d) + {sum}
      && T.Armed(after) == T.Armed(d) - {sum}
      && after.placed == placed.placed && sum in after.placed
      && T.Inv(clean, points, after)
      && (sum !in T.Armed(d) ==> after.process == d.process)
  {
    hide T.Inv, T.Breakable, PlaceAtFunction, DisableAtFunction, PlaceAt, DisableAt, T.Armed;
    var sum: Addr := (d.base + value) % 0x1_0000_0000_0000_0000;
    InvIsStarted(clean, points, d);
    PlaceFunctionIsPlacement(d, value, name);
    DisableUndoesPlacing(clean, points, d, sum, name);
    DisableFunctionIsDisable(PlaceAt(d, sum, name).0, value);
  }

  /** The same at an address. */
  lemma DisableUndoesPlacing<S>(clean: Image, points: set<Addr>, d: State<S>, a: Addr, name: string)
    requires T.Breakable(clean, points) && T.Inv(clean, points, d) && a in points
    requires PlaceAt(d, a, name).1
    ensures var placed := PlaceAt(d, a, name).0;
      var (after, ok) := DisableAt(placed, a);
      && ok && placed.base == d.base
      && T.Armed(placed) == T.Armed(d) + {a}
      && T.Armed(after) == T.Armed(d) - {a}
      && after.placed == placed.placed && a in after.placed
      && T.Inv(clean, points, after)
      && (a !in T.Armed(d) ==> after.process == d.process)
  {
    hide T.Inv, T.Breakable, PlaceAt, DisableAt, T.Armed, T.See, Ideal.Disable;
    var placed := PlaceAt(d, a, name).0;
    PlacePoint(clean, points, d, a, name);
    T.DisableKeeps(clean, points, placed, a);
    DisableEffect(clean, points, placed, a);
    assert T.Armed(d) + {a} - {a} == T.Armed(d) - {a};
    if a !in T.Armed(d) {
      assert T.Armed(d) - {a} == T.Armed(d);
      SameMemory(clean, points, d, placed, DisableAt(placed, a).0);
    }
  }

  lemma InvIsStarted<S>(clean: Image, points: set<Addr>, d: State<S>)
    requires T.Inv(clean, points, d)
    ensures d.base > 0
  {
  }

  lemma PlaceFunctionIsPlacement<S>(d: State<S>, value: Addr, name: string)
    requires d.base > 0 && PlaceAtFunction(d, value, name).1
    ensures var sum: Addr := (d.base + value) % 0x1_0000_0000_0000_0000;
      sum != 0 && PlaceAtFunction(d, value, name) == PlaceAt(d, sum, name)
  {
    hide PlaceAt;
  }

  lemma PlacePoint<S>(clean: Image, points: set<Addr>, d: State<S>, a: Addr, name: string)
    requires T.Breakable(clean, points) && T.Inv(clean, points, d) && a in points
    requires PlaceAt(d, a, name).1
    ensures var placed := PlaceAt(d, a, name).0;
      && T.Inv(clean, points, placed) && T.Armed(placed) == T.Armed(d) + {a} && a in placed.placed
      && !placed.process.stop.Gone? && placed.base == d.base
      && placed.process == d.process.(mem := placed.process.mem)
  {
    T.PlaceKeeps(clean, points, d, a, name);
    hide T.Inv, T.Breakable, PlaceAt;
    T.PlaceEffect(clean, points, d, a, name);
  }

  /** Memory is decided by what is armed. */
  lemma SameMemory<S>(clean: Image, points: set<Addr>, d: State<S>, placed: State<S>, after: State<S>)
    requires T.Inv(clean, points, d) && T.Inv(clean, points, after) && T.Armed(d) == T.Armed(after)
    requires placed.process == d.process.(mem := placed.process.mem)
    requires after.process == placed.process.(mem := after.process.mem)
    ensures after.process == d.process
  {
  }

  // The queue

  /** Where a queued breakpoint goes: values below the load address are added to it. */
  function Target(base: Addr, address: Addr): Addr {
    if address < base then (base + address) % 0x1_0000_0000_0000_0000 else address
  }

  predicate IsPlaced<S>(p: Process<S>, base: Addr, queue: seq<Entry>, i: nat)
    requires i < |queue|
  {
    Reachable(p, Target(base, queue[i].address))
  }

  ghost function Traps<S>(p: Process<S>, base: Addr, queue: seq<Entry>): set<Addr> {
    set i: nat | i < |queue| && IsPlaced(p, base, queue, i) :: Target(base, queue[i].address)
  }

  lemma TrapsOfNext<S>(p: Process<S>, base: Addr, queue: seq<Entry>)
    requires queue != []
    ensures Traps(p, base, queue)
         == (if IsPlaced(p, base, queue, 0) then {Target(base, queue[0].address)} else {}) + Traps(p, base, queue[1..])
  {
    hide Reachable, Target;
    forall a
      ensures a in Traps(p, base, queue) <==>
        (IsPlaced(p, base, queue, 0) && a == Target(base, queue[0].address)) || a in Traps(p, base, queue[1..])
    {
      if a in Traps(p, base, queue) {
        var i: nat :| i < |queue| && IsPlaced(p, base, queue, i) && a == Target(base, queue[i].address);
        assert i > 0 ==> queue[1..][i - 1] == queue[i] && IsPlaced(p, base, queue[1..], i - 1);
      }
      if a in Traps(p, base, queue[1..]) {
        var i: nat :| i < |queue| - 1 && IsPlaced(p, base, queue[1..], i) && a == Target(base, queue[1..][i].address);
        assert IsPlaced(p, base, queue, i + 1);
      }
    }
  }

  /** The word at `a`, with INT3 at the addresses already trapped. */
  ghost predicate Saves(saved: Word, mem: Image, trapped: set<Addr>, a: Addr) {
    forall x: Addr | a <= x < a + 8 && x in mem :: saved[x - a] == if x in trapped then 0xCC else mem[x]
  }

  /** An enabled entry at `a` with that name, whose saved word has the traps placed before. */
  ghost predicate IsEntryOf<S>(e: Entry, d: State<S>, trapped: set<Addr>, a: Addr, name: string) {
    e == Entry(true, d.process.pid, a, e.original, name) && Saves(e.original, d.process.mem, trapped, a)
  }

  /** The entry at an address is the one that was there, or that of the first breakpoint placed there. */
  ghost predicate FirstWins<S>(d: State<S>, queue: seq<Entry>, after: State<S>) {
    && (forall a | a in d.placed :: a in after.placed && after.placed[a] == d.placed[a])
    && forall i: nat | i < |queue| && IsPlaced(d.process, d.base, queue, i)
         && Target(d.base, queue[i].address) !in d.placed.Keys + Traps(d.process, d.base, queue[..i]) ::
         var a := Target(d.base, queue[i].address);
         && a in after.placed
         && IsEntryOf(after.placed[a], d, Traps(d.process, d.base, queue[..i]), a, queue[i].name)
  }

  /** One placement of the queue, with what `IsPlaced` says of the others unchanged. */
  lemma PlaceOne<S>(d: State<S>, queue: seq<Entry>)
    requires d.base > 0 && queue != []
    ensures var (d1, ok) := PlaceAt(d, PendingAddress(d.base, queue[0].address), queue[0].name);
      var a := Target(d.base, queue[0].address);
      && (ok <==> IsPlaced(d.process, d.base, queue, 0))
      && d1.process == d.process.(mem := Overlay(d.process.mem, if ok then {a} else {}))
      && d1.base == d.base && d1.pending == d.pending
      && d1.placed.Keys == d.placed.Keys + (if ok then {a} else {})
      && (forall b | b in d.placed :: d1.placed[b] == d.placed[b])
      && (ok && a !in d.placed ==> IsEntryOf(d1.placed[a], d, {}, a, queue[0].name))
  {
    hide PlaceAt, Reachable;
    PlaceAnswers(d, Target(d.base, queue[0].address), queue[0].name);
    if IsPlaced(d.process, d.base, queue, 0) {
      ReachableIsMapped(d.process, Target(d.base, queue[0].address));
    }
  }

  lemma ReachableIsMapped<S>(p: Process<S>, a: Addr)
    requires Reachable(p, a)
    ensures a in p.mem
  {
  }

  /** Reachability depends on which addresses are mapped, not on what they hold. */
  lemma SameReachable<S>(p: Process<S>, armed: set<Addr>, a: Addr)
    ensures Reachable(p.(mem := Overlay(p.mem, armed)), a) <==> Reachable(p, a)
  {
    assert Overlay(p.mem, armed).Keys == p.mem.Keys;
  }

  lemma SamePlaced<S>(p: Process<S>, armed: set<Addr>, base: Addr, queue: seq<Entry>, i: nat)
    requires 0 < i < |queue|
    ensures IsPlaced(p.(mem := Overlay(p.mem, armed)), base, queue[1..], i - 1) <==> IsPlaced(p, base, queue, i)
  {
    hide Reachable;
    assert queue[1..][i - 1] == queue[i];
    SameReachable(p, armed, Target(base, queue[i].address));
  }

  lemma OverlayTwice(mem: Image, armed: set<Addr>, more: set<Addr>)
    ensures Overlay(Overlay(mem, armed), more) == Overlay(mem, armed + more)
  {
  }

  lemma SameTraps<S>(p: Process<S>, armed: set<Addr>, base: Addr, queue: seq<Entry>)
    ensures Traps(p.(mem := Overlay(p.mem, armed)), base, queue) == Traps(p, base, queue)
  {
    hide Reachable, Target;
    forall i: nat | i < |queue|
      ensures IsPlaced(p.(mem := Overlay(p.mem, armed)), base, queue, i) <==> IsPlaced(p, base, queue, i)
    {
      SameReachable(p, armed, Target(base, queue[i].address));
    }
  }

  /** Placing a queue on a started program: one answer for each breakpoint, in order, true exactly where eight
      bytes can be accessed. Memory has an INT3 at exactly those targets and is otherwise as it was, and the
      map has them besides what it had. */
  lemma {:induction false} QueueAnswers<S>(d: State<S>, queue: seq<Entry>)
    requires d.base > 0
    ensures var (after, status) := PlaceEach(d, queue);
      && |status| == |queue|
      && (forall i | 0 <= i < |queue| :: status[i] == (queue[i], IsPlaced(d.process, d.base, queue, i)))
      && after.process == d.process.(mem := Overlay(d.process.mem, Traps(d.process, d.base, queue)))
      && after.placed.Keys == d.placed.Keys + Traps(d.process, d.base, queue)
      && after.base == d.base && after.pending == d.pending
    decreases |queue|
  {
    hide PlaceAt, IsPlaced, Target, PendingAddress, Traps, Overlay;
    if queue == [] {
      NoTraps(d.process, d.base);
      NoOverlay(d.process.mem);
    } else {
      PlaceOne(d, queue);
      var (d1, ok) := PlaceAt(d, PendingAddress(d.base, queue[0].address), queue[0].name);
      var armed := if ok then {Target(d.base, queue[0].address)} else {};
      QueueAnswers(d1, queue[1..]);
      TrapsOfNext(d.process, d.base, queue);
      SameTraps(d.process, armed, d.base, queue[1..]);
      var (after, status) := PlaceEach(d, queue);
      var rest := Traps(d.process, d.base, queue[1..]);
      OverlayTwice(d.process.mem, armed, rest);
      forall i | 0 <= i < |queue|
        ensures status[i] == (queue[i], IsPlaced(d.process, d.base, queue, i))
      {
        if i > 0 {
          SamePlaced(d.process, armed, d.base, queue, i);
        }
      }
    }
  }

  lemma NoOverlay(mem: Image)
    ensures Overlay(mem, {}) == mem
  {
  }

  lemma NoTraps<S>(p: Process<S>, base: Addr)
    ensures Traps(p, base, []) == {}
  {
  }

  lemma EntryAfterOne<S>(e: Entry, d: State<S>, d1: State<S>, armed: set<Addr>, rest: set<Addr>, a: Addr, name: string)
    requires d1.process == d.process.(mem := Overlay(d.process.mem, armed))
    requires IsEntryOf(e, d1, rest, a, name)
    ensures IsEntryOf(e, d, armed + rest, a, name)
  {
  }

  lemma {:induction false} QueueKeepsFirst<S>(d: State<S>, queue: seq<Entry>)
    requires d.base > 0
    ensures FirstWins(d, queue, PlaceEach(d, queue).0)
    decreases |queue|
  {
    hide PlaceAt, Reachable, Target, PendingAddress, Traps, IsEntryOf;
    if queue != [] {
      PlaceOne(d, queue);
      var (d1, ok) := PlaceAt(d, PendingAddress(d.base, queue[0].address), queue[0].name);
      var armed := if ok then {Target(d.base, queue[0].address)} else {};
      var after := PlaceEach(d, queue).0;
      QueueKeepsFirst(d1, queue[1..]);
      forall i: nat | i < |queue| && IsPlaced(d.process, d.base, queue, i)
        && Target(d.base, queue[i].address) !in d.placed.Keys + Traps(d.process, d.base, queue[..i])
        ensures var a := Target(d.base, queue[i].address);
          && a in after.placed
          && IsEntryOf(after.placed[a], d, Traps(d.process, d.base, queue[..i]), a, queue[i].name)
      {
        if i == 0 {
          NoTraps(d.process, d.base);
          assert queue[..0] == [];
        } else {
          SamePlaced(d.process, armed, d.base, queue, i);
          assert queue[..i][1..] == queue[1..][..i - 1];
          TrapsOfNext(d.process, d.base, queue[..i]);
          SameTraps(d.process, armed, d.base, queue[1..][..i - 1]);
          var rest := Traps(d.process, d.base, queue[1..][..i - 1]);
          EntryAfterOne(after.placed[Target(d.base, queue[i].address)], d, d1, armed, rest,
                        Target(d.base, queue[i].address), queue[i].name);
        }
      }
    }
  }

  /** placeEveryPendingBreakpoints in these terms, the queue being empty afterwards. */
  lemma PendingAnswers<S>(d: State<S>)
    requires d.base > 0
    ensures var (after, status) := PlacePending(d);
      && |status| == |d.pending|
      && (forall i | 0 <= i < |d.pending| :: status[i] == (d.pending[i], IsPlaced(d.process, d.base, d.pending, i)))
      && after.process == d.process.(mem := Overlay(d.process.mem, Traps(d.process, d.base, d.pending)))
      && after.placed.Keys == d.placed.Keys + Traps(d.process, d.base, d.pending)
      && FirstWins(d, d.pending, after)
      && after.base == d.base && after.pending == []
  {
    hide PlaceEach, Reachable, Target, Traps;
    QueueAnswers(d, d.pending);
    QueueKeepsFirst(d, d.pending);
  }

  // Runs that fail

  /** A run whose fork fails keeps the queue, gives up what a live process had, and is forgotten by the
      next run. */
  lemma FailedRunIsForgotten<S>(d: State<S>, c: Child<S>)
    ensures Run(d, None).pending == d.pending && Run(d, None).process.pid == -1
    ensures IsAlive(d) ==> Run(d, None).placed == map[] && Run(d, None).base == 0
    ensures !IsAlive(d) ==> Run(d, None).placed == d.placed && Run(d, None).base == d.base
    ensures Run(Run(d, None), Some(c)) == Run(d, Some(c))
  {
    hide PlacePending;
    L.AliveUnlessGone(d);
    L.AliveUnlessGone(Run(d, None));
  }

  // The breakpoint object

  /** Enabling fails exactly when the word cannot be accessed, and then changes nothing but the saved word,
      which is -1; disabling fails then too, which clears the flag. Otherwise the flag is set, and disabling
      restores the process whatever its memory held. */
  lemma DisableUndoesEnable<S>(p: Process<S>, e: Entry)
    requires e.pid == p.pid
    ensures var (q, f, ok) := Enable(p, e);
      && (ok <==> Reachable(p, e.address))
      && (ok ==> f == e.(enabled := true, original := f.original) && Disable(q, f) == (p, f))
      && (ok ==> q == p.(mem := p.mem[e.address := 0xCC]))
      && (!ok ==> q == p && f == e.(original := [0xFF, 0xFF, 0xFF, 0xFF, 0xFF, 0xFF, 0xFF, 0xFF]))
      && (!ok ==> Disable(q, f) == (p, f.(enabled := false)))
  {
    hide Poke, Peek, WithTrap, Mapped;
    ReachableIsAccessible(p, e.address);
    if Reachable(p, e.address) {
      ArmPatchesOneByte(p.mem, e.address);
      RestoreUndoesArm(p.mem, e.address);
    }
  }

  lemma RestoreUndoesArm(mem: Image, a: Addr)
    requires Mapped(mem, a)
    ensures Mapped(mem[a := INT3], a)
    ensures Poke(mem[a := INT3], a, Peek(mem, a)) == mem
  {
  }
}
