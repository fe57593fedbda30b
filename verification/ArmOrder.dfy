/** Arming any `Breakpoint` objects, overlapping or repeated, and disabling them in any order: when
    memory is restored. */
module ArmOrder {
  import opened Memory

  ghost predicate AllMapped(image: Image, addrs: seq<Addr>) {
    forall i | 0 <= i < |addrs| :: Mapped(image, addrs[i])
  }

  predicate InRange(order: seq<nat>, n: nat) {
    forall k | 0 <= k < |order| :: order[k] < n
  }

  predicate HasAll(order: seq<nat>, n: nat) {
    forall i: nat | i < n :: i in order
  }

  /** Memory after the first `n` objects are enabled in turn. */
  function ArmFirst(image: Image, addrs: seq<Addr>, n: nat): (r: Image)
    requires AllMapped(image, addrs) && n <= |addrs|
    ensures r.Keys == image.Keys
  {
    if n == 0 then image
    else
      var before := ArmFirst(image, addrs, n - 1);
      assert Mapped(image, addrs[n - 1]);
      Arm(before, addrs[n - 1])
  }

  /** The words the objects saved, each when it was enabled. */
  function SavedWords(image: Image, addrs: seq<Addr>): (words: seq<Word>)
    requires AllMapped(image, addrs)
    ensures |words| == |addrs|
    ensures forall i | 0 <= i < |addrs| ::
      Mapped(ArmFirst(image, addrs, i), addrs[i]) && words[i] == Peek(ArmFirst(image, addrs, i), addrs[i])
  {
    seq(|addrs|, i requires 0 <= i < |addrs| && AllMapped(image, addrs) =>
      assert Mapped(image, addrs[i]);
      Peek(ArmFirst(image, addrs, i), addrs[i]))
  }

  /** Memory after disabling the objects in the given order. */
  function DisableAll(image: Image, addrs: seq<Addr>, words: seq<Word>, order: seq<nat>): Image
    requires |words| == |addrs| && InRange(order, |addrs|)
    decreases |order|
  {
    if order == [] then image
    else DisableAll(Poke(image, addrs[order[0]], words[order[0]]), addrs, words, order[1..])
  }

  function ArmAndDisable(image: Image, addrs: seq<Addr>, order: seq<nat>): Image
    requires AllMapped(image, addrs) && InRange(order, |addrs|)
  {
    DisableAll(ArmFirst(image, addrs, |addrs|), addrs, SavedWords(image, addrs), order)
  }

  /** Object `i`'s word covers `x`. */
  predicate Covers(addrs: seq<Addr>, i: nat, x: int)
    requires i < |addrs|
  {
    addrs[i] as int <= x < addrs[i] as int + 8
  }

  /** The last object to be disabled among those whose word covers `x`; `none` if there is none. */
  function LastDisabled(addrs: seq<Addr>, order: seq<nat>, x: int, none: int): int
    requires InRange(order, |addrs|)
    decreases |order|
  {
    if order == [] then none
    else LastDisabled(addrs, order[1..], x, if Covers(addrs, order[0], x) then order[0] else none)
  }

  /** The addresses of the first `n` objects. */
  function Taken(addrs: seq<Addr>, n: nat): set<Addr>
    requires n <= |addrs|
  {
    if n == 0 then {} else Taken(addrs, n - 1) + {addrs[n - 1]}
  }

  lemma {:induction false} TakenHas(addrs: seq<Addr>, n: nat, x: Addr)
    requires n <= |addrs|
    ensures x in Taken(addrs, n) <==> x in addrs[..n]
    decreases n
  {
    if n > 0 {
      TakenHas(addrs, n - 1, x);
      assert addrs[..n] == addrs[..n - 1] + [addrs[n - 1]];
    }
  }

  lemma {:induction false} ArmFirstTraps(image: Image, addrs: seq<Addr>, n: nat)
    requires AllMapped(image, addrs) && n <= |addrs|
    ensures ArmFirst(image, addrs, n) == Overlay(image, Taken(addrs, n))
    decreases n
  {
    hide Arm;
    if n == 0 {
      assert Overlay(image, Taken(addrs, n)) == image;
    } else {
      ArmFirstTraps(image, addrs, n - 1);
      assert Mapped(image, addrs[n - 1]);
      ArmOverlay(image, Taken(addrs, n - 1), addrs[n - 1]);
    }
  }

  /** A saved byte is the clean one unless an object armed earlier sits on it. */
  lemma SavedByte(image: Image, addrs: seq<Addr>, i: nat, x: Addr)
    requires AllMapped(image, addrs) && i < |addrs| && Covers(addrs, i, x)
    ensures x in image
    ensures SavedWords(image, addrs)[i][x - addrs[i]] == if x in addrs[..i] then INT3 else image[x]
  {
    hide Arm, ArmFirst;
    assert Mapped(image, addrs[i]);
    ArmFirstTraps(image, addrs, i);
    TakenHas(addrs, i, x);
    var words := SavedWords(image, addrs);
    assert words[i] == Peek(Overlay(image, Taken(addrs, i)), addrs[i]);
  }

  /** The last word written over a byte decides it. */
  lemma {:induction false} DisabledByte(image: Image, addrs: seq<Addr>, words: seq<Word>, order: seq<nat>,
                                        x: Addr, none: int)
    requires |words| == |addrs| && InRange(order, |addrs|)
    requires x in image
    requires -1 <= none < |addrs|
    requires none >= 0 ==> Covers(addrs, none, x) && image[x] == words[none][x - addrs[none]]
    ensures var after := DisableAll(image, addrs, words, order);
      var last := LastDisabled(addrs, order, x, none);
      && after.Keys == image.Keys
      && -1 <= last < |addrs|
      && (none >= 0 ==> last >= 0)
      && (last == -1 ==> after[x] == image[x])
      && (last >= 0 ==> Covers(addrs, last, x) && after[x] == words[last][x - addrs[last]])
    decreases |order|
  {
    if order != [] {
      var i := order[0];
      DisabledByte(Poke(image, addrs[i], words[i]), addrs, words, order[1..], x,
                   if Covers(addrs, i, x) then i else none);
    }
  }

  lemma {:induction false} SomeoneCovers(addrs: seq<Addr>, order: seq<nat>, i: nat, x: int, none: int)
    requires InRange(order, |addrs|) && i < |addrs| && Covers(addrs, i, x)
    requires i in order || none >= 0
    ensures LastDisabled(addrs, order, x, none) >= 0
    decreases |order|
  {
    if order != [] {
      SomeoneCovers(addrs, order[1..], i, x, if Covers(addrs, order[0], x) then order[0] else none);
    }
  }

  /** The condition under which disabling in `order` restores memory: on every object's address that
      was not an INT3 to begin with, the last object disabled over it was armed no later than it. */
  ghost predicate RestoringOrder(image: Image, addrs: seq<Addr>, order: seq<nat>)
    requires AllMapped(image, addrs) && InRange(order, |addrs|)
  {
    forall i | 0 <= i < |addrs| && addrs[i] in image && image[addrs[i]] != INT3 ::
      LastDisabled(addrs, order, addrs[i], -1) <= i
  }

  lemma RestoredByte(image: Image, addrs: seq<Addr>, order: seq<nat>, x: Addr)
    requires AllMapped(image, addrs) && InRange(order, |addrs|)
    requires HasAll(order, |addrs|) && x in image
    ensures var after := ArmAndDisable(image, addrs, order);
      var last := LastDisabled(addrs, order, x, -1);
      && after.Keys == image.Keys
      && last < |addrs|
      && (after[x] == image[x] <==>
            last < 0 || image[x] == INT3 || x !in addrs[..last])
  {
    hide Arm, ArmFirst, SavedWords, DisableAll;
    var last := LastDisabled(addrs, order, x, -1);
    DisabledByte(ArmFirst(image, addrs, |addrs|), addrs, SavedWords(image, addrs), order, x, -1);
    if last >= 0 {
      SavedByte(image, addrs, last, x);
    } else {
      ArmFirstTraps(image, addrs, |addrs|);
      UncoveredIsNotArmed(addrs, order, x);
    }
  }

  lemma UncoveredIsNotArmed(addrs: seq<Addr>, order: seq<nat>, x: Addr)
    requires InRange(order, |addrs|) && HasAll(order, |addrs|)
    requires LastDisabled(addrs, order, x, -1) < 0
    ensures x !in Taken(addrs, |addrs|)
  {
    TakenHas(addrs, |addrs|, x);
    forall i: nat | i < |addrs|
      ensures addrs[i] != x
    {
      if addrs[i] == x {
        SomeoneCovers(addrs, order, i, x, -1);
      }
    }
  }

  /** For any addresses and any order that disables every object: memory is restored byte for byte if
      and only if the order is a restoring one. */
  lemma RestoredIff(image: Image, addrs: seq<Addr>, order: seq<nat>)
    requires AllMapped(image, addrs) && InRange(order, |addrs|)
    requires HasAll(order, |addrs|)
    ensures ArmAndDisable(image, addrs, order) == image <==> RestoringOrder(image, addrs, order)
  {
    var after := ArmAndDisable(image, addrs, order);
    if RestoringOrder(image, addrs, order) {
      forall x | x in image
        ensures x in after && after[x] == image[x]
      {
        RestoredByte(image, addrs, order, x);
      }
      DisableKeepsKeys(image, addrs, order);
    } else {
      var i :| 0 <= i < |addrs| && addrs[i] in image && image[addrs[i]] != INT3 &&
               LastDisabled(addrs, order, addrs[i], -1) > i;
      RestoredByte(image, addrs, order, addrs[i]);
    }
  }

  lemma DisableKeepsKeys(image: Image, addrs: seq<Addr>, order: seq<nat>)
    requires AllMapped(image, addrs) && InRange(order, |addrs|)
    requires HasAll(order, |addrs|)
    ensures ArmAndDisable(image, addrs, order).Keys == image.Keys
  {
    DisableKeepsDomain(ArmFirst(image, addrs, |addrs|), addrs, SavedWords(image, addrs), order);
  }

  lemma {:induction false} DisableKeepsDomain(image: Image, addrs: seq<Addr>, words: seq<Word>, order: seq<nat>)
    requires |words| == |addrs| && InRange(order, |addrs|)
    ensures DisableAll(image, addrs, words, order).Keys == image.Keys
    decreases |order|
  {
    if order != [] {
      DisableKeepsDomain(Poke(image, addrs[order[0]], words[order[0]]), addrs, words, order[1..]);
    }
  }

  /** Last armed, first disabled. */
  function Reverse(n: nat): seq<nat> {
    if n == 0 then [] else [n - 1] + Reverse(n - 1)
  }

  lemma {:induction false} ReverseHasAll(n: nat)
    ensures InRange(Reverse(n), n) && HasAll(Reverse(n), n) && |Reverse(n)| == n
    decreases n
  {
    if n > 0 {
      ReverseHasAll(n - 1);
    }
  }

  lemma {:induction false} ReverseEndsLow(addrs: seq<Addr>, n: nat, i: nat, x: int, none: int)
    requires n <= |addrs| && InRange(Reverse(n), |addrs|)
    requires i < |addrs| && Covers(addrs, i, x)
    requires i < n || none <= i
    ensures LastDisabled(addrs, Reverse(n), x, none) <= i
    decreases n
  {
    if n > 0 {
      assert Reverse(n)[1..] == Reverse(n - 1);
      ReverseEndsLow(addrs, n - 1, i, x, if Covers(addrs, n - 1, x) then n - 1 else none);
    }
  }

  /** Whatever overlaps or repeats, disabling in reverse order restores memory. */
  lemma ReverseOrderRestores(image: Image, addrs: seq<Addr>)
    requires AllMapped(image, addrs)
    ensures InRange(Reverse(|addrs|), |addrs|)
         && ArmAndDisable(image, addrs, Reverse(|addrs|)) == image
  {
    ReverseHasAll(|addrs|);
    forall i | 0 <= i < |addrs|
      ensures LastDisabled(addrs, Reverse(|addrs|), addrs[i], -1) <= i
    {
      ReverseEndsLow(addrs, |addrs|, i, addrs[i], -1);
    }
    RestoredIff(image, addrs, Reverse(|addrs|));
  }

  lemma {:induction false} LastDisabledCovers(addrs: seq<Addr>, order: seq<nat>, x: int, none: int)
    requires InRange(order, |addrs|)
    requires -1 <= none < |addrs| && (none >= 0 ==> Covers(addrs, none, x))
    ensures var last := LastDisabled(addrs, order, x, none);
      -1 <= last < |addrs| && (last >= 0 ==> Covers(addrs, last, x))
    decreases |order|
  {
    if order != [] {
      LastDisabledCovers(addrs, order[1..], x, if Covers(addrs, order[0], x) then order[0] else none);
    }
  }

  /** Objects at least a word apart can be disabled in any order. */
  lemma SpacedRestoresInAnyOrder(image: Image, addrs: seq<Addr>, order: seq<nat>)
    requires AllMapped(image, addrs) && InRange(order, |addrs|)
    requires HasAll(order, |addrs|)
    requires forall i, j | 0 <= i < |addrs| && 0 <= j < |addrs| && i != j ::
      addrs[i] as int + 8 <= addrs[j] || addrs[j] as int + 8 <= addrs[i]
    ensures ArmAndDisable(image, addrs, order) == image
  {
    forall i | 0 <= i < |addrs|
      ensures LastDisabled(addrs, order, addrs[i], -1) <= i
    {
      LastDisabledCovers(addrs, order, addrs[i], -1);
    }
    RestoredIff(image, addrs, order);
  }

  /** Two breakpoints disabled in the order they were armed: restored exactly when the first address
      does not lie in the second's word, or held an INT3 of its own. */
  lemma FirstInFirstOutOfTwo(image: Image, a: Addr, b: Addr)
    requires Mapped(image, a) && Mapped(image, b)
    ensures ArmAndDisable(image, [a, b], [0, 1]) == image
       <==> !(b <= a < b as int + 8) || image[a] == INT3
  {
    var addrs: seq<Addr> := [a, b];
    var order: seq<nat> := [0, 1];
    RestoredIff(image, addrs, order);
    assert order[1..] == [1] && order[1..][1..] == [];
    assert addrs[0] == a && addrs[1] == b;
    LastDisabledCovers(addrs, order, b, -1);
    assert LastDisabled(addrs, order, a, -1) == if b <= a < b as int + 8 then 1 else 0;
    assert RestoringOrder(image, addrs, order) <==>
      (image[a] != INT3 ==> LastDisabled(addrs, order, a, -1) <= 0);
  }
}
