/** The backtrace loop over the frames that libunwind finds. */
module Backtrace {
  import opened Options

  /** The most names a backtrace holds. */
  const MAX_STACK_SIZE: nat := 256

  /** A frame: whether its program counter can be read, and the procedure name if there is one, with
      the offset into it. */
  datatype Frame = Frame(readable: bool, procedure: Option<(nat, string)>)

  /** libunwind's cursor: at one of the frames, innermost first. */
  class Cursor {
    const frames: seq<Frame>
    var at: nat

    ghost predicate Valid()
      reads this
    {
      at < |frames|
    }

    constructor (frames: seq<Frame>)
      requires frames != []
      ensures Valid() && this.frames == frames && at == 0
    {
      this.frames := frames;
      at := 0;
    }

    /** unw_step: positive when there is a next frame. */
    method Step() returns (r: int)
      requires Valid()
      modifies this
      ensures Valid()
      ensures (r > 0 <==> old(at) + 1 < |frames|) && at == old(at) + if r > 0 then 1 else 0
    {
      if at + 1 < |frames| {
        at := at + 1;
        r := 1;
      } else {
        r := 0;
      }
    }
  }

  /** The frames up to the first whose program counter cannot be read. */
  function Readable(frames: seq<Frame>): seq<Frame> {
    if frames == [] || !frames[0].readable then [] else [frames[0]] + Readable(frames[1..])
  }

  /** Their names, frames without one left out. */
  function Names(frames: seq<Frame>): seq<(nat, string)> {
    if frames == [] then []
    else (if frames[0].procedure.Some? then [frames[0].procedure.value] else []) + Names(frames[1..])
  }

  function Take<T>(s: seq<T>, n: nat): seq<T> {
    if |s| <= n then s else s[..n]
  }

  /** backtrace: exactly the first 256 names, or all there are. Frames without a name do not count, so
      the loop ends because the frames do. */
  method Trace(frames: seq<Frame>) returns (queue: seq<(nat, string)>)
    requires frames != []
    ensures var all := Names(Readable(frames));
      queue <= all && |queue| == if |all| < 256 then |all| else 256
  {
    var cursor := new Cursor(frames);
    queue := [];
    var more := true;
    ghost var all := Names(Readable(frames));
    assert frames[0..] == frames;
    while more
      invariant cursor.Valid() && cursor.frames == frames && fresh(cursor)
      invariant more ==> |queue| < MAX_STACK_SIZE && all == queue + Names(Readable(frames[cursor.at..]))
      invariant !more ==> queue == Take(all, MAX_STACK_SIZE)
      decreases |frames| - cursor.at, more
    {
      hide Readable, Names;
      var frame := frames[cursor.at];
      ghost var left, before := frames[cursor.at..], queue;
      assert left[0] == frame;
      if !frame.readable {
        UnreadableEnds(left);
        assert queue + [] == queue;
        return;
      }
      if frame.procedure.Some? {
        queue := queue + [frame.procedure.value];
      }
      NamesOfNext(left);
      assert all == queue + Names(Readable(left[1..])) by {
        var own := if frame.procedure.Some? then [frame.procedure.value] else [];
        assert before + (own + Names(Readable(left[1..]))) == (before + own) + Names(Readable(left[1..]));
        assert queue == before + own;
      }
      var r := cursor.Step();
      more := r > 0 && |queue| < MAX_STACK_SIZE;
      if r > 0 {
        assert left[1..] == frames[cursor.at..];
      } else {
        assert left[1..] == [];
        NoFramesNoNames();
      }
    }
  }

  /** The frames looked at are those before the first whose program counter cannot be read. */
  lemma {:induction false} StopsAtUnreadable(readable: seq<Frame>, rest: seq<Frame>)
    requires forall f | f in readable :: f.readable
    requires rest != [] ==> !rest[0].readable
    ensures Readable(readable + rest) == readable
    decreases |readable|
  {
    if readable == [] {
      assert readable + rest == rest;
    } else {
      assert readable[0] in readable;
      assert (readable + rest)[1..] == readable[1..] + rest;
      StopsAtUnreadable(readable[1..], rest);
    }
  }

  lemma {:induction false} NamesAppend(a: seq<Frame>, b: seq<Frame>)
    ensures Names(a + b) == Names(a) + Names(b)
    decreases |a|
  {
    if a == [] {
      assert a + b == b;
    } else {
      var own := if a[0].procedure.Some? then [a[0].procedure.value] else [];
      var left, right := Names(a[1..]), Names(b);
      NamesAppend(a[1..], b);
      assert (a + b)[1..] == a[1..] + b;
      hide Names;
      assert own + (left + right) == (own + left) + right;
    }
  }

  lemma NameOfOne(f: Frame)
    ensures Names([f]) == if f.procedure.Some? then [f.procedure.value] else []
  {
    assert [f][1..] == [];
  }

  /** Their names stand in the order of the frames, each with its offset, and a frame without a name leaves no
      trace. */
  lemma NamesInOrder(before: seq<Frame>, f: Frame, after: seq<Frame>)
    ensures Names(before + [f] + after)
         == Names(before) + (if f.procedure.Some? then [f.procedure.value] else []) + Names(after)
  {
    hide Names;
    NamesAppend(before + [f], after);
    NamesAppend(before, [f]);
    NameOfOne(f);
  }

  lemma NamesOfNext(frames: seq<Frame>)
    requires frames != [] && frames[0].readable
    ensures Names(Readable(frames))
         == (if frames[0].procedure.Some? then [frames[0].procedure.value] else []) + Names(Readable(frames[1..]))
  {
  }

  lemma UnreadableEnds(frames: seq<Frame>)
    requires frames != [] && !frames[0].readable
    ensures Names(Readable(frames)) == []
  {
  }

  lemma NoFramesNoNames()
    ensures Names(Readable([])) == []
  {
  }
}
