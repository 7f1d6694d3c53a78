/** A frame queue between one producer and one consumer. */
module AsyncQueue {
  import opened Frames
  import FQ = FrameQueue

  // `waiting` says whether a consumer waits on a promise; `handed` lists the batches promises were resolved with.
  datatype State = State(queue: FQ.Queue, waiting: bool, handed: seq<seq<Frame>>)

  const START := State(FQ.EMPTY, false, [])

  datatype Op = Push(f: Frame) | Notify | Wait | Close

  function Next(s: State, op: Op): State {
    match op
    case Push(f) => s.(queue := FQ.PushedBack(s.queue, f))
    case Notify =>
      if s.queue.frames == [] || !s.waiting then s
      else State(FQ.EMPTY, false, s.handed + [s.queue.frames])
    case Wait => s.(waiting := true)
    case Close => if s.waiting then s.(waiting := false, handed := s.handed + [[]]) else s
  }

  function Run(ops: seq<Op>): State {
    if ops == [] then START else Next(Run(ops[..|ops| - 1]), ops[|ops| - 1])
  }

  function Pushed(ops: seq<Op>): seq<Frame> {
    if ops == [] then []
    else Pushed(ops[..|ops| - 1]) + (if ops[|ops| - 1].Push? then [ops[|ops| - 1].f] else [])
  }

  function Flatten(batches: seq<seq<Frame>>): seq<Frame> {
    if batches == [] then [] else Flatten(batches[..|batches| - 1]) + batches[|batches| - 1]
  }

  // `cuts` splits what was pushed into the part behind each batch, and `rest` is pending.
  ghost predicate Explains(cuts: seq<seq<Frame>>, rest: seq<Frame>, ops: seq<Op>) {
    && |cuts| == |Run(ops).handed|
    && Flatten(cuts) + rest == Pushed(ops)
    && (forall i :: 0 <= i < |cuts| ==> Run(ops).handed[i] == Squash(cuts[i]))
    && Run(ops).queue.frames == Squash(rest)
  }

  // Every batch, and the pending queue, is a consecutive part of the pushed frames less superseded metadata.
  lemma {:induction false} BatchesAreSquashedParts(ops: seq<Op>) returns (cuts: seq<seq<Frame>>, rest: seq<Frame>)
    ensures Explains(cuts, rest, ops)
  {
    if ops == [] {
      cuts, rest := [], [];
    } else {
      var init, op := ops[..|ops| - 1], ops[|ops| - 1];
      cuts, rest := BatchesAreSquashedParts(init);
      match op
      case Push(f) =>
        assert (rest + [f])[..|rest|] == rest;
        assert Flatten(cuts) + (rest + [f]) == Pushed(init) + [f];
        rest := rest + [f];
      case Notify =>
        if Run(init).queue.frames != [] && Run(init).waiting {
          assert (cuts + [rest])[..|cuts|] == cuts;
          cuts, rest := cuts + [rest], [];
        }
      case Wait =>
      case Close =>
        if Run(init).waiting {
          assert (cuts + [[]])[..|cuts|] == cuts;
          cuts := cuts + [[]];
        }
    }
  }

  // Handed-out frames followed by pending ones tell a receiver exactly what the pushed frames do: the same media
  // frames in order, each under the same metadata and keyframe.
  lemma {:induction false} NothingLost(ops: seq<Op>)
    ensures var out := Flatten(Run(ops).handed) + Run(ops).queue.frames;
            Entries(NOTHING, out) == Entries(NOTHING, Pushed(ops)) && After(NOTHING, out) == After(NOTHING, Pushed(ops))
  {
    var cuts, rest := BatchesAreSquashedParts(ops);
    FlattenSquashed(cuts, Run(ops).handed);
    var c := After(NOTHING, Flatten(cuts));
    EntriesConcat(NOTHING, Flatten(cuts), rest);
    AfterConcat(NOTHING, Flatten(cuts), rest);
    EntriesConcat(NOTHING, Flatten(Run(ops).handed), Squash(rest));
    AfterConcat(NOTHING, Flatten(Run(ops).handed), Squash(rest));
    SquashKeepsEntries(c, rest);
  }

  lemma {:induction false} FlattenSquashed(cuts: seq<seq<Frame>>, batches: seq<seq<Frame>>)
    requires |cuts| == |batches| && forall i :: 0 <= i < |cuts| ==> batches[i] == Squash(cuts[i])
    ensures Entries(NOTHING, Flatten(batches)) == Entries(NOTHING, Flatten(cuts))
    ensures After(NOTHING, Flatten(batches)) == After(NOTHING, Flatten(cuts))
  {
    var n := |cuts|;
    if n > 0 {
      FlattenSquashed(cuts[..n - 1], batches[..n - 1]);
      var c := After(NOTHING, Flatten(cuts[..n - 1]));
      EntriesConcat(NOTHING, Flatten(cuts[..n - 1]), cuts[n - 1]);
      AfterConcat(NOTHING, Flatten(cuts[..n - 1]), cuts[n - 1]);
      EntriesConcat(NOTHING, Flatten(batches[..n - 1]), batches[n - 1]);
      AfterConcat(NOTHING, Flatten(batches[..n - 1]), batches[n - 1]);
      SquashKeepsEntries(c, cuts[n - 1]);
    }
  }

  // The pending queue keeps its aggregates, and only `Close` hands over an empty batch.
  lemma {:induction false} PendingConsistent(ops: seq<Op>)
    ensures FQ.Consistent(Run(ops).queue) && FQ.LatestMetaExact(Run(ops).queue)
    ensures (forall i :: 0 <= i < |ops| ==> !ops[i].Close?) ==>
      forall i :: 0 <= i < |Run(ops).handed| ==> Run(ops).handed[i] != []
  {
    hide FQ.Consistent, FQ.LatestMetaExact, FQ.PushedBack;
    FQ.EmptyConsistent();
    if ops != [] {
      var init, op := ops[..|ops| - 1], ops[|ops| - 1];
      PendingConsistent(init);
      if op.Push? {
        if op.f.Meta? { FQ.PushBackMeta(Run(init).queue, op.f); } else { FQ.PushBackMedia(Run(init).queue, op.f); }
      }
      if forall i :: 0 <= i < |ops| ==> !ops[i].Close? {
        assert forall i :: 0 <= i < |init| ==> init[i] == ops[i];
        assert !op.Close?;
      }
    }
  }

  // ---------------------------------------------------------------------------
  // The queue object

  class AsyncFrameQueue {
    const base: FQ.FrameQueue
    var notEmpty: bool
    var resolved: seq<seq<Frame>>

    ghost function Value(): State
      reads this, base
    {
      State(base.Value(), notEmpty, resolved)
    }

    constructor ()
      ensures fresh(base) && Value() == START
    {
      base := new FQ.FrameQueue();
      notEmpty := false;
      resolved := [];
    }

    method PushBack(f: Frame)
      modifies base
      ensures Value() == Next(old(Value()), Push(f))
    {
      base.PushBack(f);
    }

    method NotifyNotEmpty()
      modifies this, base
      ensures Value() == Next(old(Value()), Notify)
    {
      if base.queue == [] { return; }
      if notEmpty {
        var frames := base.TakeAll();
        resolved := resolved + [frames];
        notEmpty := false;
      }
    }

    method NotEmpty()
      modifies this
      ensures Value() == Next(old(Value()), Wait)
    {
      notEmpty := true;
    }

    method Shut()
      modifies this
      ensures Value() == Next(old(Value()), Close)
    {
      if notEmpty {
        resolved := resolved + [[]];
        notEmpty := false;
      }
    }
  }
}
