/** The frame queue: a vector of frames with running aggregates. */
module FrameQueue {
  import opened Frames
  import opened Options

  // The value of a queue: its frames and every field kept beside them.
  datatype Queue = Queue(
    frames: seq<Frame>,
    firstMeta: Option<Frame>, latestMeta: Option<Frame>,
    firstMedia: Option<Frame>, latestMedia: Option<Frame>,
    startDts: int, endDts: int, bytes: nat)

  const EMPTY := Queue([], None, None, None, None, -1, -1, 0)

  function PushedBack(q: Queue, f: Frame): Queue {
    if f.IsMedia() then
      q.(frames := q.frames + [f],
         firstMedia := if q.firstMedia.None? then Some(f) else q.firstMedia,
         latestMedia := Some(f),
         startDts := if q.startDts == -1 then f.dts else q.startDts,
         endDts := f.dts,
         bytes := q.bytes + f.size)
    else
      var kept := if EndsWithMeta(q.frames) then q.frames[..|q.frames| - 1] else q.frames;
      q.(frames := kept + [f],
         firstMeta := if kept == [] || q.firstMeta.None? then Some(f) else q.firstMeta,
         latestMeta := Some(f))
  }

  function PushedFront(q: Queue, f: Frame): Queue {
    if f.IsMedia() then
      q.(frames := if StartsWithMeta(q.frames) then q.frames[..1] + [f] + q.frames[1..] else [f] + q.frames,
         firstMedia := Some(f),
         latestMedia := if q.latestMedia.None? then Some(f) else q.latestMedia,
         startDts := f.dts,
         endDts := if q.endDts == -1 then f.dts else q.endDts,
         bytes := q.bytes + f.size)
    else
      q.(frames := [f] + (if StartsWithMeta(q.frames) then q.frames[1..] else q.frames),
         firstMeta := Some(f),
         latestMeta := if q.latestMeta.None? then Some(f) else q.latestMeta)
  }

  // ---------------------------------------------------------------------------
  // What the aggregates mean

  function FirstDts(s: seq<Frame>): int {
    if FirstMedia(s).Some? && FirstMedia(s).value.IsMedia() then FirstMedia(s).value.dts else -1
  }

  function LastDts(s: seq<Frame>): int {
    if LastMedia(s).Some? && LastMedia(s).value.IsMedia() then LastMedia(s).value.dts else -1
  }

  predicate NonNegativeDts(s: seq<Frame>) {
    s == [] || (NonNegativeDts(s[..|s| - 1]) && (s[|s| - 1].IsMedia() ==> s[|s| - 1].dts >= 0))
  }

  // Every aggregate except `latestMeta` equals its recomputation from the frames. `firstMeta` is claimed only of a
  // queue that starts with metadata, and the dts fields only when no dts collides with the "unset" mark -1.
  predicate Consistent(q: Queue) {
    && NoAdjacentMetas(q.frames)
    && q.firstMedia == FirstMedia(q.frames)
    && q.latestMedia == LastMedia(q.frames)
    && q.bytes == MediaBytes(q.frames)
    && (NonNegativeDts(q.frames) ==> q.startDts == FirstDts(q.frames) && q.endDts == LastDts(q.frames))
    && (StartsWithMeta(q.frames) ==> q.firstMeta == Some(q.frames[0]))
    && (LastMeta(q.frames).Some? <==> q.firstMeta.Some?)
    && (LastMeta(q.frames).Some? <==> q.latestMeta.Some?)
  }

  predicate LatestMetaExact(q: Queue) { q.latestMeta == LastMeta(q.frames) }

  datatype Op = Back(f: Frame) | Front(f: Frame) | PopAll

  function Apply(q: Queue, op: Op): Queue {
    match op
    case Back(f) => PushedBack(q, f)
    case Front(f) => PushedFront(q, f)
    case PopAll => EMPTY
  }

  function Run(ops: seq<Op>): Queue {
    if ops == [] then EMPTY else Apply(Run(ops[..|ops| - 1]), ops[|ops| - 1])
  }

  lemma {:induction false} NonNegativeConcat(a: seq<Frame>, b: seq<Frame>)
    ensures NonNegativeDts(a + b) <==> NonNegativeDts(a) && NonNegativeDts(b)
  {
    if b == [] {
      assert a + b == a;
    } else {
      assert (a + b)[..|a + b| - 1] == a + b[..|b| - 1];
      NonNegativeConcat(a, b[..|b| - 1]);
    }
  }

  lemma {:induction false} FoundDtsNonNegative(s: seq<Frame>)
    requires NonNegativeDts(s)
    ensures FirstMedia(s).Some? ==> FirstDts(s) >= 0
    ensures LastMedia(s).Some? ==> LastDts(s) >= 0
  {
    FoundMeaning(s);
    if s != [] {
      var init, f := s[..|s| - 1], s[|s| - 1];
      FoundDtsNonNegative(init);
      FirstMediaConcat(init, [f]);
      assert s == init + [f];
    }
  }

  // How the recomputed values change when frames are appended or put in front.
  lemma {:induction false} Recomputed(a: seq<Frame>, f: Frame, b: seq<Frame>)
    ensures var s := a + [f] + b;
      && FirstMedia(s) == (if FirstMedia(a).Some? then FirstMedia(a) else if f.IsMedia() then Some(f) else FirstMedia(b))
      && LastMedia(s) == (if LastMedia(b).Some? then LastMedia(b) else if f.IsMedia() then Some(f) else LastMedia(a))
      && LastMeta(s) == (if LastMeta(b).Some? then LastMeta(b) else if f.Meta? then Some(f) else LastMeta(a))
      && MediaBytes(s) == MediaBytes(a) + (if f.IsMedia() then f.size else 0) + MediaBytes(b)
      && (NoAdjacentMetas(s) <==>
          NoAdjacentMetas(a) && NoAdjacentMetas(b) &&
          (if f.Meta? then !EndsWithMeta(a) && !StartsWithMeta(b) else true))
      && (NonNegativeDts(s) <==> NonNegativeDts(a) && NonNegativeDts(b) && (f.IsMedia() ==> f.dts >= 0))
  {
    FirstMediaConcat(a, [f]);
    FirstMediaConcat(a + [f], b);
    LastMediaConcat(a, [f]);
    LastMediaConcat(a + [f], b);
    LastMetaConcat(a, [f]);
    LastMetaConcat(a + [f], b);
    MediaBytesConcat(a, [f]);
    MediaBytesConcat(a + [f], b);
    NoAdjacentMetasConcat(a, [f]);
    NoAdjacentMetasConcat(a + [f], b);
    NonNegativeConcat(a, [f]);
    NonNegativeConcat(a + [f], b);
    assert [f][..0] == [];
  }

  lemma {:induction false} PushBackMedia(q: Queue, f: Frame)
    requires Consistent(q) && f.IsMedia()
    ensures Consistent(PushedBack(q, f))
    ensures LatestMetaExact(q) ==> LatestMetaExact(PushedBack(q, f))
  {
    hide FirstMedia, LastMedia, LastMeta, MediaBytes, NoAdjacentMetas, NonNegativeDts;
    NothingFound();
    Recomputed(q.frames, f, []);
    assert PushedBack(q, f).frames == q.frames + [f] + [];
    if NonNegativeDts(q.frames) { FoundDtsNonNegative(q.frames); }
  }

  lemma {:induction false} NothingFound()
    ensures FirstMedia([]) == LastMedia([]) == LastMeta([]) == None && MediaBytes([]) == 0
    ensures NoAdjacentMetas([]) && NonNegativeDts([])
  {
  }

  lemma {:induction false} PushBackMeta(q: Queue, f: Frame)
    requires Consistent(q) && f.Meta?
    ensures Consistent(PushedBack(q, f))
    ensures LatestMetaExact(PushedBack(q, f))
  {
    hide FirstMedia, LastMedia, LastMeta, MediaBytes, NoAdjacentMetas, NonNegativeDts;
    NothingFound();
    var kept := if EndsWithMeta(q.frames) then q.frames[..|q.frames| - 1] else q.frames;
    if kept != q.frames {
      var m := q.frames[|q.frames| - 1];
      Recomputed(kept, m, []);
      assert q.frames == kept + [m] + [];
    }
    Recomputed(kept, f, []);
    assert PushedBack(q, f).frames == kept + [f] + [];
  }

  // The first-metadata pointer survives a push at the back, except when the pushed metadata replaces the only
  // metadata frame of a queue that starts with media.
  lemma {:induction false} PushBackFirstMeta(q: Queue, f: Frame)
    requires Consistent(q) && q.firstMeta == FirstMeta(q.frames)
    ensures var n := |q.frames|;
            var stale := f.Meta? && n > 1 && q.frames[n - 1].Meta? && FirstMeta(q.frames[..n - 1]).None?
                         && q.frames[n - 1] != f;
            PushedBack(q, f).firstMeta == FirstMeta(PushedBack(q, f).frames) <==> !stale
  {
    FirstMetaConcat(q.frames, [f]);
    if f.Meta? && EndsWithMeta(q.frames) {
      var kept, m := q.frames[..|q.frames| - 1], q.frames[|q.frames| - 1];
      FirstMetaConcat(kept, [m]);
      FirstMetaConcat(kept, [f]);
      assert q.frames == kept + [m];
    }
  }

  lemma {:induction false} PushFrontMedia(q: Queue, f: Frame)
    requires Consistent(q) && f.IsMedia()
    ensures Consistent(PushedFront(q, f))
    ensures LatestMetaExact(q) ==> LatestMetaExact(PushedFront(q, f))
  {
    hide FirstMedia, LastMedia, LastMeta, MediaBytes, NoAdjacentMetas, NonNegativeDts;
    NothingFound();
    if StartsWithMeta(q.frames) {
      var rest := q.frames[1..];
      Recomputed([], q.frames[0], rest);
      assert q.frames == [] + [q.frames[0]] + rest;
      Recomputed([], q.frames[0], []);
      assert q.frames[..1] == [] + [q.frames[0]] + [];
      Recomputed(q.frames[..1], f, rest);
    } else {
      Recomputed([], f, q.frames);
      assert PushedFront(q, f).frames == [] + [f] + q.frames;
    }
    if NonNegativeDts(q.frames) { FoundDtsNonNegative(q.frames); }
  }

  // Metadata put in front replaces metadata already there, but the pointer to the last metadata is then only
  // right when the replaced frame was not the last one.
  lemma {:induction false} PushFrontMeta(q: Queue, f: Frame)
    requires Consistent(q) && f.Meta?
    ensures Consistent(PushedFront(q, f))
    ensures LatestMetaExact(q) ==>
      (LatestMetaExact(PushedFront(q, f)) <==>
       !(StartsWithMeta(q.frames) && LastMeta(q.frames[1..]).None? && q.frames[0] != f))
  {
    hide FirstMedia, LastMedia, LastMeta, MediaBytes, NoAdjacentMetas, NonNegativeDts;
    NothingFound();
    var rest := if StartsWithMeta(q.frames) then q.frames[1..] else q.frames;
    if rest != q.frames {
      Recomputed([], q.frames[0], rest);
      assert q.frames == [] + [q.frames[0]] + rest;
    }
    Recomputed([], f, rest);
    assert PushedFront(q, f).frames == [] + [f] + rest;
  }

  lemma {:induction false} EmptyConsistent()
    ensures Consistent(EMPTY) && LatestMetaExact(EMPTY)
  {
  }

  // Whatever is pushed and popped, from either end, the aggregates equal their recomputation from the frames.
  lemma {:induction false} RunConsistent(ops: seq<Op>)
    ensures Consistent(Run(ops))
  {
    if ops != [] {
      RunConsistent(ops[..|ops| - 1]);
      var q, op := Run(ops[..|ops| - 1]), ops[|ops| - 1];
      match op
      case Back(f) => if f.Meta? { PushBackMeta(q, f); } else { PushBackMedia(q, f); }
      case Front(f) => if f.Meta? { PushFrontMeta(q, f); } else { PushFrontMedia(q, f); }
      case PopAll =>
    }
  }

  // The latest-metadata pointer is exact in every run that never replaces the only metadata frame from the front.
  lemma {:induction false} RunLatestMetaExact(ops: seq<Op>)
    requires forall i :: 0 <= i < |ops| && ops[i].Front? && ops[i].f.Meta? ==>
      var q := Run(ops[..i]).frames; !(StartsWithMeta(q) && LastMeta(q[1..]).None? && q[0] != ops[i].f)
    ensures LatestMetaExact(Run(ops))
  {
    if ops != [] {
      var init := ops[..|ops| - 1];
      forall i | 0 <= i < |init| && init[i].Front? && init[i].f.Meta?
        ensures var q := Run(init[..i]).frames; !(StartsWithMeta(q) && LastMeta(q[1..]).None? && q[0] != init[i].f)
      {
        assert init[i] == ops[i] && init[..i] == ops[..i];
      }
      RunLatestMetaExact(init);
      RunConsistent(init);
      var q, op := Run(init), ops[|ops| - 1];
      match op
      case Back(f) => if f.Meta? { PushBackMeta(q, f); } else { PushBackMedia(q, f); }
      case Front(f) => if f.Meta? { PushFrontMeta(q, f); } else { PushFrontMedia(q, f); }
      case PopAll =>
    }
  }

  function BackOps(s: seq<Frame>): (ops: seq<Op>)
    ensures |ops| == |s|
  {
    seq(|s|, i requires 0 <= i < |s| => Back(s[i]))
  }

  lemma {:induction false} BackRun(s: seq<Frame>)
    ensures Run(BackOps(s)).frames == Squash(s)
    decreases |s|
  {
    hide Squash, Run, PushedBack, BackOps;
    if s == [] {
      NoBackOps();
    } else {
      BackRun(s[..|s| - 1]);
      LastBackOp(s);
      BackSquash(Run(BackOps(s[..|s| - 1])), s);
    }
  }

  lemma {:induction false} NoBackOps()
    ensures Run(BackOps([])).frames == Squash([])
  {
  }

  lemma {:induction false} LastBackOp(s: seq<Frame>)
    requires s != []
    ensures Run(BackOps(s)) == PushedBack(Run(BackOps(s[..|s| - 1])), s[|s| - 1])
  {
    hide PushedBack;
    assert BackOps(s)[..|s| - 1] == BackOps(s[..|s| - 1]);
  }

  lemma {:induction false} BackSquash(q: Queue, s: seq<Frame>)
    requires s != [] && q.frames == Squash(s[..|s| - 1])
    ensures PushedBack(q, s[|s| - 1]).frames == Squash(s)
  {
  }

  // Pushing at the back alone keeps exactly the frames not superseded.
  lemma {:induction false} BackRunSquashes(s: seq<Frame>)
    ensures Run(BackOps(s)).frames == Squash(s) && NoAdjacentMetas(Squash(s))
  {
    SquashedHasNoAdjacentMetas(s);
    BackRun(s);
  }

  // So a queue that starts with media forgets its first metadata when that is replaced.
  lemma {:induction false} FirstMetaStale()
    ensures var v, m, n := Video(1, 0, 9, true), Meta(2, true, true), Meta(3, true, false);
      var q := Run([Back(v), Back(m), Back(n)]);
      q.frames == [v, n] && q.firstMeta == Some(m) && FirstMeta(q.frames) == Some(n)
  {
    var v, m, n := Video(1, 0, 9, true), Meta(2, true, true), Meta(3, true, false);
    assert [Back(v), Back(m), Back(n)][..2] == [Back(v), Back(m)] && [Back(v), Back(m)][..1] == [Back(v)];
    assert [Back(v)][..0] == [];
    assert Run([Back(v)]) == Queue([v], None, None, Some(v), Some(v), 0, 0, 9);
    assert Run([Back(v), Back(m)]) == Queue([v, m], Some(m), Some(m), Some(v), Some(v), 0, 0, 9);
    assert [v, n][1..] == [n];
  }

  // ---------------------------------------------------------------------------
  // The queue object

  class FrameQueue {
    var queue: seq<Frame>
    var firstMeta: Option<Frame>
    var latestMeta: Option<Frame>
    var firstMedia: Option<Frame>
    var latestMedia: Option<Frame>
    var startDts: int
    var endDts: int
    var bytes: nat

    ghost function Value(): Queue
      reads this
    {
      Queue(queue, firstMeta, latestMeta, firstMedia, latestMedia, startDts, endDts, bytes)
    }

    constructor ()
      ensures Value() == EMPTY
    {
      queue := [];
      firstMeta, latestMeta, firstMedia, latestMedia := None, None, None, None;
      startDts, endDts, bytes := -1, -1, 0;
    }

    // Moving a queue leaves the source empty.
    constructor Move(x: FrameQueue)
      modifies x
      ensures Value() == old(x.Value()) && x.Value() == EMPTY
    {
      queue := x.queue;
      firstMeta, latestMeta, firstMedia, latestMedia := x.firstMeta, x.latestMeta, x.firstMedia, x.latestMedia;
      startDts, endDts, bytes := x.startDts, x.endDts, x.bytes;
      new;
      x.queue := [];
      x.firstMeta, x.latestMeta, x.firstMedia, x.latestMedia := None, None, None, None;
      x.startDts, x.endDts, x.bytes := -1, -1, 0;
    }

    method Clear()
      modifies this
      ensures Value() == EMPTY
    {
      queue := [];
      firstMeta, latestMeta, firstMedia, latestMedia := None, None, None, None;
      startDts, endDts, bytes := -1, -1, 0;
    }

    method TakeAll() returns (frames: seq<Frame>)
      modifies this
      ensures frames == old(queue) && Value() == EMPTY
    {
      frames := queue;
      Clear();
    }

    method PushBack(f: Frame)
      modifies this
      ensures Value() == PushedBack(old(Value()), f)
    {
      if f.IsMedia() {
        if firstMedia.None? { firstMedia := Some(f); }
        latestMedia := Some(f);
        if startDts == -1 { startDts := f.dts; }
        endDts := f.dts;
        bytes := bytes + f.size;
      } else {
        if queue != [] && queue[|queue| - 1].Meta? { queue := queue[..|queue| - 1]; }
        if queue == [] || firstMeta.None? { firstMeta := Some(f); }
        latestMeta := Some(f);
      }
      queue := queue + [f];
    }

    method PushFront(f: Frame)
      modifies this
      ensures Value() == PushedFront(old(Value()), f)
    {
      if f.IsMedia() {
        if queue != [] && queue[0].Meta? {
          queue := queue[..1] + [f] + queue[1..];
        } else {
          queue := [f] + queue;
        }
        firstMedia := Some(f);
        if latestMedia.None? { latestMedia := Some(f); }
        startDts := f.dts;
        if endDts == -1 { endDts := f.dts; }
        bytes := bytes + f.size;
      } else {
        if queue != [] && queue[0].Meta? { queue := queue[1..]; }
        queue := [f] + queue;
        firstMeta := Some(f);
        if latestMeta.None? { latestMeta := Some(f); }
      }
    }
  }
}
