/** Where pushed frames end up, and when a waiting consumer is answered. */
module QueueRules {
  import opened Frames
  import opened AsyncQueue
  import FQ = FrameQueue

  // ---------------------------------------------------------------------------
  // Pushing in front

  // Media pushed in front comes before all other media, but behind metadata that is in front already; metadata pushed
  // in front takes the place of that metadata. Nothing else moves.
  lemma {:induction false} PushFrontPlaces(q: FQ.Queue, f: Frame) returns (lead: seq<Frame>, rest: seq<Frame>)
    requires NoAdjacentMetas(q.frames)
    ensures q.frames == lead + rest && |lead| <= 1
    ensures (forall i :: 0 <= i < |lead| ==> lead[i].Meta?) && (rest != [] ==> rest[0].IsMedia())
    ensures FQ.PushedFront(q, f).frames == (if f.Meta? then [f] + rest else lead + [f] + rest)
  {
    var n := if StartsWithMeta(q.frames) then 1 else 0;
    lead, rest := q.frames[..n], q.frames[n..];
    if n == 1 && |q.frames| > 1 { NoAdjacentMetasMeaning(q.frames, 0); }
    assert [] + [f] + rest == [f] + rest;
  }

  // ---------------------------------------------------------------------------
  // Answering the consumer

  function Waits(ops: seq<Op>): nat {
    if ops == [] then 0 else Waits(ops[..|ops| - 1]) + if ops[|ops| - 1].Wait? then 1 else 0
  }

  // The consumer never waits again before it was answered.
  predicate InTurn(ops: seq<Op>) {
    ops == [] ||
    (InTurn(ops[..|ops| - 1]) && (ops[|ops| - 1].Wait? ==> !Run(ops[..|ops| - 1]).waiting))
  }

  // No wait is answered twice, and in turn each is answered once or still open.
  lemma {:induction false} AnsweredOnce(ops: seq<Op>)
    ensures var s := Run(ops);
      && |s.handed| + (if s.waiting then 1 else 0) <= Waits(ops)
      && (InTurn(ops) ==> |s.handed| + (if s.waiting then 1 else 0) == Waits(ops))
  {
    if ops != [] { AnsweredOnce(ops[..|ops| - 1]); }
  }

  // A wait is answered as soon as the producer says there are frames, and when the queue is closed; nothing is handed
  // over to nobody.
  lemma {:induction false} Answers(ops: seq<Op>)
    ensures var s, r := Run(ops), Run(ops + [Notify]);
      && !(r.waiting && r.queue.frames != [])
      && (s.waiting && s.queue.frames != [] ==> r.handed == s.handed + [s.queue.frames] && r.queue == FQ.EMPTY)
      && (!s.waiting || s.queue.frames == [] ==> r == s)
    ensures var s, r := Run(ops), Run(ops + [Close]);
      && !r.waiting && r.queue == s.queue
      && r.handed == (if s.waiting then s.handed + [[]] else s.handed)
    ensures Run(ops + [Wait]) == Run(ops).(waiting := true)
  {
    assert (ops + [Notify])[..|ops|] == ops && (ops + [Close])[..|ops|] == ops && (ops + [Wait])[..|ops|] == ops;
  }
}
