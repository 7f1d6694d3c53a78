/** What the FLV parser answers, on any input. */
module FlvAnswers {
  import opened Bytes
  import opened FlvParser
  import opened FlvMux

  // The handler took everything told since `log` but possibly the last of it.
  predicate Took(u: User, log: seq<Event>, told: seq<Event>) {
    log <= told && forall k :: |log| < k < |told| ==> u.handler(told[..k]) == 0
  }

  lemma {:induction false} StepAnswers(u: User, p: Parser, data: bytes, log: seq<Event>)
    requires Sane(p) && data != []
    ensures var s := Step(u, p, data, log);
      && log <= s.log && |s.log| <= |log| + 1
      && (|s.log| > |log| ==> s.result == u.handler(s.log))
  {
    hide DispatchTag, ReadTag, ReadHeader, ReadAudioHead, ReadVideoHead;
  }

  // On any input: the callbacks come one after the other as long as the handler answers 0, and the first other answer
  // ends the input and is what it returns.
  lemma {:induction false} AnswersCount(u: User, p: Parser, data: bytes, log: seq<Event>)
    requires Sane(p)
    ensures var r := Feed(u, p, data, log);
      && Took(u, log, r.log)
      && (|r.log| > |log| && u.handler(r.log) != 0 ==> r.result == u.handler(r.log))
    decreases |data|, Rank(p.phase)
  {
    hide Step, Sane, Taken;
    if data != [] {
      StepAnswers(u, p, data, log);
      StepSane(u, p, data, log);
      var s := Step(u, p, data, log);
      if s.result == 0 {
        TakenBound(p, data);
        AnswersCount(u, s.p, data[Taken(p, data)..], s.log);
        TookOn(u, log, s.log, Feed(u, s.p, data[Taken(p, data)..], s.log).log);
      }
    }
  }

  lemma {:induction false} TookOn(u: User, log: seq<Event>, next: seq<Event>, told: seq<Event>)
    requires log <= next && |next| <= |log| + 1 && (|next| > |log| ==> u.handler(next) == 0) && Took(u, next, told)
    ensures Took(u, log, told) && (|told| == |next| ==> told == next)
  {
    assert told[..|next|] == next;
    assert log == next[..|log|] == told[..|log|];
  }

  // ---------------------------------------------------------------------------
  // Input that is refused

  // A tag of unknown type, as soon as anything follows its header.
  lemma {:induction false} UnknownTypeRefused(u: User, p: Parser, x: bytes, rest: bytes, log: seq<Event>)
    requires p.phase.TagHead? && p.got == [] && |x| == TAG_HEADER_SIZE && !KnownKind(x[0] % 32) && rest != []
    ensures var r := Feed(u, p, x + rest, log); r.result == -1 && r.log == log
  {
    FeedExact(u, p, x, rest, log);
    assert [] + x == x;
    var q := Finish(u, p.(got := p.got + x), log).p;
    StepSane(u, q, rest, log);
  }

  // A file header whose offset is below its own size or above 32, and one that does not begin with its signature.
  lemma {:induction false} HeaderRefused(u: User, x: bytes, rest: bytes)
    requires |x| == HEADER_SIZE && (x[..3] != MAGIC || Read32(x[5..9]) < HEADER_SIZE || Read32(x[5..9]) > 32)
    ensures var r := Feed(u, FRESH, x + rest, []); r.result == -1 && r.log == []
  {
    FeedExact(u, FRESH, x, rest, []);
    assert [] + x == x;
  }

  // What a larger offset announces is skipped.
  lemma {:induction false} OffsetSkipped(u: User, x: bytes, skipped: bytes, rest: bytes)
    requires |x| == HEADER_SIZE && x[..3] == MAGIC && Read32(x[5..9]) == HEADER_SIZE + |skipped| <= 32
    ensures Sane(FRESH.(phase := PreviousSize))
    ensures exists q: Parser ::
      q.phase.PreviousSize? && q.got == [] && Sane(q) && Feed(u, FRESH, x + (skipped + rest), []) == Feed(u, q, rest, [])
  {
    FeedExact(u, FRESH, x, skipped + rest, []);
    assert [] + x == x;
    var p1 := Finish(u, FRESH.(got := x), []).p;
    if skipped == [] {
      assert skipped + rest == rest;
      assert p1.phase.PreviousSize? && p1.got == [] && Sane(p1);
    } else {
      FeedExact(u, p1, skipped, rest, []);
      var q := Finish(u, p1.(got := skipped), []).p;
      assert [] + skipped == skipped;
      assert q.phase.PreviousSize? && q.got == [] && Sane(q);
    }
  }

  // A video tag with a packet type above the three known ones, once it is complete.
  lemma {:induction false} PacketRefused(u: User, p: Parser, body: bytes, rest: bytes, log: seq<Event>)
    requires p.phase.Body? && p.tag.kind == TYPE_VIDEO && p.got == [] && p.want == |body| && body != []
    requires VideoHasPacket(p.video.codec) && p.video.packet > END_OF_SEQUENCE
    ensures var r := Feed(u, p, body + rest, log); r.result == -EINVAL && r.log == log
  {
    FeedExact(u, p, body, rest, log);
  }

  // A tag for which no body can be allocated.
  lemma {:induction false} BodyRefused(u: User, p: Parser, x: bytes, rest: bytes, log: seq<Event>)
    requires Sane(p) && p.phase.Extra? && |x| == Needed(p) && x + rest != []
    requires !u.alloc((p.tag.size - p.want) % POW64)
    ensures var r := Feed(u, p, x + rest, log); r.result == -1 && r.log == log
  {
    hide ReadAudioHead, ReadVideoHead;
    FeedExact(u, p, x, rest, log);
  }
}
