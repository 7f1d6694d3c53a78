/** What joining, leaving and publishing do to a session. */
module FanOutRules {
  import opened Frames
  import C = GopCache
  import G = GopRules
  import Q = FrameQueue
  import opened FanOut
  import opened Options

  // ---------------------------------------------------------------------------
  // Joining and leaving

  // The items of other subscribers, in order.
  function Others<Id, Sub(==)>(owner: map<Id, Sub>, subscribers: seq<Id>, sub: Sub): (others: seq<Id>)
    requires forall id :: id in subscribers ==> id in owner
    ensures forall id :: id in others ==> id in subscribers && owner[id] != sub
    ensures forall id :: id in subscribers ==> owner[id] == sub || id in others
  {
    if subscribers == [] then []
    else (if owner[subscribers[0]] == sub then [] else [subscribers[0]]) + Others(owner, subscribers[1..], sub)
  }

  predicate Joined<Id, Sub(==)>(owner: map<Id, Sub>, subscribers: seq<Id>, sub: Sub)
    requires forall id :: id in subscribers ==> id in owner
  {
    exists i :: 0 <= i < |subscribers| && owner[subscribers[i]] == sub
  }

  // No subscriber has two items.
  predicate OneEach<Id, Sub(==)>(owner: map<Id, Sub>, subscribers: seq<Id>)
    requires forall id :: id in subscribers ==> id in owner
  {
    subscribers == [] ||
    (!Joined(owner, subscribers[1..], owner[subscribers[0]]) && OneEach(owner, subscribers[1..]))
  }

  lemma {:induction false} OneEachMeaning<Id, Sub>(owner: map<Id, Sub>, subscribers: seq<Id>, i: nat, j: nat)
    requires (forall id :: id in subscribers ==> id in owner) && OneEach(owner, subscribers) && i < j < |subscribers|
    ensures owner[subscribers[i]] != owner[subscribers[j]]
    decreases i
  {
    if i > 0 {
      OneEachMeaning(owner, subscribers[1..], i - 1, j - 1);
    } else {
      assert subscribers[1..][j - 1] == subscribers[j];
    }
  }

  lemma {:induction false} JoinedStep<Id, Sub>(owner: map<Id, Sub>, subscribers: seq<Id>, sub: Sub)
    requires (forall id :: id in subscribers ==> id in owner) && subscribers != []
    ensures Joined(owner, subscribers, sub) <==> owner[subscribers[0]] == sub || Joined(owner, subscribers[1..], sub)
  {
    var rest := subscribers[1..];
    if Joined(owner, rest, sub) {
      var i :| 0 <= i < |rest| && owner[rest[i]] == sub;
      assert owner[subscribers[i + 1]] == sub;
    }
    if Joined(owner, subscribers, sub) && owner[subscribers[0]] != sub {
      var i :| 0 <= i < |subscribers| && owner[subscribers[i]] == sub;
      assert owner[rest[i - 1]] == sub;
    }
  }

  lemma {:induction false} OthersAll<Id, Sub>(owner: map<Id, Sub>, subscribers: seq<Id>, sub: Sub)
    requires (forall id :: id in subscribers ==> id in owner) && !Joined(owner, subscribers, sub)
    ensures Others(owner, subscribers, sub) == subscribers && IndexOf(owner, subscribers, sub) == |subscribers|
    decreases |subscribers|
  {
    hide Joined;
    if subscribers != [] {
      JoinedStep(owner, subscribers, sub);
      OthersAll(owner, subscribers[1..], sub);
    }
  }

  lemma {:induction false} IndexOthers<Id, Sub>(owner: map<Id, Sub>, subscribers: seq<Id>, sub: Sub)
    requires (forall id :: id in subscribers ==> id in owner) && OneEach(owner, subscribers)
    ensures var i := IndexOf(owner, subscribers, sub);
      && (i < |subscribers| <==> Joined(owner, subscribers, sub))
      && Others(owner, subscribers, sub)
         == if i < |subscribers| then subscribers[..i] + subscribers[i + 1..] else subscribers
    decreases |subscribers|
  {
    hide Joined;
    if !Joined(owner, subscribers, sub) {
      OthersAll(owner, subscribers, sub);
    } else {
      NobodyJoined(owner, sub);
      JoinedStep(owner, subscribers, sub);
      var first, rest := subscribers[0], subscribers[1..];
      if owner[first] == sub {
        OthersAll(owner, rest, sub);
        assert [] + rest == rest && subscribers[..0] + subscribers[1..] == rest;
      } else {
        IndexOthers(owner, rest, sub);
        Without(first, rest, IndexOf(owner, rest, sub));
        assert [first] + rest == subscribers;
      }
    }
  }

  lemma {:induction false} Without<Id>(first: Id, rest: seq<Id>, i: nat)
    requires i < |rest|
    ensures ([first] + rest)[..i + 1] + ([first] + rest)[i + 2..] == [first] + (rest[..i] + rest[i + 1..])
  {
  }

  lemma {:induction false} NobodyJoined<Id, Sub>(owner: map<Id, Sub>, sub: Sub)
    ensures !Joined(owner, [], sub)
  {
  }

  lemma {:induction false} OthersOneEach<Id, Sub>(owner: map<Id, Sub>, subscribers: seq<Id>, sub: Sub)
    requires (forall id :: id in subscribers ==> id in owner) && OneEach(owner, subscribers)
    ensures OneEach(owner, Others(owner, subscribers, sub))
    ensures forall x :: Joined(owner, Others(owner, subscribers, sub), x) ==> x != sub && Joined(owner, subscribers, x)
    decreases |subscribers|
  {
    var others := Others(owner, subscribers, sub);
    forall x | Joined(owner, others, x) ensures x != sub && Joined(owner, subscribers, x) {
      var i :| 0 <= i < |others| && owner[others[i]] == x;
      assert others[i] in subscribers;
    }
    hide Joined;
    if subscribers != [] {
      OthersOneEach(owner, subscribers[1..], sub);
      var rest := Others(owner, subscribers[1..], sub);
      if owner[subscribers[0]] == sub {
        assert [] + rest == rest;
      } else {
        assert ([subscribers[0]] + rest)[1..] == rest;
      }
    }
  }

  lemma {:induction false} MoreOneEach<Id, Sub>(owner: map<Id, Sub>, subscribers: seq<Id>, id: Id, sub: Sub)
    requires (forall x :: x in subscribers ==> x in owner) && OneEach(owner, subscribers)
    requires id !in owner && !Joined(owner, subscribers, sub)
    ensures OneEach(owner[id := sub], subscribers + [id])
    decreases |subscribers|
  {
    var wide, all := owner[id := sub], subscribers + [id];
    if subscribers == [] {
      assert all == [id] && all[1..] == [];
    } else {
      var first, rest := subscribers[0], subscribers[1..];
      JoinedStep(owner, subscribers, sub);
      MoreOneEach(owner, rest, id, sub);
      assert all[1..] == rest + [id] && first in subscribers;
      forall i | 0 <= i < |rest + [id]| ensures wide[(rest + [id])[i]] != wide[first] {
        if i < |rest| { assert rest[i] in subscribers; }
      }
    }
  }

  // Leaving takes the subscriber's item off the list, keeps all others in order, and changes nothing else.
  lemma {:induction false} UnsubscribeMeaning<Id, Sub>(s: Session<Id, Sub>, sub: Sub)
    requires Wellformed(s) && OneEach(s.owner, s.subscribers)
    ensures var r := Next(s, Unsubscribe(sub));
      && r == s.(subscribers := Others(s.owner, s.subscribers, sub))
      && (forall id :: id in r.subscribers ==> id in s.subscribers && s.owner[id] != sub)
      && (forall id :: id in s.subscribers && s.owner[id] != sub ==> id in r.subscribers)
  {
    IndexOthers(s.owner, s.subscribers, sub);
  }

  // Joining adds one item, of that subscriber and without frames so far, behind the others; whoever is there already
  // gets no second one.
  lemma {:induction false} SubscribeMeaning<Id, Sub>(s: Session<Id, Sub>, sub: Sub, id: Id)
    requires Wellformed(s) && OneEach(s.owner, s.subscribers) && id !in s.owner
    ensures var r := Next(s, Subscribe(sub, id));
      if Joined(s.owner, s.subscribers, sub) then r == s
      else
        && r == s.(owner := r.owner, log := r.log, subscribers := s.subscribers + [id])
        && r.owner == s.owner[id := sub] && r.log == s.log[id := []]
  {
    IndexOthers(s.owner, s.subscribers, sub);
  }

  lemma {:induction false} StepOneEach<Id, Sub>(s: Session<Id, Sub>, step: Step<Id, Sub>)
    requires Wellformed(s) && Enabled(s, step) && OneEach(s.owner, s.subscribers)
    ensures OneEach(Next(s, step).owner, Next(s, step).subscribers)
  {
    hide C.GoodCache, C.AddFrame, Fits, OneEach, Joined, IndexOf;
    match step
    case Subscribe(sub, id) =>
      SubscribeMeaning(s, sub, id);
      if !Joined(s.owner, s.subscribers, sub) { MoreOneEach(s.owner, s.subscribers, id, sub); }
    case Unsubscribe(sub) =>
      UnsubscribeMeaning(s, sub);
      OthersOneEach(s.owner, s.subscribers, sub);
    case RemoveAll => NobodyTwice(s.owner);
    case _ =>
  }

  lemma {:induction false} NobodyTwice<Id, Sub>(owner: map<Id, Sub>)
    ensures OneEach(owner, [])
  {
  }

  // So in every run nobody has more than one item, and after leaving none.
  lemma {:induction false} RunOneEach<Id, Sub>(states: seq<Session<Id, Sub>>, steps: seq<Step<Id, Sub>>, i: nat)
    requires IsRun(states, steps) && i < |states|
    ensures Wellformed(states[i]) && OneEach(states[i].owner, states[i].subscribers)
    ensures i > 0 && steps[i - 1].Unsubscribe? ==>
      forall id :: id in states[i].subscribers ==> states[i].owner[id] != steps[i - 1].sub
    decreases i
  {
    hide C.GoodCache, Next, Enabled, OneEach;
    if i == 0 {
      var limits :| states[0] == Start(limits);
      NobodyYet<Id, Sub>(limits);
    } else {
      RunOneEach(states, steps, i - 1);
      var s, step := states[i - 1], steps[i - 1];
      assert states[i - 1 + 1] == Next(s, step);
      StepOneEach(s, step);
      if step.Unsubscribe? { UnsubscribeMeaning(s, step.sub); }
    }
  }

  lemma {:induction false} NobodyYet<Id, Sub>(limits: Limits)
    ensures OneEach(Start<Id, Sub>(limits).owner, Start<Id, Sub>(limits).subscribers)
  {
  }

  // ---------------------------------------------------------------------------
  // Publishing

  // A frame that is not for the cache, or comes after the end, changes nothing. Any other enters the cache and the
  // accepted history, and is to be delivered to all who are subscribed now, unless the cached frames are then too many
  // bytes or too long: that ends the session, and nobody gets the frame.
  lemma {:induction false} PublishMeaning<Id, Sub>(s: Session<Id, Sub>, f: Frame)
    requires Wellformed(s) && s.pending == []
    ensures var r, taken := Next(s, Publish(f)), !s.complete && C.Accepts(s.cache, f);
      if !taken then r == s
      else
        var c := C.AddFrame(s.cache, f).0;
        var a := C.AllFrames(c);
        && r == s.(cache := c, accepted := s.accepted + [f], complete := r.complete, frame := r.frame, pending := r.pending)
        && (Q.NonNegativeDts(a) ==>
              (r.complete <==> MediaBytes(a) > s.limits.maxBytes || G.Span(a) > s.limits.maxDuration))
        && (if r.complete then r.pending == [] && r.frame == s.frame
            else r.pending == s.subscribers && r.frame == Some(f))
  {
    if !s.complete && C.Accepts(s.cache, f) {
      var c := C.AddFrame(s.cache, f).0;
      C.BytesExact(c);
      if Q.NonNegativeDts(C.AllFrames(c)) { G.DurationExact(c); }
    }
    hide C.GoodCache, C.AddFrame, C.Accepts, C.AllFrames, C.Bytes, C.Duration, MediaBytes, G.Span, Q.NonNegativeDts;
    AddedIffAccepted(s.cache, f);
  }

  lemma {:induction false} AddedIffAccepted(c: C.Cache, f: Frame)
    requires C.GoodCache(c)
    ensures C.AddFrame(c, f).1 <==> C.Accepts(c, f)
    ensures !C.Accepts(c, f) ==> C.AddFrame(c, f).0 == c
  {
    hide C.GoodCache, C.UpdateGop, C.Pushed, C.Accepts;
  }

  // ---------------------------------------------------------------------------
  // The end

  // Removing all subscribers leaves nobody on the list, and finishing ends the session; neither touches the cache, the
  // history, what was handed over or what is still to be delivered.
  lemma {:induction false} EndingSteps<Id, Sub>(s: Session<Id, Sub>)
    requires Wellformed(s)
    ensures var r := Next(s, RemoveAll); r.subscribers == [] && r == s.(subscribers := [])
    ensures var r := Next(s, Finish); r.complete && r == s.(complete := s.complete || r.complete)
  {
  }

  // One step of a session that has ended, or has nobody left to deliver to: what was accepted stays, nobody is added
  // to those waiting for a delivery, and only a pending delivery makes a stream longer.
  lemma {:induction false} EndedStep<Id, Sub>(s: Session<Id, Sub>, step: Step<Id, Sub>)
    requires Wellformed(s) && Enabled(s, step) && s.complete
    ensures var r := Next(s, step);
      && r.complete && r.accepted == s.accepted && r.cache.(minMs := s.cache.minMs) == s.cache
      && (if step.Deliver? then r.pending == s.pending[1..] else r.pending == s.pending)
      && forall id :: id in s.log ==> id in r.log && (r.log[id] == s.log[id] || (step.Deliver? && id == s.pending[0]))
  {
    hide C.AllFrames, C.AddFrame, IndexOf, Fits;
  }

  // Once a session has ended, nothing is accepted any more, and when no delivery is pending no stream grows.
  lemma {:induction false} SilentAfterEnd<Id, Sub>(
    states: seq<Session<Id, Sub>>, steps: seq<Step<Id, Sub>>, i: nat, j: nat)
    requires IsRun(states, steps) && i <= j < |states| && states[i].complete
    ensures states[j].complete && states[j].accepted == states[i].accepted && |states[j].pending| <= |states[i].pending|
    ensures states[i].pending == [] ==>
      forall id :: id in states[i].log ==> id in states[j].log && states[j].log[id] == states[i].log[id]
    decreases j
  {
    hide Next, Wellformed;
    if i < j {
      SilentAfterEnd(states, steps, i, j - 1);
      assert states[j] == Next(states[j - 1], steps[j - 1]) by { assert states[j - 1 + 1] == Next(states[j - 1], steps[j - 1]); }
      EndedStep(states[j - 1], steps[j - 1]);
    }
  }
}
