/** A publisher and its subscribers, under every interleaving. */
module FanOut {
  import opened Frames
  import C = GopCache
  import opened GopHistory
  import opened Options

  datatype Limits = Limits(maxBytes: nat, maxDuration: int)

  // `Id` identifies a subscription (one item in the publisher's list), `Sub` the subscriber behind it.
  // `pending` lists the subscriptions a publish still has to deliver `frame` to. `accepted` is the history of frames
  // the cache took in, and `log` what each subscription was handed so far.
  datatype Session<Id(==), Sub(==)> = Session(
    limits: Limits,
    cache: C.Cache,
    complete: bool,
    owner: map<Id, Sub>,
    subscribers: seq<Id>,
    receiving: set<Id>,
    frame: Option<Frame>,
    pending: seq<Id>,
    accepted: seq<Frame>,
    log: map<Id, seq<Frame>>)

  datatype Step<Id, Sub> =
    | Subscribe(sub: Sub, id: Id)   // `id` is new
    | Unsubscribe(sub: Sub)
    | Publish(f: Frame)             // only when no delivery is pending
    | Deliver                       // to the first pending subscription
    | SetMinimum(ms: int)
    | Finish                        // done, failed or cancelled from outside
    | RemoveAll

  predicate Wellformed<Id, Sub>(s: Session<Id, Sub>) {
    && C.GoodCache(s.cache)
    && s.owner.Keys == s.log.Keys
    && (forall id :: id in s.subscribers ==> id in s.owner)
    && (forall id :: id in s.pending ==> id in s.owner)
    && s.receiving <= s.owner.Keys
    && (s.pending != [] ==> s.frame.Some?)
  }

  predicate Fits(limits: Limits, c: C.Cache) {
    C.Bytes(c) <= limits.maxBytes && C.Duration(c) <= limits.maxDuration
  }

  function IndexOf<Id, Sub(==)>(owner: map<Id, Sub>, subscribers: seq<Id>, sub: Sub): (i: nat)
    requires forall id :: id in subscribers ==> id in owner
    ensures i <= |subscribers|
    ensures i < |subscribers| ==> owner[subscribers[i]] == sub
  {
    if subscribers == [] then 0
    else if owner[subscribers[0]] == sub then 0
    else 1 + IndexOf(owner, subscribers[1..], sub)
  }

  predicate Enabled<Id, Sub>(s: Session<Id, Sub>, step: Step<Id, Sub>) {
    match step
    case Subscribe(_, id) => id !in s.owner
    case Publish(_) => s.pending == []
    case Deliver => s.pending != []
    case _ => true
  }

  function Next<Id, Sub(==)>(s: Session<Id, Sub>, step: Step<Id, Sub>): (r: Session<Id, Sub>)
    requires Wellformed(s) && Enabled(s, step)
    ensures Wellformed(r)
  {
    match step
    case Subscribe(sub, id) =>
      if IndexOf(s.owner, s.subscribers, sub) < |s.subscribers| then s
      else s.(owner := s.owner[id := sub], subscribers := s.subscribers + [id], log := s.log[id := []])
    case Unsubscribe(sub) =>
      var i := IndexOf(s.owner, s.subscribers, sub);
      if i < |s.subscribers| then s.(subscribers := s.subscribers[..i] + s.subscribers[i + 1..]) else s
    case Publish(f) =>
      if s.complete then s
      else
        var (cache, added) := C.AddFrame(s.cache, f);
        if !added then s
        else if Fits(s.limits, cache) then
          s.(cache := cache, accepted := s.accepted + [f], frame := Some(f), pending := s.subscribers)
        else s.(cache := cache, accepted := s.accepted + [f], complete := true)
    case Deliver =>
      var id := s.pending[0];
      var frames := if id in s.receiving then [s.frame.value] else C.AllFrames(s.cache);
      s.(log := s.log[id := s.log[id] + frames], receiving := s.receiving + {id}, pending := s.pending[1..])
    case SetMinimum(ms) => s.(cache := s.cache.(minMs := ms))
    case Finish => s.(complete := true)
    case RemoveAll => s.(subscribers := [])
  }

  function Start<Id, Sub>(limits: Limits): (s: Session<Id, Sub>)
    ensures Wellformed(s)
  {
    C.EmptyGood();
    Session(limits, C.EMPTY_CACHE, false, map[], [], {}, None, [], [], map[])
  }

  // A run: the states passed through by enabled steps, in any order.
  ghost predicate IsRun<Id, Sub>(states: seq<Session<Id, Sub>>, steps: seq<Step<Id, Sub>>) {
    && |states| == |steps| + 1
    && (exists limits :: states[0] == Start(limits))
    && (forall i :: 0 <= i < |states| ==> Wellformed(states[i]))
    && (forall i :: 0 <= i < |steps| ==> Enabled(states[i], steps[i]) && states[i + 1] == Next(states[i], steps[i]))
  }

  // ---------------------------------------------------------------------------
  // The invariant

  predicate Distinct<T(==)>(s: seq<T>) { forall i, j :: 0 <= i < j < |s| ==> s[i] != s[j] }

  // The stream of `id` is, to its receiver, the last part of some prefix of the accepted history; while the
  // subscription is being served it keeps up with the cache, or will with the frame in flight.
  ghost predicate Served<Id, Sub>(s: Session<Id, Sub>, id: Id)
    requires Wellformed(s) && id in s.owner
  {
    var stream, n := s.log[id], |s.accepted|;
    if id !in s.receiving then stream == []
    else
      && StartsWithMeta(stream)
      && (exists k :: 0 <= k <= n && SuffixOfPrefix(stream, s.accepted, k))
      && (id in s.pending ==> Tracks(stream + [s.frame.value], s.cache, s.accepted))
      && (id in s.subscribers && id !in s.pending && !s.complete ==> Tracks(stream, s.cache, s.accepted))
  }

  ghost predicate SuffixOfPrefix(stream: seq<Frame>, h: seq<Frame>, k: nat)
    requires k <= |h|
  {
    IsSuffix(Entries(NOTHING, stream), Entries(NOTHING, h[..k]))
  }

  ghost predicate Inv<Id, Sub>(s: Session<Id, Sub>) {
    && Wellformed(s)
    && Faithful(s.cache, s.accepted)
    && Distinct(s.subscribers) && Distinct(s.pending)
    && (s.pending != [] ==>
          s.accepted != [] && s.frame == Some(s.accepted[|s.accepted| - 1]) && C.AllFrames(s.cache) != [])
    && (forall id :: id in s.owner ==> Served(s, id))
  }

  // ---------------------------------------------------------------------------
  // Every step keeps the invariant

  // A sequence that keeps up with the cache still does after the cache took in `f` and dropped what it could.
  lemma {:induction false} TracksAdded(s: seq<Frame>, c: C.Cache, h: seq<Frame>, f: Frame)
    requires C.GoodCache(c) && C.Accepts(c, f) && Tracks(s, c, h) && Tracks(h, c, h)
    ensures Tracks(s + [f], C.AddFrame(c, f).0, h + [f])
  {
    hide Tracks;
    TracksPushed(s, c, h, f);
    C.PushedGood(c, f);
    TracksUpdated(s + [f], C.Pushed(c, f), h + [f]);
  }

  lemma {:induction false} IndexOfDistinct<Id, Sub>(s: Session<Id, Sub>, i: nat)
    requires Distinct(s.subscribers) && i < |s.subscribers|
    ensures var t := s.subscribers[..i] + s.subscribers[i + 1..];
            Distinct(t) && forall id :: id in t ==> id in s.subscribers
  {
  }

  lemma {:induction false} PrefixKept<Id, Sub>(stream: seq<Frame>, h: seq<Frame>, f: Frame)
    requires exists k :: 0 <= k <= |h| && SuffixOfPrefix(stream, h, k)
    ensures exists k :: 0 <= k <= |h + [f]| && SuffixOfPrefix(stream, h + [f], k)
  {
    var k :| 0 <= k <= |h| && SuffixOfPrefix(stream, h, k);
    assert (h + [f])[..k] == h[..k];
    assert SuffixOfPrefix(stream, h + [f], k);
  }

  lemma {:induction false} TracksIsSuffix(stream: seq<Frame>, c: C.Cache, h: seq<Frame>)
    requires Tracks(stream, c, h)
    ensures exists k :: 0 <= k <= |h| && SuffixOfPrefix(stream, h, k)
  {
    assert h[..|h|] == h;
    assert SuffixOfPrefix(stream, h, |h|);
  }

  lemma {:induction false} PublishKeeps<Id, Sub>(s: Session<Id, Sub>, f: Frame)
    requires Inv(s) && s.pending == [] && !s.complete && C.Accepts(s.cache, f)
    ensures Inv(Next(s, Publish(f)))
  {
    hide Tracks, SuffixOfPrefix, Faithful, Served, C.GoodCache, C.Accepts;
    var r := Next(s, Publish(f));
    AddedFaithful(s.cache, s.accepted, f);
    FaithfulParts(r.cache, r.accepted);
    AcceptedNonEmpty(s.cache, s.accepted, f);
    forall id | id in r.owner ensures Served(r, id) { PublishServes(s, f, id); }
  }

  lemma {:induction false} PublishServes<Id, Sub>(s: Session<Id, Sub>, f: Frame, id: Id)
    requires Inv(s) && s.pending == [] && !s.complete && C.Accepts(s.cache, f) && id in s.owner
    ensures Wellformed(Next(s, Publish(f))) && Served(Next(s, Publish(f)), id)
  {
    hide Tracks, SuffixOfPrefix, Faithful, StartsWithMeta, C.GoodCache, C.Accepts;
    var r := Next(s, Publish(f));
    AddedFaithful(s.cache, s.accepted, f);
    FaithfulParts(s.cache, s.accepted);
    FaithfulParts(r.cache, r.accepted);
    assert Served(s, id);
    if id in s.receiving {
      PrefixKept<Id, Sub>(s.log[id], s.accepted, f);
      if id in r.pending { TracksAdded(s.log[id], s.cache, s.accepted, f); }
    }
  }

  lemma {:induction false} FaithfulParts(c: C.Cache, h: seq<Frame>)
    requires Faithful(c, h)
    ensures C.GoodCache(c) && Tracks(h, c, h) && Tracks(C.AllFrames(c), c, h)
    ensures C.AllFrames(c) != [] ==> StartsWithMeta(C.AllFrames(c))
  {
    EmptyStart(c);
  }

  lemma {:induction false} AcceptedNonEmpty(c: C.Cache, h: seq<Frame>, f: Frame)
    requires Faithful(c, h) && C.Accepts(c, f)
    ensures C.AllFrames(C.AddFrame(c, f).0) != []
  {
    AddedFaithful(c, h, f);
    TracksAdded(C.AllFrames(c), c, h, f);
    AddedCurrent(c, f);
  }

  lemma {:induction false} AddedCurrent(c: C.Cache, f: Frame)
    requires C.GoodCache(c) && C.Accepts(c, f)
    ensures C.AddFrame(c, f).0.current.frames != []
  {
    C.PushedGood(c, f);
    UpdatedCurrent(C.Pushed(c, f));
  }

  lemma {:induction false} UpdatedCurrent(c: C.Cache)
    requires C.GoodCache(c) && c.current.frames != []
    ensures C.UpdateGop(c).current.frames != []
    decreases |c.gops|
  {
    if C.SecondGop(c).frames != [] && C.MayPop(c) {
      C.PopGopGood(c);
      C.PopGopLinked(c);
      UpdatedCurrent(C.PopGop(c));
    }
  }

  lemma {:induction false} DeliverKeeps<Id, Sub>(s: Session<Id, Sub>)
    requires Inv(s) && s.pending != []
    ensures Inv(Next(s, Deliver))
  {
    hide Tracks, SuffixOfPrefix, Faithful, C.GoodCache;
    var r, done := Next(s, Deliver), s.pending[0];
    FaithfulParts(s.cache, s.accepted);
    assert s.pending == [done] + s.pending[1..];
    forall id | id in r.owner ensures Served(r, id) {
      assert Served(s, id);
      if id == done {
        var stream := if id in s.receiving then s.log[id] + [s.frame.value] else C.AllFrames(s.cache);
        assert [] + C.AllFrames(s.cache) == C.AllFrames(s.cache);
        assert r.log[id] == stream;
        TracksIsSuffix(stream, s.cache, s.accepted);
      }
    }
  }

  lemma {:induction false} SetMinKeeps<Id, Sub>(s: Session<Id, Sub>, ms: int)
    requires Inv(s)
    ensures Inv(Next(s, SetMinimum(ms)))
  {
    var r := Next(s, SetMinimum(ms));
    forall id | id in r.owner ensures Served(r, id) {
      assert Served(s, id);
    }
  }

  lemma {:induction false} MembershipKeeps<Id, Sub>(s: Session<Id, Sub>, step: Step<Id, Sub>)
    requires Inv(s) && Enabled(s, step)
    requires step.Subscribe? || step.Unsubscribe? || step.Finish? || step.RemoveAll?
    ensures Inv(Next(s, step))
  {
    hide Tracks, SuffixOfPrefix, Faithful, C.GoodCache;
    var r := Next(s, step);
    if step.Unsubscribe? {
      var i := IndexOf(s.owner, s.subscribers, step.sub);
      if i < |s.subscribers| { IndexOfDistinct(s, i); }
    }
    forall id | id in r.owner ensures Served(r, id) {
      if id in s.owner { assert Served(s, id); }
    }
  }

  lemma {:induction false} StepKeeps<Id, Sub>(s: Session<Id, Sub>, step: Step<Id, Sub>)
    requires Inv(s) && Enabled(s, step)
    ensures Inv(Next(s, step))
  {
    match step
    case Publish(f) => if !s.complete && C.Accepts(s.cache, f) { PublishKeeps(s, f); }
    case Deliver => DeliverKeeps(s);
    case SetMinimum(ms) => SetMinKeeps(s, ms);
    case _ => MembershipKeeps(s, step);
  }

  lemma {:induction false} StartInv<Id, Sub>(limits: Limits)
    ensures Inv<Id, Sub>(Start(limits))
  {
    C.EmptyGood();
    RunFaithful([]);
    assert Run([]) == Past(C.EMPTY_CACHE, []);
  }

  // The invariant holds in every state of every run.
  lemma {:induction false} RunKeeps<Id, Sub>(states: seq<Session<Id, Sub>>, steps: seq<Step<Id, Sub>>, i: nat)
    requires IsRun(states, steps) && i < |states|
    ensures Inv(states[i])
  {
    if i == 0 {
      var limits :| states[0] == Start(limits);
      StartInv<Id, Sub>(limits);
    } else {
      RunKeeps(states, steps, i - 1);
      StepKeeps(states[i - 1], steps[i - 1]);
      assert states[i - 1 + 1] == Next(states[i - 1], steps[i - 1]);
    }
  }

  // ---------------------------------------------------------------------------
  // Main results

  // At any point of any run: a stream that was handed anything starts with metadata; its media frames are, in order
  // and without a gap, the last ones of some prefix of the accepted history, each with its own metadata before it in
  // the stream and every inter frame with its own keyframe before it in the stream.
  lemma {:induction false} StreamsDecodable<Id, Sub>(
    states: seq<Session<Id, Sub>>, steps: seq<Step<Id, Sub>>, i: nat, id: Id) returns (k: nat)
    requires IsRun(states, steps) && i < |states| && id in states[i].log && states[i].log[id] != []
    ensures k <= |states[i].accepted|
    ensures var stream, h := states[i].log[id], states[i].accepted[..k];
      && StartsWithMeta(stream)
      && IsSuffix(Entries(NOTHING, stream), Entries(NOTHING, h))
      && IsSuffix(MediaFrames(stream), MediaFrames(h))
      && AllDecodable(Entries(NOTHING, stream))
  {
    RunKeeps(states, steps, i);
    hide Inv, SuffixOfPrefix, Entries, MediaFrames, AllDecodable, IsSuffix, StartsWithMeta;
    k := ServedUpTo(states[i], id);
    PrefixDecodable(states[i].log[id], states[i].accepted, k);
  }

  lemma {:induction false} ServedUpTo<Id, Sub>(s: Session<Id, Sub>, id: Id) returns (k: nat)
    requires Inv(s) && id in s.log && s.log[id] != []
    ensures k <= |s.accepted| && SuffixOfPrefix(s.log[id], s.accepted, k)
    ensures StartsWithMeta(s.log[id]) && AllDecodable(Entries(NOTHING, s.accepted))
  {
    hide Tracks, Entries, AllDecodable, SuffixOfPrefix, StartsWithMeta, C.GoodCache, IsSuffix;
    assert Served(s, id);
    k :| 0 <= k <= |s.accepted| && SuffixOfPrefix(s.log[id], s.accepted, k);
  }

  lemma {:induction false} PrefixDecodable(stream: seq<Frame>, accepted: seq<Frame>, k: nat)
    requires k <= |accepted| && SuffixOfPrefix(stream, accepted, k) && AllDecodable(Entries(NOTHING, accepted))
    ensures IsSuffix(Entries(NOTHING, stream), Entries(NOTHING, accepted[..k]))
    ensures IsSuffix(MediaFrames(stream), MediaFrames(accepted[..k]))
    ensures AllDecodable(Entries(NOTHING, stream))
  {
    hide Entries, MediaFrames, AllDecodable, IsSuffix;
    EntriesConcat(NOTHING, accepted[..k], accepted[k..]);
    assert accepted[..k] + accepted[k..] == accepted;
    var x, y := Entries(NOTHING, stream), Entries(NOTHING, accepted[..k]);
    SuffixDecodable(x, y, Entries(After(NOTHING, accepted[..k]), accepted[k..]));
    EntriesAreMediaFrames(NOTHING, stream);
    EntriesAreMediaFrames(NOTHING, accepted[..k]);
    SuffixOfMedia(x, y);
  }

  lemma {:induction false} SuffixDecodable(x: seq<Entry>, y: seq<Entry>, rest: seq<Entry>)
    requires IsSuffix(x, y) && AllDecodable(y + rest)
    ensures AllDecodable(x)
  {
    forall j | 0 <= j < |x| ensures x[j].Decodable() {
      assert x[j] == y[|y| - |x| + j] == (y + rest)[|y| - |x| + j];
    }
  }

  // The stream of `id` is `snapshot` and then the accepted frames from number `from` up to number `upto`; a
  // subscription being served has been handed all of them, or lacks just the frame in flight.
  ghost predicate CaughtUp<Id, Sub>(s: Session<Id, Sub>, id: Id, snapshot: seq<Frame>, from: nat, upto: nat)
    requires id in s.log
  {
    && from <= upto <= |s.accepted|
    && s.log[id] == snapshot + s.accepted[from..upto]
    && (id in s.pending ==> upto == |s.accepted| - 1)
    && (id in s.subscribers && id !in s.pending && !s.complete ==> upto == |s.accepted|)
  }

  lemma {:induction false} DeliverCatchesUp<Id, Sub>(
    s: Session<Id, Sub>, id: Id, snapshot: seq<Frame>, from: nat, upto: nat) returns (upto': nat)
    requires Wellformed(s) && Distinct(s.pending) && s.pending != [] && id in s.receiving
    requires s.accepted != [] && s.frame == Some(s.accepted[|s.accepted| - 1])
    requires CaughtUp(s, id, snapshot, from, upto)
    ensures CaughtUp(Next(s, Deliver), id, snapshot, from, upto')
  {
    hide C.GoodCache;
    assert s.pending == [s.pending[0]] + s.pending[1..];
    upto' := upto;
    if s.pending[0] == id {
      upto' := upto + 1;
      assert s.accepted[from..upto'] == s.accepted[from..upto] + [s.frame.value];
    }
  }

  lemma {:induction false} OthersKeepUp<Id, Sub>(
    s: Session<Id, Sub>, step: Step<Id, Sub>, id: Id, snapshot: seq<Frame>, from: nat, upto: nat)
    requires Wellformed(s) && Enabled(s, step) && !step.Deliver? && id in s.receiving
    requires CaughtUp(s, id, snapshot, from, upto)
    ensures CaughtUp(Next(s, step), id, snapshot, from, upto)
  {
    hide C.GoodCache;
    var r := Next(s, step);
    assert r.accepted[from..upto] == s.accepted[from..upto];
  }

  // At any point of any run, each delivered stream is exactly the cache as of the subscription's first delivery,
  // followed by every frame accepted later, each once and in order: up to the newest one for a subscription being
  // served, and up to the point where serving stopped for any other.
  lemma {:induction false} StreamShape<Id, Sub>(
    states: seq<Session<Id, Sub>>, steps: seq<Step<Id, Sub>>, i: nat, id: Id) returns (first: nat, upto: nat)
    requires IsRun(states, steps) && i < |states| && id in states[i].receiving && id in states[i].log
    ensures first < i && steps[first].Deliver? && states[first].pending != [] && states[first].pending[0] == id
    ensures id !in states[first].receiving
    ensures CaughtUp(states[i], id, C.AllFrames(states[first].cache), |states[first].accepted|, upto)
  {
    hide Next, CaughtUp;
    if i == 0 {
      assert false;
    } else {
      var s, step := states[i - 1], steps[i - 1];
      assert states[i] == states[i - 1 + 1] == Next(s, step);
      RunKeeps(states, steps, i - 1);
      if id in s.receiving {
        first, upto := StreamShape(states, steps, i - 1, id);
        var snapshot, from := C.AllFrames(states[first].cache), |states[first].accepted|;
        if step.Deliver? {
          upto := DeliverCatchesUp(s, id, snapshot, from, upto);
        } else {
          OthersKeepUp(s, step, id, snapshot, from, upto);
        }
      } else {
        OnlyDeliveryStarts(s, step, id);
        first, upto := i - 1, |s.accepted|;
      }
    }
  }

  lemma {:induction false} OnlyDeliveryStarts<Id, Sub>(s: Session<Id, Sub>, step: Step<Id, Sub>, id: Id)
    requires Inv(s) && Enabled(s, step) && id !in s.receiving && id in Next(s, step).receiving
    ensures step.Deliver? && s.pending[0] == id
    ensures CaughtUp(Next(s, step), id, C.AllFrames(s.cache), |s.accepted|, |s.accepted|)
  {
    hide C.GoodCache, Faithful;
    assert Served(s, id);
    assert s.pending == [id] + s.pending[1..];
    assert s.accepted[|s.accepted|..|s.accepted|] == [];
  }
}
