/** The publishing session as an object, one method for each atomic step of its protocol. */
module PublishSession {
  import opened Frames
  import opened FrameQueue
  import opened Options
  import C = GopCache
  import GQ = GopQueue
  import F = FanOut

  // One subscription; `receiving` says whether it was already handed its snapshot.
  class SubscriberItem<Sub(==)> {
    const sub: Sub
    var receiving: bool

    constructor (sub: Sub)
      ensures this.sub == sub && !receiving
    {
      this.sub := sub;
      receiving := false;
    }
  }

  ghost function Owners<Sub>(items: set<SubscriberItem<Sub>>): (m: map<SubscriberItem<Sub>, Sub>)
    ensures m.Keys == items && forall x :: x in items ==> m[x] == x.sub
  {
    map x | x in items :: x.sub
  }

  ghost function Receivers<Sub>(items: set<SubscriberItem<Sub>>): (r: set<SubscriberItem<Sub>>)
    reads items
    ensures r <= items && forall x :: x in items ==> (x in r <==> x.receiving)
  {
    set x | x in items && x.receiving
  }

  class PublishSession<Sub(==)> {
    const limits: F.Limits
    const gopsCache: GQ.GopQueue
    var complete: bool
    var subscribers: seq<SubscriberItem<Sub>>
    var frame: Option<Frame>
    var pending: seq<SubscriberItem<Sub>>
    ghost var items: set<SubscriberItem<Sub>>
    ghost var accepted: seq<Frame>
    ghost var log: map<SubscriberItem<Sub>, seq<Frame>>

    ghost function Value(): F.Session<SubscriberItem<Sub>, Sub>
      reads this, items, gopsCache, gopsCache.current, gopsCache.gops
    {
      F.Session(limits, gopsCache.Value(), complete, Owners(items), subscribers,
                Receivers(items), frame, pending, accepted, log)
    }

    ghost predicate Valid()
      reads this, items, gopsCache, gopsCache.current, gopsCache.gops
    {
      gopsCache.Valid() && F.Wellformed(Value())
    }

    constructor (limits: F.Limits)
      ensures Valid() && Value() == F.Start(limits)
      ensures fresh(gopsCache) && fresh(gopsCache.current) && fresh(gopsCache.gops)
    {
      this.limits := limits;
      gopsCache := new GQ.GopQueue();
      complete, subscribers, frame, pending := false, [], None, [];
      items, accepted, log := {}, [], map[];
      new;
      C.EmptyGood();
    }

    method Find(sub: Sub) returns (i: nat)
      requires forall x :: x in subscribers ==> x in items
      ensures i == F.IndexOf(Owners(items), subscribers, sub)
    {
      i := 0;
      ghost var owner := Owners(items);
      while i < |subscribers| && subscribers[i].sub != sub
        invariant i <= |subscribers|
        invariant F.IndexOf(owner, subscribers, sub) == i + F.IndexOf(owner, subscribers[i..], sub)
      {
        assert subscribers[i..][0] == subscribers[i] && subscribers[i..][1..] == subscribers[i + 1..];
        i := i + 1;
      }
    }

    // `item` is the new subscription, and null when `sub` was subscribed already.
    method AddSubscriber(sub: Sub) returns (ghost item: SubscriberItem?<Sub>)
      requires Valid()
      modifies this
      ensures Valid()
      ensures item == null ==>
        Value() == old(Value()) && F.IndexOf(Owners(items), subscribers, sub) < |subscribers|
      ensures item != null ==>
        fresh(item) && item !in old(items) && Value() == F.Next(old(Value()), F.Subscribe(sub, item))
    {
      hide C.GoodCache, C.AddFrame, C.AllFrames, GQ.Values, F.Fits, GQ.GopQueue.Value, GQ.GopQueue.Valid, Owners, Receivers;
      var i := Find(sub);
      if i != |subscribers| { return null; }
      item := Enlist(sub);
    }

    method Enlist(sub: Sub) returns (item: SubscriberItem<Sub>)
      requires Valid() && F.IndexOf(Owners(items), subscribers, sub) == |subscribers|
      modifies this
      ensures Valid() && fresh(item) && item !in old(items)
      ensures Value() == F.Next(old(Value()), F.Subscribe(sub, item))
    {
      hide F.Next, F.Wellformed, GQ.GopQueue.Value, GQ.GopQueue.Valid, Owners, Receivers;
      item := new SubscriberItem(sub);
      assert item !in items;
      Enlisted(Value(), sub, item);
      subscribers := subscribers + [item];
      items, log := items + {item}, log[item := []];
      assert Owners(items) == old(Owners(items))[item := sub];
      assert Receivers(items) == old(Receivers(items));
    }

    method RemoveSubscriber(sub: Sub)
      requires Valid()
      modifies this
      ensures Valid() && Value() == F.Next(old(Value()), F.Unsubscribe(sub))
    {
      hide C.GoodCache, C.AddFrame, C.AllFrames, GQ.Values, F.Fits, GQ.GopQueue.Value, GQ.GopQueue.Valid, Owners, Receivers;
      var i := Find(sub);
      if i != |subscribers| { subscribers := subscribers[..i] + subscribers[i + 1..]; }
    }

    method RemoveAllSubscribers()
      requires Valid()
      modifies this
      ensures Valid() && Value() == F.Next(old(Value()), F.RemoveAll)
    {
      hide C.GoodCache, C.AddFrame, C.AllFrames, GQ.Values, F.Fits, GQ.GopQueue.Value, GQ.GopQueue.Valid, Owners, Receivers;
      subscribers := [];
    }

    method Finish()
      requires Valid()
      modifies this
      ensures Valid() && Value() == F.Next(old(Value()), F.Finish)
    {
      hide C.GoodCache, C.AddFrame, C.AllFrames, GQ.Values, F.Fits, GQ.GopQueue.Value, GQ.GopQueue.Valid, Owners, Receivers;
      complete := true;
    }

    method ValidateCache() returns (ok: bool)
      requires gopsCache.Valid()
      ensures ok == F.Fits(limits, gopsCache.Value())
    {
      var bytes := gopsCache.Bytes();
      var duration := gopsCache.Duration();
      ok := bytes <= limits.maxBytes && duration <= limits.maxDuration;
    }

    method AddFrame(f: Frame) returns (added: bool)
      requires Valid()
      modifies this`accepted, gopsCache, gopsCache.current, gopsCache.gops
      ensures Valid()
      ensures var (cache, accepts) := C.AddFrame(old(Value()).cache, f);
        && added == accepts
        && Value() == old(Value()).(cache := cache, accepted := old(accepted) + (if added then [f] else []))
      ensures !added ==> Value() == old(Value())
    {
      hide C.GoodCache, C.AddFrame, C.AllFrames, GQ.Values, F.Fits, GQ.GopQueue.Value, GQ.GopQueue.Valid, Owners, Receivers;
      added := gopsCache.AddFrame(f);
      if added { accepted := accepted + [f]; }
    }

    // Take a frame in and, if the cache stays within its limits, start delivering it to everyone subscribed now.
    method PublishFrame(f: Frame)
      requires Valid() && pending == []
      modifies this, gopsCache, gopsCache.current, gopsCache.gops
      ensures Valid() && Value() == F.Next(old(Value()), F.Publish(f))
    {
      hide C.GoodCache, C.AddFrame, C.AllFrames, GQ.Values, F.Fits, GQ.GopQueue.Value, GQ.GopQueue.Valid, Owners, Receivers;
      if complete { return; }
      var added := AddFrame(f);
      if !added { return; }
      var ok := ValidateCache();
      if ok {
        frame, pending := Some(f), subscribers;
      } else {
        complete := true;
      }
    }

    // The whole cache for a subscription that has received nothing yet, the new frame for any other.
    method FramesFor(item: SubscriberItem<Sub>) returns (frames: seq<Frame>)
      requires frame.Some?
      ensures frames == if item.receiving then [frame.value] else C.AllFrames(gopsCache.Value())
    {
      hide C.AllFrames, GQ.GopQueue.Value;
      frames := [frame.value];
      if !item.receiving { frames := gopsCache.AllFrames(); }
    }

    // Hand the next pending subscription its frames: the whole cache the first time, the new frame after that.
    method DeliverNext() returns (frames: seq<Frame>)
      requires Valid() && pending != []
      modifies this, items
      ensures Valid() && Value() == F.Next(old(Value()), F.Deliver)
      ensures log[old(pending[0])] == old(log[pending[0]]) + frames
    {
      hide C.AllFrames, F.Next, F.Wellformed, GQ.GopQueue.Value, GQ.GopQueue.Valid, Owners, Receivers;
      Delivered(Value());
      var item := pending[0];
      frames := FramesFor(item);
      log := log[item := log[item] + frames];
      pending := pending[1..];
      item.receiving := true;
      assert Owners(items) == old(Owners(items));
      assert Receivers(items) == old(Receivers(items)) + {item};
    }
  }

  lemma {:induction false} Enlisted<Id, Sub>(s: F.Session<Id, Sub>, sub: Sub, id: Id)
    requires F.Wellformed(s) && id !in s.owner && F.IndexOf(s.owner, s.subscribers, sub) == |s.subscribers|
    ensures F.Wellformed(F.Next(s, F.Subscribe(sub, id)))
    ensures F.Next(s, F.Subscribe(sub, id)) ==
      s.(owner := s.owner[id := sub], subscribers := s.subscribers + [id], log := s.log[id := []])
  {
  }

  lemma {:induction false} Delivered<Id, Sub>(s: F.Session<Id, Sub>)
    requires F.Wellformed(s) && s.pending != []
    ensures s.frame.Some? && s.pending[0] in s.owner && s.pending[0] in s.log && F.Wellformed(F.Next(s, F.Deliver))
    ensures var id := s.pending[0];
      var frames := if id in s.receiving then [s.frame.value] else C.AllFrames(s.cache);
      F.Next(s, F.Deliver) ==
        s.(log := s.log[id := s.log[id] + frames], receiving := s.receiving + {id}, pending := s.pending[1..])
  {
  }
}
