/** The HLS playlist that two objects keep in step. */
module Hls {
  import opened Options

  datatype Item = Item(id: nat, header: bool)

  // The first fragment from index `i` on, or the end.
  function NextFragment(p: seq<Item>, i: nat): (k: nat)
    requires i <= |p|
    ensures i <= k <= |p| && (k < |p| ==> !p[k].header)
    ensures forall j :: i <= j < k ==> p[j].header
    decreases |p| - i
  {
    if i == |p| || !p[i].header then i else NextFragment(p, i + 1)
  }

  // How many items the header cleanup drops from the front: all but one in front of the first fragment behind the
  // first item.
  function Useless(p: seq<Item>): (n: nat)
    ensures n <= |p|
  {
    if |p| <= 1 then 0
    else
      var k := NextFragment(p, 1);
      if k == |p| || k == 1 then 0 else k - 1
  }

  function Cleaned(p: seq<Item>): seq<Item> { p[Useless(p)..] }

  // Without the first occurrence of `x`.
  function Erased(p: seq<Item>, x: Item): seq<Item> {
    if p == [] then [] else if p[0] == x then p[1..] else [p[0]] + Erased(p[1..], x)
  }

  datatype Op = Header(item: Item) | Add(item: Item) | Remove(item: Item)

  // Both playlists after one event.
  function Next(p: seq<Item>, op: Op): seq<Item> {
    match op
    case Header(x) => Cleaned(p + [x])
    case Add(x) => p + [x]
    case Remove(x) => Cleaned(Erased(p, x))
  }

  // The files whose deletion the cleaner schedules on one event.
  function Scheduled(p: seq<Item>, op: Op): seq<Item> {
    match op
    case Header(x) => (p + [x])[..Useless(p + [x])]
    case Add(_) => []
    case Remove(x) => [x] + Erased(p, x)[..Useless(Erased(p, x))]
  }

  datatype State = State(list: seq<Item>, scheduled: seq<Item>)

  function Run(ops: seq<Op>): State {
    if ops == [] then State([], [])
    else
      var s, op := Run(ops[..|ops| - 1]), ops[|ops| - 1];
      State(Next(s.list, op), s.scheduled + Scheduled(s.list, op))
  }

  // All items ever pushed, in order, and all removed.
  function Pushed(ops: seq<Op>): seq<Item> {
    if ops == [] then []
    else
      var init, op := Pushed(ops[..|ops| - 1]), ops[|ops| - 1];
      if op.Remove? then init else init + [op.item]
  }

  function Removed(ops: seq<Op>): set<Item> {
    if ops == [] then {}
    else
      var init, op := Removed(ops[..|ops| - 1]), ops[|ops| - 1];
      if op.Remove? then init + {op.item} else init
  }

  // Events as the session sends them: a header comes first, only fragments are removed, and a pushed item was not
  // seen before.
  predicate Proper(ops: seq<Op>) {
    ops == [] ||
    var init, op := ops[..|ops| - 1], ops[|ops| - 1];
    && Proper(init)
    && match op
       case Header(x) => x.header && x !in Pushed(init)
       case Add(x) => !x.header && init != [] && x !in Pushed(init) && x !in Removed(init)
       case Remove(x) => !x.header && init != []
  }

  // ---------------------------------------------------------------------------
  // What the playlist means: its fragments, each with the header that governs it

  datatype Entry = Entry(fragment: Item, header: Option<Item>)

  function LastHeader(p: seq<Item>): Option<Item> {
    if p == [] then None else if p[|p| - 1].header then Some(p[|p| - 1]) else LastHeader(p[..|p| - 1])
  }

  function Entries(p: seq<Item>): seq<Entry> {
    if p == [] then []
    else
      var init, x := p[..|p| - 1], p[|p| - 1];
      if x.header then Entries(init) else Entries(init) + [Entry(x, LastHeader(init))]
  }

  function Without(es: seq<Entry>, gone: set<Item>): seq<Entry> {
    if es == [] then []
    else
      var init, e := es[..|es| - 1], es[|es| - 1];
      if e.fragment in gone then Without(init, gone) else Without(init, gone) + [e]
  }

  predicate Unique(p: seq<Item>) { forall i, j :: 0 <= i < j < |p| ==> p[i] != p[j] }

  predicate HeaderFirst(p: seq<Item>) { p == [] || p[0].header }

  // ---------------------------------------------------------------------------
  // Header cleanup

  lemma {:induction false} DropHeaders(a: seq<Item>, b: seq<Item>)
    requires forall i :: 0 <= i < |a| ==> a[i].header
    requires b != [] && b[0].header
    ensures LastHeader(a + b) == LastHeader(b) && Entries(a + b) == Entries(b)
    decreases |b|
  {
    var init, x := b[..|b| - 1], b[|b| - 1];
    assert (a + b)[..|a + b| - 1] == a + init;
    if |b| > 1 {
      DropHeaders(a, init);
    } else {
      assert a + init == a && init == [];
      OnlyHeaders(a);
    }
  }

  lemma {:induction false} OnlyHeaders(a: seq<Item>)
    requires forall i :: 0 <= i < |a| ==> a[i].header
    ensures Entries(a) == []
    decreases |a|
  {
    if a != [] { OnlyHeaders(a[..|a| - 1]); }
  }

  // Where the list starts with a header, cleanup changes neither the fragments nor their headers.
  lemma {:induction false} CleanedKeeps(p: seq<Item>)
    requires HeaderFirst(p)
    ensures Entries(Cleaned(p)) == Entries(p) && LastHeader(Cleaned(p)) == LastHeader(p) && HeaderFirst(Cleaned(p))
  {
    hide Entries, LastHeader;
    var n := Useless(p);
    if n > 0 {
      assert p == p[..n] + p[n..];
      DropHeaders(p[..n], p[n..]);
    } else {
      assert p[0..] == p;
    }
  }

  // In general it drops a fragment exactly when the list starts with one, a header follows and another fragment
  // comes later.
  lemma {:induction false} CleanedDropsFragment(p: seq<Item>)
    ensures (exists i :: 0 <= i < Useless(p) && !p[i].header)
      <==> |p| > 1 && !p[0].header && p[1].header && NextFragment(p, 1) < |p|
  {
    if |p| > 1 && !p[0].header && p[1].header && NextFragment(p, 1) < |p| {
      assert NextFragment(p, 1) != 1 && 0 < Useless(p) && !p[0].header;
    }
  }

  lemma {:induction false} RunMore(ops: seq<Op>, op: Op)
    ensures Run(ops + [op]) == State(Next(Run(ops).list, op), Run(ops).scheduled + Scheduled(Run(ops).list, op))
  {
    assert (ops + [op])[..|ops|] == ops;
  }

  lemma {:induction false} TwoStored(f: Item, h: Item)
    requires !f.header && h.header
    ensures Run([Add(f), Header(h)]) == State([f, h], [])
  {
    var a := [Add(f)];
    assert Run([]) == State([], []);
    RunMore([], Add(f));
    RunMore(a, Header(h));
    hide Run;
    assert [] + a == a && a + [Header(h)] == [Add(f), Header(h)];
    TwoKept(f, h);
    hide Cleaned, Useless;
  }

  // A playlist that was started with a fragment loses it once two headers were sent.
  lemma {:induction false} FirstFragmentLost(f: Item, h: Item, g: Item, i: Item)
    requires !f.header && h.header && !g.header && i.header
    ensures Run([Add(f), Header(h), Add(g)]).list == [f, h, g]
    ensures Run([Add(f), Header(h), Add(g), Header(i)]) == State([h, g, i], [f])
  {
    hide Run, Cleaned, Useless;
    var b, c := [Add(f), Header(h)], [Add(f), Header(h), Add(g)];
    TwoStored(f, h);
    RunMore(b, Add(g));
    RunMore(c, Header(i));
    assert b + [Add(g)] == c && c + [Header(i)] == [Add(f), Header(h), Add(g), Header(i)];
    FirstDropped(f, h, g, i);
    assert [] + [f] == [f];
  }

  lemma {:induction false} TwoKept(f: Item, h: Item)
    requires h.header
    ensures [f] + [h] == [f, h] && Useless([f, h]) == 0 && Cleaned([f, h]) == [f, h]
  {
    assert [f, h][0..] == [f, h];
  }

  lemma {:induction false} FirstDropped(f: Item, h: Item, g: Item, i: Item)
    requires h.header && !g.header
    ensures [f, h] + [g] == [f, h, g] && [f, h, g] + [i] == [f, h, g, i]
    ensures Useless([f, h, g, i]) == 1 && Cleaned([f, h, g, i]) == [h, g, i] && [f, h, g, i][..1] == [f]
  {
    assert NextFragment([f, h, g, i], 1) == 2;
    assert [f, h, g, i][1..] == [h, g, i];
  }

  // Behind the first item nothing is left to clean: either a fragment comes second, or there is none there at all.
  lemma {:induction false} CleanedIsClean(p: seq<Item>)
    ensures var c := Cleaned(p); |c| > 1 && c[1].header ==> NextFragment(c, 1) == |c|
    ensures Cleaned(Cleaned(p)) == Cleaned(p)
  {
    var c, n := Cleaned(p), Useless(p);
    if n > 0 {
      assert |c| > 1 && c[1] == p[n + 1] && !c[1].header;
      assert c[0..] == c;
    } else {
      assert c == p && c[0..] == c;
    }
  }

  // ---------------------------------------------------------------------------
  // Removal

  lemma {:induction false} ErasedAt(a: seq<Item>, x: Item, b: seq<Item>)
    requires x !in a
    ensures Erased(a + [x] + b, x) == a + b
    decreases |a|
  {
    var p := a + [x] + b;
    if a == [] {
      assert p[1..] == b && a + b == b;
    } else {
      assert p[1..] == a[1..] + [x] + b;
      ErasedAt(a[1..], x, b);
    }
  }

  lemma {:induction false} ErasedAbsent(p: seq<Item>, x: Item)
    requires x !in p
    ensures Erased(p, x) == p
    decreases |p|
  {
    if p != [] { ErasedAbsent(p[1..], x); }
  }

  lemma {:induction false} LastHeaderWithout(a: seq<Item>, x: Item, b: seq<Item>)
    requires !x.header
    ensures LastHeader(a + [x] + b) == LastHeader(a + b)
    decreases |b|
  {
    if b == [] {
      assert a + [x] + b == a + [x] && a + b == a && (a + [x])[..|a|] == a;
    } else {
      var init := b[..|b| - 1];
      assert (a + [x] + b)[..|a| + |b|] == a + [x] + init && (a + b)[..|a| + |b| - 1] == a + init;
      LastHeaderWithout(a, x, init);
    }
  }

  lemma {:induction false} EntriesSnoc(p: seq<Item>, x: Item)
    ensures Entries(p + [x]) == if x.header then Entries(p) else Entries(p) + [Entry(x, LastHeader(p))]
    ensures LastHeader(p + [x]) == if x.header then Some(x) else LastHeader(p)
  {
    assert (p + [x])[..|p|] == p;
  }

  lemma {:induction false} WithoutSnoc(es: seq<Entry>, e: Entry, gone: set<Item>)
    ensures Without(es + [e], gone) == if e.fragment in gone then Without(es, gone) else Without(es, gone) + [e]
  {
    assert (es + [e])[..|es|] == es;
  }

  lemma {:induction false} FragmentsOf(p: seq<Item>, x: Item)
    requires x !in p
    ensures Without(Entries(p), {x}) == Entries(p)
    decreases |p|
  {
    if p != [] {
      var init, y := p[..|p| - 1], p[|p| - 1];
      FragmentsOf(init, x);
      if !y.header {
        var e := Entry(y, LastHeader(init));
        assert (Entries(init) + [e])[..|Entries(init)|] == Entries(init);
      }
    }
  }

  lemma {:induction false} EntriesWithout(a: seq<Item>, x: Item, b: seq<Item>)
    requires !x.header && x !in a && x !in b
    ensures Entries(a + b) == Without(Entries(a + [x] + b), {x})
    decreases |b|
  {
    if b == [] {
      assert a + [x] + b == a + [x] && a + b == a && (a + [x])[..|a|] == a;
      var e := Entry(x, LastHeader(a));
      assert (Entries(a) + [e])[..|Entries(a)|] == Entries(a);
      FragmentsOf(a, x);
    } else {
      var init, y := b[..|b| - 1], b[|b| - 1];
      EntriesWithout(a, x, init);
      LastHeaderWithout(a, x, init);
      assert a + [x] + b == a + [x] + init + [y] && a + b == a + init + [y];
      EntriesSnoc(a + [x] + init, y);
      EntriesSnoc(a + init, y);
      if !y.header { WithoutSnoc(Entries(a + [x] + init), Entry(y, LastHeader(a + init)), {x}); }
      hide Entries, LastHeader, Without;
    }
  }

  lemma {:induction false} Locate(p: seq<Item>, x: Item) returns (a: seq<Item>, b: seq<Item>)
    requires x in p && Unique(p)
    ensures p == a + [x] + b && x !in a && x !in b
  {
    var i :| 0 <= i < |p| && p[i] == x;
    a, b := p[..i], p[i + 1..];
  }

  // Removing a fragment removes it and nothing else.
  lemma {:induction false} ErasedKeeps(p: seq<Item>, x: Item)
    requires !x.header && Unique(p) && HeaderFirst(p)
    ensures Entries(Erased(p, x)) == Without(Entries(p), {x})
    ensures LastHeader(Erased(p, x)) == LastHeader(p) && HeaderFirst(Erased(p, x))
  {
    hide Entries, LastHeader, Without;
    if x in p {
      var a, b := Locate(p, x);
      ErasedAt(a, x, b);
      EntriesWithout(a, x, b);
      LastHeaderWithout(a, x, b);
      assert p[0] != x;
      assert a != [] && (a + b)[0] == p[0];
    } else {
      ErasedAbsent(p, x);
      FragmentsOf(p, x);
    }
  }

  // ---------------------------------------------------------------------------
  // Runs

  lemma {:induction false} WithoutMore(es: seq<Entry>, gone: set<Item>, x: Item)
    ensures Without(Without(es, gone), {x}) == Without(es, gone + {x})
    decreases |es|
  {
    if es != [] {
      var init, e := es[..|es| - 1], es[|es| - 1];
      WithoutMore(init, gone, x);
      var w := Without(init, gone);
      assert (w + [e])[..|w|] == w;
    }
  }

  // What is in the list after a removal.
  lemma {:induction false} ErasedWithin(p: seq<Item>, x: Item)
    requires Unique(p)
    ensures Unique(Erased(p, x)) && forall y :: y in Erased(p, x) <==> y in p && y != x
  {
    if x in p {
      var a, b := Locate(p, x);
      ErasedAt(a, x, b);
      forall y ensures y in a + b <==> y in p && y != x { assert p == a + [x] + b; }
      assert forall i :: 0 <= i < |a + b| ==> (a + b)[i] == p[if i < |a| then i else i + 1];
    } else {
      ErasedAbsent(p, x);
    }
  }

  // Cleanup splits the list in what stays and what is scheduled for deletion.
  lemma {:induction false} CleanedSplits(p: seq<Item>)
    requires Unique(p)
    ensures Unique(Cleaned(p)) && forall x :: x in p <==> (x in Cleaned(p) || x in p[..Useless(p)])
    ensures forall x :: x in Cleaned(p) ==> x !in p[..Useless(p)]
  {
    hide Useless;
    var n := Useless(p);
    assert p == p[..n] + p[n..];
  }

  // The list, the deletions and the history of a run fit together: the listed fragments are those pushed and not
  // removed, in order, each governed by the header that was pushed last before it; what was pushed is listed or
  // scheduled for deletion, and nothing scheduled is listed.
  predicate Inv(ops: seq<Op>) {
    var s := Run(ops);
    && HeaderFirst(s.list) && Unique(s.list)
    && Entries(s.list) == Without(Entries(Pushed(ops)), Removed(ops))
    && LastHeader(s.list) == LastHeader(Pushed(ops)) && (ops != [] ==> LastHeader(s.list) != None)
    && Placed(s, Pushed(ops), Removed(ops))
  }

  predicate Placed(s: State, pushed: seq<Item>, removed: set<Item>) {
    && (forall x :: x in s.list ==> x in pushed && x !in s.scheduled)
    && (forall x :: x in pushed ==> x in s.list || x in s.scheduled)
    && (forall x :: x in s.scheduled ==> x in pushed || x in removed)
    && (forall x :: x in removed ==> !x.header)
  }

  lemma {:induction false} PlacedHeader(s: State, pushed: seq<Item>, removed: set<Item>, x: Item)
    requires Placed(s, pushed, removed) && Unique(s.list) && x.header && x !in pushed
    ensures var op := Header(x);
      && Unique(Next(s.list, op))
      && Placed(State(Next(s.list, op), s.scheduled + Scheduled(s.list, op)), pushed + [x], removed)
  {
    hide Useless, Cleaned;
    CleanedSplits(s.list + [x]);
  }

  lemma {:induction false} PlacedAdd(s: State, pushed: seq<Item>, removed: set<Item>, x: Item)
    requires Placed(s, pushed, removed) && Unique(s.list) && !x.header && x !in pushed && x !in removed
    ensures Unique(s.list + [x]) && Placed(State(s.list + [x], s.scheduled + []), pushed + [x], removed)
  {
  }

  lemma {:induction false} Nothing()
    ensures Entries([]) == [] && Without([], {}) == [] && LastHeader([]) == None && Unique([]) && Placed(State([], []), [], {})
  {
  }

  lemma {:induction false} PlacedRemove(s: State, pushed: seq<Item>, removed: set<Item>, x: Item)
    requires Placed(s, pushed, removed) && Unique(s.list) && !x.header
    ensures var op := Remove(x);
      && Unique(Next(s.list, op))
      && Placed(State(Next(s.list, op), s.scheduled + Scheduled(s.list, op)), pushed, removed + {x})
  {
    hide Useless, Cleaned, Erased, Unique;
    ErasedWithin(s.list, x);
    CleanedSplits(Erased(s.list, x));
  }

  lemma {:induction false} HeaderStep(list: seq<Item>, pushed: seq<Item>, removed: set<Item>, x: Item)
    requires HeaderFirst(list) && x.header
    requires Entries(list) == Without(Entries(pushed), removed) && LastHeader(list) == LastHeader(pushed)
    ensures var p := Cleaned(list + [x]);
      HeaderFirst(p) && Entries(p) == Without(Entries(pushed + [x]), removed) && LastHeader(p) == LastHeader(pushed + [x])
  {
    hide Entries, LastHeader, Without, Cleaned;
    EntriesSnoc(list, x);
    EntriesSnoc(pushed, x);
    CleanedKeeps(list + [x]);
  }

  lemma {:induction false} AddStep(list: seq<Item>, pushed: seq<Item>, removed: set<Item>, x: Item)
    requires !x.header && x !in removed
    requires Entries(list) == Without(Entries(pushed), removed) && LastHeader(list) == LastHeader(pushed)
    ensures Entries(list + [x]) == Without(Entries(pushed + [x]), removed) && LastHeader(list + [x]) == LastHeader(pushed + [x])
  {
    hide Entries, LastHeader, Without;
    EntriesSnoc(list, x);
    EntriesSnoc(pushed, x);
    WithoutSnoc(Entries(pushed), Entry(x, LastHeader(pushed)), removed);
  }

  lemma {:induction false} RemoveStep(list: seq<Item>, pushed: seq<Item>, removed: set<Item>, x: Item)
    requires HeaderFirst(list) && Unique(list) && !x.header
    requires Entries(list) == Without(Entries(pushed), removed) && LastHeader(list) == LastHeader(pushed)
    ensures var p := Cleaned(Erased(list, x));
      HeaderFirst(p) && Entries(p) == Without(Entries(pushed), removed + {x}) && LastHeader(p) == LastHeader(pushed)
  {
    hide Entries, LastHeader, Without, Cleaned, Unique;
    ErasedKeeps(list, x);
    CleanedKeeps(Erased(list, x));
    WithoutMore(Entries(pushed), removed, x);
  }

  lemma {:induction false} RunKeeps(ops: seq<Op>)
    requires Proper(ops)
    ensures Inv(ops)
    decreases |ops|
  {
    hide Entries, LastHeader, Without, Cleaned, Erased, Unique, Placed;
    if ops == [] {
      Nothing();
    } else {
      var init, op := ops[..|ops| - 1], ops[|ops| - 1];
      RunKeeps(init);
      var s, pushed, removed := Run(init), Pushed(init), Removed(init);
      match op
      case Header(x) =>
        PlacedHeader(s, pushed, removed, x);
        HeaderStep(s.list, pushed, removed, x);
        EntriesSnoc(pushed, x);
      case Add(x) =>
        PlacedAdd(s, pushed, removed, x);
        AddStep(s.list, pushed, removed, x);
        EntriesSnoc(pushed, x);
        Nothing();
      case Remove(x) =>
        PlacedRemove(s, pushed, removed, x);
        RemoveStep(s.list, pushed, removed, x);
    }
  }

  // As long as fragments are removed and headers come first, every listed fragment keeps its header.
  lemma {:induction false} FragmentsKeepHeaders(ops: seq<Op>)
    requires Proper(ops)
    ensures Entries(Run(ops).list) == Without(Entries(Pushed(ops)), Removed(ops))
    ensures forall x :: x in Run(ops).scheduled ==> x !in Run(ops).list
    ensures forall x :: x in Pushed(ops) ==> x in Run(ops).list || x in Run(ops).scheduled
  {
    hide Entries, Without, Run, Pushed, Removed, Proper;
    RunKeeps(ops);
  }
}
