/** The playlist writer and the file cleaner as objects, and the session that sends both the same events. */
module HlsTracers {
  import opened Hls
  import opened Options

  // The place of the first occurrence, or the end.
  method FindItem(list: seq<Item>, x: Item) returns (i: nat)
    ensures i <= |list| && x !in list[..i] && (i < |list| ==> list[i] == x)
  {
    i := 0;
    while i < |list| && list[i] != x
      invariant i <= |list| && x !in list[..i]
    {
      i := i + 1;
    }
  }

  // The list without what was found at `i`.
  lemma {:induction false} ErasedThere(list: seq<Item>, x: Item, i: nat)
    requires i <= |list| && x !in list[..i] && (i < |list| ==> list[i] == x)
    ensures Erased(list, x) == if i < |list| then list[..i] + list[i + 1..] else list
  {
    if i < |list| {
      ErasedAt(list[..i], x, list[i + 1..]);
      assert list == list[..i] + [x] + list[i + 1..];
    } else {
      ErasedAbsent(list, x);
    }
  }

  // How far the scan for the first fragment behind the first item goes.
  method ScanHeaders(list: seq<Item>) returns (it: nat)
    requires |list| > 1
    ensures it == NextFragment(list, 1)
  {
    it := 1;
    while it < |list| && list[it].header
      invariant 1 <= it <= |list| && NextFragment(list, 1) == NextFragment(list, it)
    {
      it := it + 1;
    }
  }

  class PlaylistWriter {
    var list: seq<Item>

    constructor ()
      ensures list == []
    {
      list := [];
    }

    method OnAddPlayitem(item: Option<Item>)
      modifies this
      ensures list == if item == None then old(list) else Next(old(list), Add(item.value))
    {
      if item == None { return; }
      list := list + [item.value];
    }

    method OnRemovePlayitem(item: Option<Item>)
      modifies this
      ensures list == if item == None then old(list) else Next(old(list), Remove(item.value))
    {
      if item == None { return; }
      var i := FindItem(list, item.value);
      ErasedThere(list, item.value, i);
      if i < |list| { list := list[..i] + list[i + 1..]; }
      RemoveUselessHeaders();
    }

    method OnUpdateHeader(item: Option<Item>)
      modifies this
      ensures list == if item == None then old(list) else Next(old(list), Header(item.value))
    {
      if item != None {
        list := list + [item.value];
        RemoveUselessHeaders();
      }
    }

    method RemoveUselessHeaders()
      modifies this
      ensures list == Cleaned(old(list))
    {
      assert list[0..] == list;
      if |list| <= 1 { return; }
      var it := ScanHeaders(list);
      if it < |list| && it != 1 { list := list[it - 1..]; }
    }
  }

  class FileCleaner {
    var list: seq<Item>
    var scheduled: seq<Item>

    constructor ()
      ensures list == [] && scheduled == []
    {
      list, scheduled := [], [];
    }

    method OnAddPlayitem(item: Option<Item>)
      modifies this
      ensures list == if item == None then old(list) else Next(old(list), Add(item.value))
      ensures scheduled == old(scheduled)
    {
      if item != None { list := list + [item.value]; }
    }

    method OnRemovePlayitem(item: Option<Item>)
      modifies this
      ensures list == if item == None then old(list) else Next(old(list), Remove(item.value))
      ensures scheduled == if item == None then old(scheduled) else old(scheduled) + Hls.Scheduled(old(list), Remove(item.value))
    {
      if item != None {
        hide Erased, Useless, Cleaned;
        var i := FindItem(list, item.value);
        ErasedThere(list, item.value, i);
        ghost var more := Erased(list, item.value)[..Useless(Erased(list, item.value))];
        assert scheduled + [item.value] + more == scheduled + ([item.value] + more);
        if i < |list| { list := list[..i] + list[i + 1..]; }
        scheduled := scheduled + [item.value];
        RemoveUselessHeaders();
      }
    }

    method OnUpdateHeader(item: Option<Item>)
      modifies this
      ensures list == if item == None then old(list) else Next(old(list), Header(item.value))
      ensures scheduled == if item == None then old(scheduled) else old(scheduled) + Hls.Scheduled(old(list), Header(item.value))
    {
      if item != None {
        list := list + [item.value];
        RemoveUselessHeaders();
      }
    }

    method RemoveUselessHeaders()
      modifies this
      ensures list == Cleaned(old(list)) && scheduled == old(scheduled) + old(list)[..Useless(old(list))]
    {
      assert list[0..] == list && scheduled + [] == scheduled;
      if |list| <= 1 { return; }
      var it := ScanHeaders(list);
      if it < |list| && it != 1 {
        var i := 0;
        while i != it - 1
          invariant i <= it - 1 && list == old(list) && scheduled == old(scheduled) + list[..i]
        {
          scheduled := scheduled + [list[i]];
          i := i + 1;
        }
        list := list[it - 1..];
      }
    }
  }

  // One session's tracers, told of every event one after the other.
  class Tracers {
    const writer: PlaylistWriter
    const cleaner: FileCleaner
    ghost var ops: seq<Op>

    ghost predicate Valid()
      reads this, writer, cleaner
    {
      Proper(ops) && writer.list == cleaner.list && State(cleaner.list, cleaner.scheduled) == Run(ops)
    }

    constructor ()
      ensures Valid() && ops == [] && fresh(writer) && fresh(cleaner)
    {
      writer := new PlaylistWriter();
      cleaner := new FileCleaner();
      ops := [];
    }

    // Both lists are equal, and nothing scheduled for deletion is in either.
    lemma {:induction false} Agreed()
      requires Valid()
      ensures writer.list == cleaner.list && forall x :: x in cleaner.scheduled ==> x !in writer.list
      ensures Hls.Entries(writer.list) == Without(Hls.Entries(Pushed(ops)), Removed(ops))
    {
      hide Next, Proper, Entries, Without, Pushed, Removed, Run;
      FragmentsKeepHeaders(ops);
    }

    method Tell(op: Op)
      requires Valid() && Proper(ops + [op])
      modifies this, writer, cleaner
      ensures Valid() && ops == old(ops) + [op]
    {
      assert (ops + [op])[..|ops|] == ops && cleaner.scheduled + [] == cleaner.scheduled;
      hide Next, Hls.Scheduled, Proper;
      match op {
        case Header(x) =>
          writer.OnUpdateHeader(Some(x));
          cleaner.OnUpdateHeader(Some(x));
        case Add(x) =>
          NothingScheduled(cleaner.list, x);
          writer.OnAddPlayitem(Some(x));
          cleaner.OnAddPlayitem(Some(x));
        case Remove(x) =>
          writer.OnRemovePlayitem(Some(x));
          cleaner.OnRemovePlayitem(Some(x));
      }
      ops := ops + [op];
    }
  }

  lemma {:induction false} NothingScheduled(list: seq<Item>, x: Item)
    ensures Hls.Scheduled(list, Add(x)) == []
  {
  }
}
