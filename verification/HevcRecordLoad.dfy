/** Reading HEVC decoder configuration records: units copied one behind the other into the arena of the store. */
module HevcRecordLoad {
  import opened Bytes
  import opened Arena
  import opened AvcRecord
  import opened AvcRecordCodec
  import opened HevcRecord
  import opened Options
  import H = HevcStore

  lemma {:induction false} BeforeBefore(a: seq<Unit>, b: seq<Unit>, g: Option<Got>)
    ensures HevcRecord.Before(a, HevcRecord.Before(b, g)) == HevcRecord.Before(a + b, g)
    ensures g == None ==> HevcRecord.Before(a, g) == None
    ensures g.Some? ==> HevcRecord.Before(a, g).Some? && (g.value.units == [] ==> HevcRecord.Before(a, g) == Some(g.value.(units := a)))
  {
    if g.Some? {
      assert a + (b + g.value.units) == a + b + g.value.units;
      assert a + [] == a;
    }
  }

  lemma {:induction false} NothingBefore(g: Option<Got>)
    ensures HevcRecord.Before([], g) == g
  {
    if g.Some? { assert [] + g.value.units == g.value.units; }
  }

  // What the inner loop does at position `j`.
  lemma {:induction false} ArrayAt(data: bytes, j: nat, head: byte, n: nat, count: nat, used: nat)
    requires j <= |data|
    ensures LoadArray(data[j..], head, n, count, used) ==
      if n == 0 then Some(Got([], data[j..], used))
      else if count >= MAX_UNITS || j + 2 > |data| then None
      else
        var k := Read16(data[j..j + 2]);
        if j + 2 + k > |data| || used + k > ARENA then None
        else HevcRecord.Before([Unit(head as nat % 64, head as nat / 128, data[j + 2..j + 2 + k])],
          LoadArray(data[j + 2 + k..], head, n - 1, count + 1, used + k))
  {
    hide Read16, HevcRecord.Before;
    var d := data[j..];
    if n > 0 && j + 2 <= |data| {
      assert d[..2] == data[j..j + 2];
      var k := Read16(data[j..j + 2]);
      if j + 2 + k <= |data| { assert d[2..2 + k] == data[j + 2..j + 2 + k] && d[2 + k..] == data[j + 2 + k..]; }
    }
  }

  lemma {:induction false} ArraysAt(data: bytes, j: nat, arrays: nat, count: nat, used: nat)
    requires j <= |data|
    ensures LoadArrays(data[j..], arrays, count, used) ==
      if arrays == 0 then Some(Got([], data[j..], used))
      else if j + 3 > |data| then None
      else
        match LoadArray(data[j + 3..], data[j], Read16(data[j + 1..j + 3]), count, used)
        case None => None
        case Some(g) => HevcRecord.Before(g.units, LoadArrays(g.rest, arrays - 1, count + Read16(data[j + 1..j + 3]), g.used))
  {
    hide Read16, HevcRecord.Before, LoadArray;
    var d := data[j..];
    if arrays > 0 && j + 3 <= |data| { assert d[1..3] == data[j + 1..j + 3] && d[3..] == data[j + 3..]; }
  }

  lemma {:induction false} ZipSnoc(tags: seq<H.Tag>, parts: seq<bytes>, tag: H.Tag, x: bytes)
    requires |tags| == |parts|
    ensures H.Zip(tags + [tag], parts + [x]) == H.Zip(tags, parts) + [Unit(tag.kind, tag.complete, x)]
  {
  }

  // What was loaded so far.
  ghost predicate Loaded(arena: bytes, tags: seq<H.Tag>, slices: seq<Slice>, p: nat, us: seq<Unit>) {
    && |arena| == ARENA && p <= ARENA && |tags| == |slices| && Consecutive(slices, 0, p) && Inside(slices, ARENA)
    && H.Zip(tags, Contents(arena, slices)) == us
  }

  method AddUnit(arena: array<byte>, tags: seq<H.Tag>, slices: seq<Slice>, p: nat, tag: H.Tag, x: bytes, ghost us: seq<Unit>)
    returns (tags': seq<H.Tag>, slices': seq<Slice>)
    requires Loaded(arena[..], tags, slices, p, us) && p + |x| <= ARENA
    modifies arena
    ensures Loaded(arena[..], tags', slices', p + |x|, us + [Unit(tag.kind, tag.complete, x)]) && |slices'| == |slices| + 1
  {
    hide Consecutive, H.Zip;
    ghost var parts := Contents(arena[..], slices);
    slices' := AppendUnit(arena, slices, 0, p, x);
    tags' := tags + [tag];
    ZipSnoc(tags, parts, tag, x);
  }

  method LoadOneArray(data: bytes, start: nat, head: byte, n: nat, arena: array<byte>, tags: seq<H.Tag>, slices: seq<Slice>,
                      from: nat, ghost us: seq<Unit>)
    returns (ok: bool, tags': seq<H.Tag>, slices': seq<Slice>, j: nat, p: nat, ghost us': seq<Unit>)
    requires start <= |data| && Loaded(arena[..], tags, slices, from, us)
    modifies arena
    ensures ok <==> LoadArray(data[start..], head, n, |slices|, from).Some?
    ensures ok ==> start <= j <= |data| && |slices'| == |slices| + n
    ensures ok ==> us <= us' && Loaded(arena[..], tags', slices', p, us')
    ensures ok ==> LoadArray(data[start..], head, n, |slices|, from) == Some(Got(us'[|us|..], data[j..], p))
  {
    hide Loaded, LoadArray, Read16, HevcRecord.Before;
    tags', slices', j, p, ok, us' := tags, slices, start, from, false, us;
    ghost var goal, got: seq<Unit> := LoadArray(data[start..], head, n, |slices|, from), [];
    var i := 0;
    NothingBefore(goal);
    assert us + [] == us;
    while i < n
      invariant i <= n && start <= j <= |data| && |slices'| == |slices| + i && us' == us + got
      invariant Loaded(arena[..], tags', slices', p, us')
      invariant goal == HevcRecord.Before(got, LoadArray(data[j..], head, n - i, |slices'|, p))
    {
      ArrayAt(data, j, head, n - i, |slices'|, p);
      BeforeBefore(got, [], None);
      if |slices'| >= MAX_UNITS { return; }
      if j + 2 > |data| { return; }
      var k := Read16(data[j..j + 2]);
      if j + 2 + k > |data| || p + k > ARENA { return; }
      var x, tag := data[j + 2..j + 2 + k], H.Tag(head as nat % 64, head as nat / 128);
      ghost var unit := Unit(tag.kind, tag.complete, x);
      BeforeBefore(got, [unit], LoadArray(data[j + 2 + k..], head, n - i - 1, |slices'| + 1, p + k));
      tags', slices' := AddUnit(arena, tags', slices', p, tag, x, us');
      assert us + got + [unit] == us + (got + [unit]);
      got, us' := got + [unit], us' + [unit];
      j, p, i := j + 2 + k, p + k, i + 1;
    }
    ArrayAt(data, j, head, 0, |slices'|, p);
    BeforeBefore(got, [], Some(Got([], data[j..], p)));
    ok := true;
  }

  method NextArray(data: bytes, start: nat, left: nat, arena: array<byte>, tags: seq<H.Tag>, slices: seq<Slice>,
                   from: nat, ghost us: seq<Unit>)
    returns (ok: bool, tags': seq<H.Tag>, slices': seq<Slice>, j: nat, p: nat, ghost us': seq<Unit>)
    requires left > 0 && start <= |data| && Loaded(arena[..], tags, slices, from, us)
    modifies arena
    ensures !ok ==> LoadArrays(data[start..], left, |slices|, from) == None
    ensures ok ==> start <= j <= |data| && us <= us' && Loaded(arena[..], tags', slices', p, us')
    ensures ok ==>
      LoadArrays(data[start..], left, |slices|, from) == HevcRecord.Before(us'[|us|..], LoadArrays(data[j..], left - 1, |slices'|, p))
  {
    hide Loaded, LoadArrays, LoadArray, Read16, HevcRecord.Before;
    tags', slices', j, p, ok, us' := tags, slices, start, from, false, us;
    ArraysAt(data, start, left, |slices|, from);
    if start + 3 > |data| { return; }
    ok, tags', slices', j, p, us' :=
      LoadOneArray(data, start + 3, data[start], Read16(data[start + 1..start + 3]), arena, tags, slices, from, us);
  }

  method LoadAllArrays(data: bytes, start: nat, arrays: nat, arena: array<byte>)
    returns (ok: bool, tags: seq<H.Tag>, slices: seq<Slice>, j: nat, p: nat, ghost us: seq<Unit>)
    requires start <= |data| && arena.Length == ARENA
    modifies arena
    ensures ok <==> LoadArrays(data[start..], arrays, 0, 0).Some?
    ensures ok ==> start <= j <= |data| && Loaded(arena[..], tags, slices, p, us)
    ensures ok ==> LoadArrays(data[start..], arrays, 0, 0) == Some(Got(us, data[j..], p))
  {
    hide Loaded, LoadArrays, LoadArray, Read16, HevcRecord.Before;
    tags, slices, j, p, us := [], [], start, 0, [];
    ghost var goal := LoadArrays(data[start..], arrays, 0, 0);
    var i := 0;
    ok := true;
    NothingBefore(goal);
    Fresh(arena[..]);
    while i < arrays && ok
      invariant i <= arrays && (ok ==> start <= j <= |data| && Loaded(arena[..], tags, slices, p, us))
      invariant goal == if ok then HevcRecord.Before(us, LoadArrays(data[j..], arrays - i, |slices|, p)) else None
    {
      ghost var us0 := us;
      BeforeBefore(us0, [], None);
      ok, tags, slices, j, p, us := NextArray(data, j, arrays - i, arena, tags, slices, p, us);
      if ok {
        BeforeBefore(us0, us[|us0|..], LoadArrays(data[j..], arrays - i - 1, |slices|, p));
        assert us0 + us[|us0|..] == us;
      }
      i := i + 1;
    }
    if ok {
      ArraysAt(data, j, 0, |slices|, p);
      BeforeBefore(us, [], Some(Got([], data[j..], p)));
    }
  }

  lemma {:induction false} Fresh(arena: bytes)
    requires |arena| == ARENA
    ensures Loaded(arena, [], [], 0, [])
  {
  }

  // The length read, or -1; the units are slices that follow each other from the front of the arena.
  method LoadRecord(data: bytes, arena: array<byte>)
    returns (n: int, f: Fields, tags: seq<H.Tag>, slices: seq<Slice>, off: nat, ghost us: seq<Unit>)
    requires arena.Length == ARENA
    modifies arena
    ensures n == if LoadAll(data) == None then -1 else LoadAll(data).value.consumed
    ensures n >= 0 ==> Loaded(arena[..], tags, slices, off, us) && LoadAll(data) == Some(LoadedUnits(f, us, off, n))
  {
    hide Loaded, LoadArrays, ReadFields;
    f, tags, slices, off, us := Fields(0, 0, 0, 0, 0, 0, 0, 0, 0, 0, 0, 0, 0, 0, 0, 0), [], [], 0, [];
    if |data| < HEAD_SIZE || data[0] != 1 { return -1, f, tags, slices, off, us; }
    f := ReadFields(data[..HEAD_SIZE]);
    var ok, j;
    ok, tags, slices, j, off, us := LoadAllArrays(data, HEAD_SIZE, data[22], arena);
    n := if ok then j else -1;
  }
}
