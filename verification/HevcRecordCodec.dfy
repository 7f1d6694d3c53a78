/** Writing HEVC decoder configuration records: one pass over the units for every type, the head of an array last. */
module HevcRecordCodec {
  import opened Bytes
  import opened AvcRecord
  import opened AvcRecordCodec
  import opened HevcRecord
  import opened Options

  lemma {:induction false} UnitsSnoc(us: seq<bytes>, u: bytes)
    requires AllShort(us) && |u| < 0x1_0000
    ensures AllShort(us + [u]) && Units(us + [u]) == Units(us) + (Be16(|u|) + u)
    decreases |us|
  {
    hide Be16;
    var all := us + [u];
    if us == [] {
      assert all == [u] && all[1..] == [];
      assert Units([]) == [] && Be16(|u|) + u + [] == [] + (Be16(|u|) + u);
    } else {
      UnitsSnoc(us[1..], u);
      assert all[1..] == us[1..] + [u];
      assert Be16(|us[0]|) + us[0] + (Units(us[1..]) + (Be16(|u|) + u)) == Units(us) + (Be16(|u|) + u);
    }
  }

  lemma {:induction false} UnitsAt(us: seq<Unit>, j: nat)
    requires AllUnits(us) && j < |us|
    ensures us[j].kind < 64 && us[j].complete < 2 && |us[j].data| < 0x1_0000 && AllUnits(us[..j]) && AllUnits(us[..j + 1])
    decreases j
  {
    if j > 0 {
      UnitsAt(us[1..], j - 1);
      assert us[..j][1..] == us[1..][..j - 1] && us[..j + 1][1..] == us[1..][..j];
    } else {
      assert us[..1][1..] == [];
    }
  }

  // One unit more of the prefix that was looked at.
  lemma {:induction false} DataNext(us: seq<Unit>, j: nat, kind: nat)
    requires AllUnits(us) && j < |us|
    ensures us[j].complete < 2 && |us[j].data| < 0x1_0000 && AllShort(DataOf(us[..j], kind)) && AllShort(DataOf(us[..j + 1], kind))
    ensures if us[j].kind == kind then
              DataOf(us[..j + 1], kind) == DataOf(us[..j], kind) + [us[j].data] && CompleteOf(us[..j + 1], kind) == us[j].complete
              && Units(DataOf(us[..j + 1], kind)) == Units(DataOf(us[..j], kind)) + (Be16(|us[j].data|) + us[j].data)
            else DataOf(us[..j + 1], kind) == DataOf(us[..j], kind) && CompleteOf(us[..j + 1], kind) == CompleteOf(us[..j], kind)
  {
    hide DataOf, CompleteOf, Units, AllUnits, AllShort, Be16;
    UnitsAt(us, j);
    DataOfShort(us[..j], kind);
    DataOfShort(us[..j + 1], kind);
    DataConcat(us[..j], [us[j]], kind);
    OneUnit(us[j], kind);
    assert us[..j + 1] == us[..j] + [us[j]];
    if us[j].kind == kind { UnitsSnoc(DataOf(us[..j], kind), us[j].data); }
    assert DataOf(us[..j], kind) + [] == DataOf(us[..j], kind);
  }

  lemma {:induction false} OneUnit(u: Unit, kind: nat)
    ensures DataOf([u], kind) == (if u.kind == kind then [u.data] else [])
    ensures u.kind == kind ==> CompleteOf([u], kind) == u.complete
    ensures u.kind != kind ==> DataOf([u], kind) == []
  {
    assert [u][1..] == [];
    assert DataOf([u][1..], kind) == [];
  }

  lemma {:induction false} PrefixSize(us: seq<Unit>, j: nat, kind: nat)
    requires AllUnits(us) && j <= |us|
    ensures AllUnits(us[..j]) && AllShort(DataOf(us[..j], kind)) && AllShort(DataOf(us, kind))
    ensures |Units(DataOf(us[..j], kind))| <= |Units(DataOf(us, kind))|
    decreases |us| - j
  {
    if j < |us| {
      UnitsAt(us, j);
      PrefixSize(us, j + 1, kind);
      DataNext(us, j, kind);
    } else {
      assert us[..j] == us;
      DataOfShort(us, kind);
    }
  }

  // The units of one type, behind the three bytes that are kept free at `p`.
  method SaveArray(us: seq<Unit>, kind: nat, data: array<byte>, p: nat, room: nat)
    returns (ok: bool, n: nat, complete: nat, ptr: nat)
    requires AllUnits(us) && p <= room <= data.Length
    modifies data
    ensures AllShort(DataOf(us, kind)) && complete < 2
    ensures ok <==> DataOf(us, kind) == [] || p + 3 + |Units(DataOf(us, kind))| <= room
    ensures ok ==> n == |DataOf(us, kind)| && ptr == p + 3 + |Units(DataOf(us, kind))|
    ensures ok && n > 0 ==> complete == CompleteOf(us, kind) && ptr <= room && data[p + 3..ptr] == Units(DataOf(us, kind))
    ensures data[..p] == old(data[..p])
    ensures forall i :: (if ok then (if n == 0 then p else ptr) else room) <= i < data.Length ==> data[i] == old(data[i])
  {
    hide DataOf, CompleteOf, Units, AllShort, AllUnits, Be16;
    ok, n, complete, ptr := true, 0, 1, p + 3;
    var j := 0;
    Nothing(us, kind);
    while j < |us|
      invariant j <= |us| && AllShort(DataOf(us[..j], kind)) && n == |DataOf(us[..j], kind)| && complete < 2
      invariant ptr == p + 3 + |Units(DataOf(us[..j], kind))|
      invariant n > 0 ==> ptr <= room && complete == CompleteOf(us[..j], kind) && data[p + 3..ptr] == Units(DataOf(us[..j], kind))
      invariant data[..p] == old(data[..p])
      invariant forall i :: (if n == 0 then p else ptr) <= i < data.Length ==> data[i] == old(data[i])
    {
      DataNext(us, j, kind);
      PrefixSize(us, j + 1, kind);
      var u := us[j];
      if u.kind == kind {
        if ptr + 2 + |u.data| > room { return false, n, complete, ptr; }
        ghost var before := data[..ptr];
        CopyTo(data, ptr, Be16(|u.data|));
        CopyTo(data, ptr + 2, u.data);
        complete := u.complete;
        Grown(data[..], before, p, ptr, Be16(|u.data|), u.data);
        ptr := ptr + 2 + |u.data|;
        n := n + 1;
      }
      j := j + 1;
    }
    assert us[..j] == us;
  }

  lemma {:induction false} Nothing(us: seq<Unit>, kind: nat)
    ensures us[..0] == [] && DataOf([], kind) == [] && AllShort([]) && Units([]) == []
  {
  }

  lemma {:induction false} Grown(data: bytes, before: bytes, p: nat, ptr: nat, len: bytes, u: bytes)
    requires p + 3 <= ptr == |before| && ptr + |len| + |u| <= |data| && data[..ptr + |len| + |u|] == before + len + u
    ensures data[..p] == before[..p] && data[p + 3..ptr + |len| + |u|] == before[p + 3..] + (len + u)
  {
    assert data[..p] == data[..ptr + |len| + |u|][..p];
    assert data[p + 3..ptr + |len| + |u|] == data[..ptr + |len| + |u|][p + 3..];
  }

  // One kind of the list, and the kinds behind it.
  lemma {:induction false} KindAt(us: seq<Unit>, i: nat)
    requires AllUnits(us) && |us| <= MAX_UNITS && i < |KINDS|
    ensures var (k, ds) := (KINDS[i], DataOf(us, KINDS[i]));
      && AllKinds(KINDS[i..]) && AllKinds(KINDS[i + 1..]) && k < 64 && CompleteOf(us, k) < 2 && AllShort(ds) && |ds| <= MAX_UNITS
      && ArrayCount(us, KINDS[i..]) == (if ds == [] then 0 else 1) + ArrayCount(us, KINDS[i + 1..])
      && Arrays(us, KINDS[i..]) == (if ds == [] then Arrays(us, KINDS[i + 1..])
           else [CompleteOf(us, k) * 128 + k] + Be16(|ds|) + Units(ds) + Arrays(us, KINDS[i + 1..]))
  {
    hide DataOf, CompleteOf, AllUnits, AllShort, Units, Be16, Grouped, Arrays, ArrayCount, As;
    KindsFine();
    assert KINDS[i..][1..] == KINDS[i + 1..];
    FirstArray(us, KINDS[i..], []);
    var k, ds, more := KINDS[i], DataOf(us, KINDS[i]), Arrays(us, KINDS[i + 1..]);
    assert Arrays(us, KINDS[i..]) + [] == Arrays(us, KINDS[i..]) && more + [] == more;
    if ds != [] {
      var head: bytes := [CompleteOf(us, k) * 128 + k];
      assert head + Be16(|ds|) + (Units(ds) + more) == head + Be16(|ds|) + Units(ds) + more;
    }
  }

  lemma {:induction false} KindsDone(us: seq<Unit>)
    requires AllUnits(us) && |us| <= MAX_UNITS
    ensures AllKinds(KINDS) && KINDS[0..] == KINDS && KINDS[|KINDS|..] == [] && Arrays(us, []) == [] && ArrayCount(us, []) == 0
  {
  }

  // An array's head, put in front of its units once their number is known.
  method FinishArray(data: array<byte>, p: nat, head: byte, n: nat, ptr: nat)
    requires n < 0x1_0000 && p + 3 <= ptr <= data.Length
    modifies data
    ensures data[..ptr] == old(data[..p]) + ([head] + Be16(n) + old(data[p + 3..ptr]))
    ensures forall i :: ptr <= i < data.Length ==> data[i] == old(data[i])
  {
    data[p] := head;
    data[p + 1] := n / 0x100;
    data[p + 2] := n % 0x100;
  }

  lemma {:induction false} CountByte(f: Fields, k: byte)
    requires InRange(f)
    ensures FieldBytes(f, 0)[22 := k] == FieldBytes(f, k)
  {
    hide Be16, Be32;
  }

  // The number of arrays, written last over its place in the fixed part.
  method WriteCount(f: Fields, k: byte, data: array<byte>, p: nat, ghost done: bytes)
    requires InRange(f) && p <= data.Length && data[..p] == FieldBytes(f, 0) + done
    modifies data
    ensures data[..p] == FieldBytes(f, k) + done
    ensures forall i :: p <= i < data.Length ==> data[i] == old(data[i])
  {
    hide FieldBytes;
    CountByte(f, k);
    ghost var before := data[..p];
    data[22] := k;
    assert data[..p] == before[22 := k];
    assert (FieldBytes(f, 0) + done)[22 := k] == FieldBytes(f, 0)[22 := k] + done;
  }

  // One turn: the array of one kind, if it has units, behind what is written already.
  method SaveKind(us: seq<Unit>, i: nat, data: array<byte>, p: nat, room: nat)
    returns (ok: bool, saved: bool, ptr: nat, ghost added: bytes)
    requires AllUnits(us) && |us| <= MAX_UNITS && i < |KINDS| && p <= room <= data.Length
    modifies data
    ensures AllKinds(KINDS[i..]) && AllKinds(KINDS[i + 1..])
    ensures added + Arrays(us, KINDS[i + 1..]) == Arrays(us, KINDS[i..])
    ensures ok ==> ArrayCount(us, KINDS[i..]) == (if saved then 1 else 0) + ArrayCount(us, KINDS[i + 1..])
    ensures ok <==> p + |added| <= room
    ensures ok ==> ptr == p + |added| && data[..ptr] == old(data[..p]) + added
    ensures forall j :: (if ok then ptr else room) <= j < data.Length ==> data[j] == old(data[j])
  {
    hide DataOf, CompleteOf, Units, AllShort, AllUnits, AllKinds, Be16, Arrays, ArrayCount;
    KindAt(us, i);
    var count, complete;
    ok, count, complete, ptr := SaveArray(us, KINDS[i], data, p, room);
    ghost var ds := DataOf(us, KINDS[i]);
    added := if ds == [] then [] else [CompleteOf(us, KINDS[i]) * 128 + KINDS[i]] + Be16(|ds|) + Units(ds);
    saved := ok && count > 0;
    if ok {
      if saved { FinishArray(data, p, complete * 128 + KINDS[i], count, ptr); } else { ptr := p; }
    }
  }

  // The record at the front of a buffer; the length written, or 0.
  method SaveRecord(f: Fields, us: seq<Unit>, data: array<byte>, room: nat) returns (n: nat)
    requires InRange(f) && AllUnits(us) && |us| <= MAX_UNITS && room <= data.Length
    modifies data
    ensures n == if SavedUnits(f, us, room) == None then 0 else |SavedUnits(f, us, room).value|
    ensures n > 0 ==> data[..n] == SavedUnits(f, us, room).value
    ensures forall i :: (if n > 0 then n else room) <= i < data.Length ==> data[i] == old(data[i])
  {
    hide DataOf, CompleteOf, Units, AllShort, AllUnits, Be16, Arrays, ArrayCount, FieldBytes;
    if room < HEAD_SIZE { return 0; }
    CopyTo(data, 0, FieldBytes(f, 0));
    var p, k, i := HEAD_SIZE, 0, 0;
    ghost var done: bytes := [];
    KindsDone(us);
    while i < |KINDS|
      invariant i <= |KINDS| && AllKinds(KINDS[i..]) && HEAD_SIZE <= p == HEAD_SIZE + |done| <= room && k <= i
      invariant done + Arrays(us, KINDS[i..]) == Arrays(us, KINDS) && k + ArrayCount(us, KINDS[i..]) == ArrayCount(us, KINDS)
      invariant data[..p] == FieldBytes(f, 0) + done
      invariant forall j :: p <= j < data.Length ==> data[j] == old(data[j])
    {
      var ok, saved, ptr;
      ghost var added;
      ok, saved, ptr, added := SaveKind(us, i, data, p, room);
      Appended(FieldBytes(f, 0), done, added, Arrays(us, KINDS[i + 1..]));
      if !ok { return 0; }
      done := done + added;
      p, k := ptr, if saved then k + 1 else k;
      i := i + 1;
    }
    assert done + [] == done;
    WriteCount(f, k, data, p, done);
    n := p;
  }

  lemma {:induction false} Appended(a: bytes, done: bytes, added: bytes, more: bytes)
    ensures a + done + added == a + (done + added) && done + (added + more) == done + added + more
  {
  }
}
