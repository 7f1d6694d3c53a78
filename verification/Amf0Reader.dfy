/** The AMF0 reader as it moves through a buffer: branches, loops and mutual recursion. */
module Amf0Reader {
  import opened Bytes
  import opened Amf0

  const NOWHERE := -1

  // A position stands for what is left of the data from there, NOWHERE for a failure.
  predicate At(data: bytes, pos: nat, next: int, ok: bool, rest: bytes) {
    if ok then pos <= next <= |data| && data[next..] == rest else next == NOWHERE
  }

  method FindSlot(slots: seq<Slot>, name: bytes, kind: byte) returns (i: nat)
    ensures i == Find(slots, name, kind)
  {
    i := 0;
    while i < |slots|
      invariant i <= |slots| && Find(slots, name, kind) == i + Find(slots[i..], name, kind)
    {
      if slots[i].name == name && Accepts(kind, slots[i].kind) { return; }
      assert slots[i..][1..] == slots[i + 1..];
      i := i + 1;
    }
  }

  method ReadString(data: bytes, pos: nat, long: bool, cell: Cell) returns (next: int, stored: Cell)
    requires pos <= |data|
    ensures var r := ReadText(data[pos..], if long then 4 else 2, cell);
            stored == r.cell && At(data, pos, next, r.ok, r.rest)
  {
    var width := if long then 4 else 2;
    if pos + width > |data| { return NOWHERE, cell; }
    var len := if long then Read32(data[pos..pos + 4]) else Read16(data[pos..pos + 2]);
    assert data[pos..][..width] == data[pos..pos + width];
    if pos + width + len > |data| { return NOWHERE, cell; }
    assert data[pos..][width..width + len] == data[pos + width..pos + width + len];
    return pos + width + len, PutText(cell, data[pos + width..pos + width + len]);
  }

  // The values that hold no others.
  method ReadLeaf(data: bytes, pos: nat, kind: byte, cell: Cell) returns (next: int, stored: Cell)
    requires pos <= |data| && kind != OBJECT && kind != ECMA_ARRAY && kind != STRICT_ARRAY
    ensures var r := ReadItem(data[pos..], kind, cell); stored == r.cell && At(data, pos, next, r.ok, r.rest)
  {
    hide ReadText;
    stored := cell;
    if kind == BOOLEAN {
      if pos + 1 > |data| { return NOWHERE, cell; }
      if cell.Flag? { stored := Flag(data[pos]); }
      return pos + 1, stored;
    } else if kind == NUMBER {
      if pos + 8 > |data| { return NOWHERE, cell; }
      if cell.Eight? { stored := Eight(data[pos..pos + 8]); }
      return pos + 8, stored;
    } else if kind == STRING {
      next, stored := ReadString(data, pos, false, cell);
    } else if kind == LONG_STRING {
      next, stored := ReadString(data, pos, true, cell);
    } else if kind == DATE {
      if pos + 8 > |data| { return NOWHERE, cell; }
      if cell.Day? { stored := cell.(bits := data[pos..pos + 8]); }
      if pos + 10 > |data| { return NOWHERE, stored; }
      if cell.Day? { stored := stored.(zone := data[pos + 8..pos + 10]); }
      return pos + 10, stored;
    } else if kind == NULL || kind == UNDEFINED {
      return pos, cell;
    } else {
      return NOWHERE, cell;
    }
  }

  method Item(data: bytes, pos: nat, kind: byte, cell: Cell) returns (next: int, stored: Cell)
    requires pos <= |data|
    ensures var r := ReadItem(data[pos..], kind, cell); stored == r.cell && At(data, pos, next, r.ok, r.rest)
    decreases |data| - pos, 3
  {
    hide ReadItem, ReadObject, ReadElems;
    if kind == OBJECT {
      ObjectItem(data[pos..], kind, cell);
      var slots;
      next, slots := ObjectItems(data, pos, SlotsOf(cell));
      stored := PutSlots(cell, slots);
    } else if kind == ECMA_ARRAY || kind == STRICT_ARRAY {
      next, stored := ArrayAt(data, pos, kind, cell);
    } else {
      next, stored := ReadLeaf(data, pos, kind, cell);
    }
  }

  // Both kinds of array start with a count; that of an ECMA array is skipped.
  method ArrayAt(data: bytes, pos: nat, kind: byte, cell: Cell) returns (next: int, stored: Cell)
    requires pos <= |data| && (kind == ECMA_ARRAY || kind == STRICT_ARRAY)
    ensures var r := ReadItem(data[pos..], kind, cell); stored == r.cell && At(data, pos, next, r.ok, r.rest)
    decreases |data| - pos, 2
  {
    if pos + 4 > |data| { return NOWHERE, cell; }
    hide ReadItem, ReadObject, ReadElems;
    assert data[pos..][4..] == data[pos + 4..];
    var slots;
    if kind == ECMA_ARRAY {
      ObjectItem(data[pos..], kind, cell);
      next, slots := ObjectItems(data, pos + 4, SlotsOf(cell));
    } else {
      ArrayItem(data[pos..], cell);
      assert data[pos..][..4] == data[pos..pos + 4];
      next, slots := Elements(data, pos + 4, Read32(data[pos..pos + 4]), SlotsOf(cell));
    }
    stored := PutSlots(cell, slots);
  }

  method Elements(data: bytes, pos: nat, count: nat, items: seq<Slot>) returns (next: int, slots: seq<Slot>)
    requires pos <= |data|
    ensures var r := ReadElems(data[pos..], 0, count, items); slots == r.slots && At(data, pos, next, r.ok, r.rest)
    decreases |data| - pos, 1
  {
    hide ReadItem;
    slots, next := items, pos;
    ghost var goal := ReadElems(data[pos..], 0, count, items);
    var i := 0;
    while i < count && next != NOWHERE && next < |data|
      invariant next == NOWHERE || pos <= next <= |data|
      invariant goal == if next == NOWHERE then SlotsRead(false, [], slots) else ReadElems(data[next..], i, count, slots)
      decreases count - i
    {
      var kind := data[next];
      var j := if i < |slots| && Accepts(kind, slots[i].kind) then i else |slots|;
      assert data[next..][1..] == data[next + 1..];
      var cell;
      next, cell := Item(data, next + 1, kind, CellAt(slots, j));
      slots := Stored(slots, j, cell);
      i := i + 1;
    }
  }

  lemma {:induction false} ObjectAt(data: bytes, pos: nat, slots: seq<Slot>)
    requires pos + 2 <= |data|
    ensures
      var len, at := Read16(data[pos..pos + 2]), pos + 2;
      ReadObject(data[pos..], slots)
        == if len == 0 then Close(data[at..], slots)
           else if at + len + 1 > |data| then SlotsRead(false, [], slots)
           else
             var i := Find(slots, data[at..at + len], data[at + len]);
             var r := ReadItem(data[at + len + 1..], data[at + len], CellAt(slots, i));
             if r.ok then ReadObject(r.rest, Stored(slots, i, r.cell)) else SlotsRead(false, [], Stored(slots, i, r.cell))
  {
    hide ReadItem, Find, Stored, Close;
    var here, len, at := data[pos..], Read16(data[pos..pos + 2]), pos + 2;
    assert here[..2] == data[pos..at] && here[2..] == data[at..];
    if 0 < len < |data| - at {
      assert data[at..][..len] == data[at..at + len] && data[at..][len + 1..] == data[at + len + 1..];
    }
  }

  method ObjectItems(data: bytes, pos: nat, items: seq<Slot>) returns (next: int, slots: seq<Slot>)
    requires pos <= |data|
    ensures var r := ReadObject(data[pos..], items); slots == r.slots && At(data, pos, next, r.ok, r.rest)
    decreases |data| - pos, 1
  {
    hide ReadItem, Find, Stored, Read16;
    slots, next := items, pos;
    ghost var goal := ReadObject(data[pos..], items);
    while next != NOWHERE && next + 2 <= |data|
      invariant next == NOWHERE || pos <= next <= |data|
      invariant goal == if next == NOWHERE then SlotsRead(false, [], slots) else ReadObject(data[next..], slots)
      decreases if next == NOWHERE then 0 else 1 + |data| - next
    {
      hide ReadObject, Close;
      ObjectAt(data, next, slots);
      var len := Read16(data[next..next + 2]);
      next := next + 2;
      if len == 0 {
        next := Closed(data, next, slots);
        return;
      }
      if next + len + 1 > |data| { return NOWHERE, slots; }
      var i := FindSlot(slots, data[next..next + len], data[next + len]);
      var cell;
      next, cell := Item(data, next + len + 1, data[next + len], CellAt(slots, i));
      slots := Stored(slots, i, cell);
    }
    if next != NOWHERE { next := Closed(data, next, slots); }
  }

  method Closed(data: bytes, pos: nat, slots: seq<Slot>) returns (next: int)
    requires pos <= |data|
    ensures var r := Close(data[pos..], slots); At(data, pos, next, r.ok, r.rest) && r.slots == slots
  {
    return if pos < |data| && data[pos] == OBJECT_END then pos + 1 else NOWHERE;
  }

  method ReadCommand(data: bytes, pos: nat, items: seq<Slot>) returns (next: int, slots: seq<Slot>)
    requires pos <= |data|
    ensures var r := ReadItems(data[pos..], 0, items); slots == r.slots && At(data, pos, next, r.ok, r.rest)
  {
    hide ReadItem;
    slots, next := items, pos;
    ghost var goal := ReadItems(data[pos..], 0, items);
    var i := 0;
    while i < |slots| && next != NOWHERE && next < |data|
      invariant i <= |slots| == |items| && (next == NOWHERE || pos <= next <= |data|)
      invariant goal == if next == NOWHERE then SlotsRead(false, [], slots) else ReadItems(data[next..], i, slots)
    {
      var kind := data[next];
      if !Accepts(kind, slots[i].kind) { return NOWHERE, slots; }
      assert data[next..][1..] == data[next + 1..];
      var cell;
      next, cell := Item(data, next + 1, kind, slots[i].cell);
      slots := Stored(slots, i, cell);
      i := i + 1;
    }
  }
}
