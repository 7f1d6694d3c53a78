/** AMF0 value trees, and the reader that inverts their bytes. */
module Amf0 {
  import opened Bytes

  const NUMBER: byte := 0
  const BOOLEAN: byte := 1
  const STRING: byte := 2
  const OBJECT: byte := 3
  const NULL: byte := 5
  const UNDEFINED: byte := 6
  const ECMA_ARRAY: byte := 8
  const OBJECT_END: byte := 9
  const STRICT_ARRAY: byte := 10
  const DATE: byte := 11
  const LONG_STRING: byte := 12

  // ---------------------------------------------------------------------------
  // Value trees and their bytes

  datatype Value =
    | Number(bits: bytes)
    | Boolean(flag: byte)
    | Str(text: bytes)
    | Null
    | Undefined
    | Object(props: seq<Prop>)
    | EcmaArray(count: nat, props: seq<Prop>)
    | StrictArray(elems: seq<Value>)

  datatype Prop = Prop(name: bytes, value: Value)

  predicate WellFormed(v: Value) {
    match v
    case Number(bits) => |bits| == 8
    case Str(text) => |text| < POW32
    case Object(props) => AllNamed(props)
    case EcmaArray(count, props) => count < POW32 && AllNamed(props)
    case StrictArray(elems) => |elems| < POW32 && AllWellFormed(elems)
    case _ => true
  }

  predicate AllNamed(props: seq<Prop>) {
    props == [] || (0 < |props[0].name| < 0x1_0000 && WellFormed(props[0].value) && AllNamed(props[1..]))
  }

  predicate AllWellFormed(elems: seq<Value>) {
    elems == [] || (WellFormed(elems[0]) && AllWellFormed(elems[1..]))
  }

  function TypeOf(v: Value): byte {
    match v
    case Number(_) => NUMBER
    case Boolean(_) => BOOLEAN
    case Str(text) => if |text| < 0x1_0000 then STRING else LONG_STRING
    case Null => NULL
    case Undefined => UNDEFINED
    case Object(_) => OBJECT
    case EcmaArray(_, _) => ECMA_ARRAY
    case StrictArray(_) => STRICT_ARRAY
  }

  const END: bytes := [0, 0, OBJECT_END]

  // What follows the type byte.
  function Content(v: Value): bytes
    requires WellFormed(v)
  {
    match v
    case Number(bits) => bits
    case Boolean(flag) => [flag]
    case Str(text) => (if |text| < 0x1_0000 then Be16(|text|) else Be32(|text|)) + text
    case Null => []
    case Undefined => []
    case Object(props) => PropsBytes(props) + END
    case EcmaArray(count, props) => Be32(count) + (PropsBytes(props) + END)
    case StrictArray(elems) => Be32(|elems|) + ElemsBytes(elems)
  }

  function ValueBytes(v: Value): bytes
    requires WellFormed(v)
    decreases v, 1
  {
    [TypeOf(v)] + Content(v)
  }

  function PropsBytes(props: seq<Prop>): bytes
    requires AllNamed(props)
  {
    if props == [] then []
    else Be16(|props[0].name|) + props[0].name + [TypeOf(props[0].value)] + Content(props[0].value) + PropsBytes(props[1..])
  }

  function ElemsBytes(elems: seq<Value>): bytes
    requires AllWellFormed(elems)
  {
    if elems == [] then [] else [TypeOf(elems[0])] + Content(elems[0]) + ElemsBytes(elems[1..])
  }

  // ---------------------------------------------------------------------------
  // What a caller asks for

  // Where a value is put: nowhere, a number, a flag, a character buffer, a date, or further items.
  datatype Cell =
    | Absent
    | Eight(bits: bytes)
    | Flag(flag: byte)
    | Text(buffer: bytes)
    | Day(bits: bytes, zone: bytes)
    | Items(slots: seq<Slot>)

  datatype Slot = Slot(kind: byte, name: bytes, cell: Cell)

  // An object item also takes an ECMA array or a null.
  predicate Accepts(kind: byte, asked: byte) {
    kind == asked || (asked == OBJECT && (kind == ECMA_ARRAY || kind == NULL))
  }

  predicate Matches(slot: Slot, name: bytes, kind: byte) { slot.name == name && Accepts(kind, slot.kind) }

  // The first slot asking for such a property.
  function Find(slots: seq<Slot>, name: bytes, kind: byte): (i: nat)
    ensures i <= |slots| && (i < |slots| ==> Matches(slots[i], name, kind))
    ensures forall j :: 0 <= j < i ==> !Matches(slots[j], name, kind)
  {
    if slots == [] || Matches(slots[0], name, kind) then 0 else 1 + Find(slots[1..], name, kind)
  }

  function Stored(slots: seq<Slot>, i: nat, cell: Cell): (r: seq<Slot>)
    ensures |r| == |slots|
  {
    if i < |slots| then slots[i := slots[i].(cell := cell)] else slots
  }

  function CellAt(slots: seq<Slot>, i: nat): Cell { if i < |slots| then slots[i].cell else Absent }

  function SlotsOf(cell: Cell): seq<Slot> { if cell.Items? then cell.slots else [] }

  function PutText(cell: Cell, text: bytes): Cell {
    if cell.Text? && |cell.buffer| > |text| then Text(text + [0] + cell.buffer[|text| + 1..]) else cell
  }

  function PutSlots(cell: Cell, slots: seq<Slot>): Cell { if cell.Items? then Items(slots) else cell }

  // ---------------------------------------------------------------------------
  // The reader: what is left of the data, or a failure, and what was stored either way

  datatype ItemRead = ItemRead(ok: bool, rest: bytes, cell: Cell)
  datatype SlotsRead = SlotsRead(ok: bool, rest: bytes, slots: seq<Slot>)

  function ReadText(data: bytes, width: nat, cell: Cell): (r: ItemRead)
    requires width == 2 || width == 4
    ensures |r.rest| <= |data|
  {
    if |data| < width then ItemRead(false, [], cell)
    else
      var len := if width == 2 then Read16(data[..2]) else Read32(data[..4]);
      if |data| < width + len then ItemRead(false, [], cell)
      else ItemRead(true, data[width + len..], PutText(cell, data[width..width + len]))
  }

  function ReadItem(data: bytes, kind: byte, cell: Cell): (r: ItemRead)
    ensures |r.rest| <= |data|
    decreases |data|, 2
  {
    if kind == BOOLEAN then
      if |data| < 1 then ItemRead(false, [], cell)
      else ItemRead(true, data[1..], if cell.Flag? then Flag(data[0]) else cell)
    else if kind == NUMBER then
      if |data| < 8 then ItemRead(false, [], cell)
      else ItemRead(true, data[8..], if cell.Eight? then Eight(data[..8]) else cell)
    else if kind == STRING then ReadText(data, 2, cell)
    else if kind == LONG_STRING then ReadText(data, 4, cell)
    else if kind == DATE then
      if |data| < 8 then ItemRead(false, [], cell)
      else if |data| < 10 then ItemRead(false, [], if cell.Day? then cell.(bits := data[..8]) else cell)
      else ItemRead(true, data[10..], if cell.Day? then Day(data[..8], data[8..10]) else cell)
    else if kind == OBJECT then
      var r := ReadObject(data, SlotsOf(cell));
      ItemRead(r.ok, r.rest, PutSlots(cell, r.slots))
    else if kind == NULL || kind == UNDEFINED then ItemRead(true, data, cell)
    else if kind == ECMA_ARRAY then
      if |data| < 4 then ItemRead(false, [], cell)
      else
        var r := ReadObject(data[4..], SlotsOf(cell));
        ItemRead(r.ok, r.rest, PutSlots(cell, r.slots))
    else if kind == STRICT_ARRAY then
      if |data| < 4 then ItemRead(false, [], cell)
      else
        var r := ReadElems(data[4..], 0, Read32(data[..4]), SlotsOf(cell));
        ItemRead(r.ok, r.rest, PutSlots(cell, r.slots))
    else ItemRead(false, [], cell)
  }

  // The byte that ends an object.
  function Close(data: bytes, slots: seq<Slot>): SlotsRead {
    if data != [] && data[0] == OBJECT_END then SlotsRead(true, data[1..], slots) else SlotsRead(false, [], slots)
  }

  function ReadObject(data: bytes, slots: seq<Slot>): (r: SlotsRead)
    ensures |r.rest| <= |data|
    decreases |data|, 1
  {
    if |data| < 2 then Close(data, slots)
    else
      var len, more := Read16(data[..2]), data[2..];
      if len == 0 then Close(more, slots)
      else if |more| < len + 1 then SlotsRead(false, [], slots)
      else
        var i := Find(slots, more[..len], more[len]);
        var r := ReadItem(more[len + 1..], more[len], CellAt(slots, i));
        if r.ok then ReadObject(r.rest, Stored(slots, i, r.cell)) else SlotsRead(false, [], Stored(slots, i, r.cell))
  }

  // Elements from number `i` on; running out of data ends the array without complaint.
  function ReadElems(data: bytes, i: nat, count: nat, slots: seq<Slot>): (r: SlotsRead)
    ensures |r.rest| <= |data|
    decreases |data|, 1
  {
    if i >= count || data == [] then SlotsRead(true, data, slots)
    else
      var j := if i < |slots| && Accepts(data[0], slots[i].kind) then i else |slots|;
      var r := ReadItem(data[1..], data[0], CellAt(slots, j));
      if r.ok then ReadElems(r.rest, i + 1, count, Stored(slots, j, r.cell))
      else SlotsRead(false, [], Stored(slots, j, r.cell))
  }

  // A sequence of values of the types asked for; it may end early.
  function ReadItems(data: bytes, i: nat, slots: seq<Slot>): (r: SlotsRead)
    requires i <= |slots|
    decreases |slots| - i
  {
    if i == |slots| || data == [] then SlotsRead(true, data, slots)
    else if !Accepts(data[0], slots[i].kind) then SlotsRead(false, [], slots)
    else
      var r := ReadItem(data[1..], data[0], slots[i].cell);
      if r.ok then ReadItems(r.rest, i + 1, Stored(slots, i, r.cell)) else SlotsRead(false, [], Stored(slots, i, r.cell))
  }

  // ---------------------------------------------------------------------------
  // What the caller is to find in the slots

  function Fill(v: Value, cell: Cell): Cell {
    match v
    case Number(bits) => if cell.Eight? then Eight(bits) else cell
    case Boolean(flag) => if cell.Flag? then Flag(flag) else cell
    case Str(text) => PutText(cell, text)
    case Null => cell
    case Undefined => cell
    case Object(props) => PutSlots(cell, FillProps(props, SlotsOf(cell)))
    case EcmaArray(_, props) => PutSlots(cell, FillProps(props, SlotsOf(cell)))
    case StrictArray(elems) => PutSlots(cell, FillElems(elems, 0, SlotsOf(cell)))
  }

  // The slot that gets a property, if any.
  function Choice(slots: seq<Slot>, p: Prop): nat { Find(slots, p.name, TypeOf(p.value)) }

  function FillOne(p: Prop, slots: seq<Slot>): (r: seq<Slot>)
    ensures |r| == |slots|
    decreases p
  {
    Stored(slots, Choice(slots, p), Fill(p.value, CellAt(slots, Choice(slots, p))))
  }

  function FillProps(props: seq<Prop>, slots: seq<Slot>): (r: seq<Slot>)
    ensures |r| == |slots|
  {
    if props == [] then slots else FillProps(props[1..], FillOne(props[0], slots))
  }

  // Element `k` goes into slot `k`, if that asks for its type.
  function FillElems(elems: seq<Value>, i: nat, slots: seq<Slot>): (r: seq<Slot>)
    ensures |r| == |slots|
  {
    if elems == [] then slots
    else
      var j := if i < |slots| && Accepts(TypeOf(elems[0]), slots[i].kind) then i else |slots|;
      FillElems(elems[1..], i + 1, Stored(slots, j, Fill(elems[0], CellAt(slots, j))))
  }

  // ---------------------------------------------------------------------------
  // The reader consumes exactly the bytes of a value, and fills the slots as it should

  lemma {:induction false} TextReadsBack(text: bytes, tail: bytes, cell: Cell)
    requires |text| < POW32
    ensures |text| < 0x1_0000 ==> ReadText(Be16(|text|) + text + tail, 2, cell) == ItemRead(true, tail, PutText(cell, text))
    ensures ReadText(Be32(|text|) + text + tail, 4, cell) == ItemRead(true, tail, PutText(cell, text))
  {
    if |text| < 0x1_0000 {
      Be16RoundTrip(|text|);
      var data := Be16(|text|) + text + tail;
      assert data[..2] == Be16(|text|) && data[2..2 + |text|] == text && data[2 + |text|..] == tail;
    }
    Be32RoundTrip(|text|);
    var data := Be32(|text|) + text + tail;
    assert data[..4] == Be32(|text|) && data[4..4 + |text|] == text && data[4 + |text|..] == tail;
  }

  lemma {:induction false} LeafReadsBack(v: Value, tail: bytes, cell: Cell)
    requires WellFormed(v) && !v.Object? && !v.EcmaArray? && !v.StrictArray?
    ensures ReadItem(Content(v) + tail, TypeOf(v), cell) == ItemRead(true, tail, Fill(v, cell))
  {
    hide ReadText, ReadObject, ReadElems, FillProps, FillElems, Be16, Be32;
    match v
    case Number(bits) =>
      assert (bits + tail)[..8] == bits && (bits + tail)[8..] == tail;
    case Boolean(flag) =>
      assert ([flag] + tail)[1..] == tail;
    case Str(text) => TextReadsBack(text, tail, cell);
    case Null => assert [] + tail == tail;
    case Undefined => assert [] + tail == tail;
  }

  lemma {:induction false} ObjectItem(data: bytes, kind: byte, cell: Cell)
    requires kind == OBJECT || (kind == ECMA_ARRAY && |data| >= 4)
    ensures var r := ReadObject(if kind == OBJECT then data else data[4..], SlotsOf(cell));
            ReadItem(data, kind, cell) == ItemRead(r.ok, r.rest, PutSlots(cell, r.slots))
  {
    hide ReadObject;
  }

  lemma {:induction false} ArrayItem(data: bytes, cell: Cell)
    requires |data| >= 4
    ensures var r := ReadElems(data[4..], 0, Read32(data[..4]), SlotsOf(cell));
            ReadItem(data, STRICT_ARRAY, cell) == ItemRead(r.ok, r.rest, PutSlots(cell, r.slots))
  {
    hide ReadElems;
  }

  // One named property in front of the rest of an object.
  lemma {:induction false} NamedItem(name: bytes, kind: byte, body: bytes, slots: seq<Slot>)
    requires 0 < |name| < 0x1_0000
    ensures
      var i := Find(slots, name, kind);
      var r := ReadItem(body, kind, CellAt(slots, i));
      ReadObject(Be16(|name|) + (name + ([kind] + body)), slots)
        == if r.ok then ReadObject(r.rest, Stored(slots, i, r.cell)) else SlotsRead(false, [], Stored(slots, i, r.cell))
  {
    hide ReadItem, Find, Be16;
    Be16RoundTrip(|name|);
    var more := name + ([kind] + body);
    var data := Be16(|name|) + more;
    assert data[..2] == Be16(|name|) && data[2..] == more;
    assert more[..|name|] == name && more[|name|] == kind && more[|name| + 1..] == body;
  }

  lemma {:induction false} NoMoreItems(tail: bytes, slots: seq<Slot>)
    ensures ReadObject(END + tail, slots) == SlotsRead(true, tail, slots)
  {
    var data := END + tail;
    assert data[..2] == [0, 0] && data[2..] == [OBJECT_END] + tail && data[2..][1..] == tail;
  }

  lemma {:induction false} ItemReadsBack(v: Value, tail: bytes, cell: Cell)
    requires WellFormed(v)
    ensures ReadItem(Content(v) + tail, TypeOf(v), cell) == ItemRead(true, tail, Fill(v, cell))
    decreases v
  {
    hide ReadItem, ReadObject, ReadElems, AllNamed, AllWellFormed, PropsBytes, ElemsBytes, FillProps, FillElems, Be32, END;
    match v
    case Object(props) =>
      assert Content(v) + tail == PropsBytes(props) + (END + tail);
      ObjectItem(Content(v) + tail, OBJECT, cell);
      PropsReadBack(props, tail, SlotsOf(cell));
    case EcmaArray(count, props) =>
      assert (Content(v) + tail)[4..] == PropsBytes(props) + (END + tail);
      ObjectItem(Content(v) + tail, ECMA_ARRAY, cell);
      PropsReadBack(props, tail, SlotsOf(cell));
    case StrictArray(elems) =>
      Be32RoundTrip(|elems|);
      assert (Content(v) + tail)[..4] == Be32(|elems|) && (Content(v) + tail)[4..] == ElemsBytes(elems) + tail;
      ArrayItem(Content(v) + tail, cell);
      ElemsReadBack(elems, 0, tail, SlotsOf(cell));
    case _ => LeafReadsBack(v, tail, cell);
  }

  lemma {:induction false} PropsReadBack(props: seq<Prop>, tail: bytes, slots: seq<Slot>)
    requires AllNamed(props)
    ensures ReadObject(PropsBytes(props) + (END + tail), slots) == SlotsRead(true, tail, FillProps(props, slots))
    decreases props
  {
    hide ReadItem, ReadObject, Fill, Find, Content, TypeOf, WellFormed, END;
    if props == [] {
      NoMoreItems(tail, slots);
      assert [] + (END + tail) == END + tail;
    } else {
      var p := props[0];
      var kind := TypeOf(p.value);
      var next := PropsBytes(props[1..]) + (END + tail);
      assert PropsBytes(props) + (END + tail) == Be16(|p.name|) + (p.name + ([kind] + (Content(p.value) + next)));
      NamedItem(p.name, kind, Content(p.value) + next, slots);
      var i := Find(slots, p.name, kind);
      ItemReadsBack(p.value, next, CellAt(slots, i));
      PropsReadBack(props[1..], tail, Stored(slots, i, Fill(p.value, CellAt(slots, i))));
    }
  }

  lemma {:induction false} ElemsReadBack(elems: seq<Value>, i: nat, tail: bytes, slots: seq<Slot>)
    requires AllWellFormed(elems)
    ensures ReadElems(ElemsBytes(elems) + tail, i, i + |elems|, slots) == SlotsRead(true, tail, FillElems(elems, i, slots))
    decreases elems
  {
    hide ReadItem, Fill, Content, TypeOf, WellFormed;
    var data := ElemsBytes(elems) + tail;
    if elems == [] {
      assert data == tail;
    } else {
      var v, next := elems[0], ElemsBytes(elems[1..]) + tail;
      assert data[0] == TypeOf(v) && data[1..] == Content(v) + next;
      var j := if i < |slots| && Accepts(TypeOf(v), slots[i].kind) then i else |slots|;
      ItemReadsBack(v, next, CellAt(slots, j));
      ElemsReadBack(elems[1..], i + 1, tail, Stored(slots, j, Fill(v, CellAt(slots, j))));
    }
  }

  // ---------------------------------------------------------------------------
  // Commands: values one after the other

  predicate AllAccepted(vs: seq<Value>, i: nat, slots: seq<Slot>)
    requires i + |vs| <= |slots|
  {
    vs == [] || (Accepts(TypeOf(vs[0]), slots[i].kind) && AllAccepted(vs[1..], i + 1, slots))
  }

  predicate SameShape(a: seq<Slot>, b: seq<Slot>) {
    |a| == |b| && forall i :: 0 <= i < |a| ==> a[i].kind == b[i].kind && a[i].name == b[i].name
  }

  lemma {:induction false} AcceptedShape(vs: seq<Value>, i: nat, a: seq<Slot>, b: seq<Slot>)
    requires SameShape(a, b) && i + |vs| <= |a|
    ensures AllAccepted(vs, i, a) == AllAccepted(vs, i, b)
    decreases |vs|
  {
    hide TypeOf;
    if vs != [] { AcceptedShape(vs[1..], i + 1, a, b); }
  }

  // Values are read one after the other exactly when each has the type its slot asks for.
  lemma {:induction false} CommandReadsBack(vs: seq<Value>, i: nat, tail: bytes, slots: seq<Slot>)
    requires AllWellFormed(vs) && i + |vs| <= |slots| && (i + |vs| == |slots| || tail == [])
    ensures var r := ReadItems(ElemsBytes(vs) + tail, i, slots);
      r.ok == AllAccepted(vs, i, slots) && (r.ok ==> r.rest == tail && r.slots == FillElems(vs, i, slots))
    decreases |vs|
  {
    hide ReadItem, Fill, Content, TypeOf, WellFormed;
    var data := ElemsBytes(vs) + tail;
    if vs == [] {
      assert data == tail;
    } else {
      var v, next := vs[0], ElemsBytes(vs[1..]) + tail;
      assert data[0] == TypeOf(v) && data[1..] == Content(v) + next;
      ItemReadsBack(v, next, slots[i].cell);
      var stored := Stored(slots, i, Fill(v, slots[i].cell));
      CommandReadsBack(vs[1..], i + 1, tail, stored);
      AcceptedShape(vs[1..], i + 1, stored, slots);
    }
  }

  // ---------------------------------------------------------------------------
  // A slot ends up holding the last property meant for it

  lemma {:induction false} FindShape(a: seq<Slot>, b: seq<Slot>, name: bytes, kind: byte)
    requires SameShape(a, b)
    ensures Find(a, name, kind) == Find(b, name, kind)
  {
  }

  lemma {:induction false} FillKeepsShape(props: seq<Prop>, slots: seq<Slot>)
    ensures SameShape(FillProps(props, slots), slots)
    decreases |props|
  {
    hide Fill, Choice;
    if props != [] { FillKeepsShape(props[1..], FillOne(props[0], slots)); }
  }

  lemma {:induction false} FillSnoc(props: seq<Prop>, p: Prop, slots: seq<Slot>)
    ensures FillProps(props + [p], slots) == FillOne(p, FillProps(props, slots))
    decreases |props|
  {
    hide FillOne;
    if props == [] {
      assert [] + [p] == [p];
    } else {
      assert (props + [p])[1..] == props[1..] + [p];
      FillSnoc(props[1..], p, FillOne(props[0], slots));
    }
  }

  // The last property that goes to slot `i` and, if a text, leaves room for its terminating zero; at most one.
  function Last(props: seq<Prop>, slots: seq<Slot>, i: nat, room: nat): (r: seq<Value>)
    ensures |r| <= 1
    decreases |props|
  {
    if props == [] then []
    else
      var p := props[|props| - 1];
      if Choice(slots, p) == i && (p.value.Str? ==> |p.value.text| < room) then [p.value]
      else Last(props[..|props| - 1], slots, i, room)
  }

  predicate Holds(cell: Cell, v: Value) {
    match v
    case Number(bits) => cell == Eight(bits)
    case Boolean(flag) => cell == Flag(flag)
    case Str(text) => cell.Text? && |text| < |cell.buffer| && cell.buffer[..|text| + 1] == text + [0]
    case _ => false
  }

  // A slot for a number, a boolean or a text, with a place of that kind.
  predicate LeafSlot(slot: Slot) {
    match slot.cell
    case Eight(_) => slot.kind == NUMBER
    case Flag(_) => slot.kind == BOOLEAN
    case Text(_) => slot.kind == STRING || slot.kind == LONG_STRING
    case _ => false
  }

  function Room(cell: Cell): nat { if cell.Text? then |cell.buffer| else 0 }

  lemma {:induction false} FillLeaf(v: Value, slot: Slot)
    requires LeafSlot(slot) && Accepts(TypeOf(v), slot.kind)
    ensures var c := Fill(v, slot.cell);
      && LeafSlot(slot.(cell := c)) && Room(c) == Room(slot.cell)
      && (if v.Str? && |v.text| >= Room(slot.cell) then c == slot.cell else Holds(c, v))
  {
    if v.Str? && |v.text| < Room(slot.cell) {
      assert (v.text + [0] + slot.cell.buffer[|v.text| + 1..])[..|v.text| + 1] == v.text + [0];
    }
  }

  // Over all properties, in the order they come.
  lemma {:induction false} SlotHoldsLast(props: seq<Prop>, slots: seq<Slot>, i: nat)
    requires i < |slots| && LeafSlot(slots[i])
    ensures
      var slot := FillProps(props, slots)[i];
      var last := Last(props, slots, i, Room(slots[i].cell));
      && LeafSlot(slot) && Room(slot.cell) == Room(slots[i].cell)
      && (if last == [] then slot == slots[i] else Holds(slot.cell, last[0]))
    decreases |props|
  {
    hide LeafSlot, Room, Holds, Fill, TypeOf, Find;
    if props != [] {
      var init, p := props[..|props| - 1], props[|props| - 1];
      assert props == init + [p];
      FillSnoc(init, p, slots);
      SlotHoldsLast(init, slots, i);
      FillKeepsShape(init, slots);
      var before := FillProps(init, slots);
      FindShape(before, slots, p.name, TypeOf(p.value));
      if Choice(slots, p) == i { FillLeaf(p.value, before[i]); }
    }
  }

  // Reading an object: it consumes exactly its bytes, and each number, boolean or fitting text asked for is the last
  // such property.
  lemma {:induction false} ObjectFillsSlots(props: seq<Prop>, tail: bytes, slots: seq<Slot>, i: nat)
    requires AllNamed(props) && i < |slots| && LeafSlot(slots[i])
    ensures
      var r := ReadItem(Content(Object(props)) + tail, OBJECT, Items(slots));
      var last := Last(props, slots, i, Room(slots[i].cell));
      && r.ok && r.rest == tail && r.cell.Items? && |r.cell.slots| == |slots|
      && (if last == [] then r.cell.slots[i] == slots[i] else Holds(r.cell.slots[i].cell, last[0]))
  {
    hide Last, ReadItem, Content, Holds, LeafSlot, FillProps;
    ItemReadsBack(Object(props), tail, Items(slots));
    SlotHoldsLast(props, slots, i);
  }
}
