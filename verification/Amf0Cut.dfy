/** Values that the end of the data cuts off, and input that no value begins with. */
module Amf0Cut {
  import opened Bytes
  import opened Amf0

  // ---------------------------------------------------------------------------
  // Where the data may end

  // The first `n` bytes of the content are taken for a whole value: beside the whole content, those in which an array
  // of values ends behind one of them, or an object in front of a name whose length begins with the byte 9.
  predicate Ends(v: Value, n: nat)
    requires WellFormed(v)
    decreases v
  {
    n == |Content(v)| ||
    match v
    case Object(props) => PropsEnd(props, n)
    case EcmaArray(_, props) => n >= 4 && PropsEnd(props, n - 4)
    case StrictArray(elems) => n >= 4 && ElemsEnd(elems, n - 4)
    case _ => false
  }

  predicate PropsEnd(props: seq<Prop>, n: nat)
    requires AllNamed(props)
  {
    props != [] &&
    var k := 3 + |props[0].name| + |Content(props[0].value)|;
    if n >= k then PropsEnd(props[1..], n - k) else n == 1 && |props[0].name| / 256 == 9
  }

  predicate ElemsEnd(elems: seq<Value>, n: nat)
    requires AllWellFormed(elems)
  {
    n == 0 ||
    (elems != [] &&
     var k := 1 + |Content(elems[0])|;
     if n >= k then ElemsEnd(elems[1..], n - k) else Ends(elems[0], n - 1))
  }

  // ---------------------------------------------------------------------------
  // Cutting

  lemma {:induction false} Cut(a: bytes, b: bytes, n: nat)
    requires n <= |a| + |b|
    ensures n <= |a| ==> (a + b)[..n] == a[..n]
    ensures n >= |a| ==> (a + b)[..n] == a + b[..n - |a|]
  {
  }

  lemma {:induction false} CutLeaf(v: Value, n: nat, cell: Cell)
    requires WellFormed(v) && !v.Object? && !v.EcmaArray? && !v.StrictArray? && n < |Content(v)|
    ensures !ReadItem(Content(v)[..n], TypeOf(v), cell).ok
  {
    hide ReadText, ReadObject, ReadElems, Be16, Be32;
    if v.Str? { CutText(v.text, n, cell); }
  }

  lemma {:induction false} CutText(text: bytes, n: nat, cell: Cell)
    requires |text| < POW32
    ensures |text| < 0x1_0000 && n < 2 + |text| ==> !ReadText((Be16(|text|) + text)[..n], 2, cell).ok
    ensures n < 4 + |text| ==> !ReadText((Be32(|text|) + text)[..n], 4, cell).ok
  {
    hide Be16, Be32, Read16, Read32;
    if |text| < 0x1_0000 && 2 <= n < 2 + |text| {
      Be16RoundTrip(|text|);
      assert (Be16(|text|) + text)[..n][..2] == Be16(|text|);
    }
    if 4 <= n < 4 + |text| {
      Be32RoundTrip(|text|);
      assert (Be32(|text|) + text)[..n][..4] == Be32(|text|);
    }
  }

  lemma {:induction false} EndsCases(v: Value, n: nat)
    requires WellFormed(v) && n < |Content(v)|
    ensures Ends(v, n) <==>
      match v
      case Object(props) => PropsEnd(props, n)
      case EcmaArray(_, props) => n >= 4 && PropsEnd(props, n - 4)
      case StrictArray(elems) => n >= 4 && ElemsEnd(elems, n - 4)
      case _ => false
  {
    hide Content, PropsEnd, ElemsEnd;
  }

  lemma {:induction false} ShortArray(data: bytes, kind: byte, cell: Cell)
    requires |data| < 4 && (kind == ECMA_ARRAY || kind == STRICT_ARRAY)
    ensures !ReadItem(data, kind, cell).ok
  {
  }

  // The first bytes of a value are accepted exactly where the data may end, and then there is nothing left.
  lemma {:induction false} CutItem(v: Value, n: nat, cell: Cell)
    requires WellFormed(v) && n < |Content(v)|
    ensures var r := ReadItem(Content(v)[..n], TypeOf(v), cell); (r.ok <==> Ends(v, n)) && (r.ok ==> r.rest == [])
    decreases v
  {
    hide ReadItem, ReadObject, ReadElems, AllNamed, AllWellFormed, PropsBytes, ElemsBytes, Be32, END, Ends, PropsEnd, ElemsEnd;
    EndsCases(v, n);
    NothingNamed();
    match v
    case Object(props) =>
      ObjectItem(Content(v)[..n], OBJECT, cell);
      CutProps(props, n, SlotsOf(cell));
    case EcmaArray(count, props) =>
      if n < 4 {
        ShortArray(Content(v)[..n], ECMA_ARRAY, cell);
      } else {
        assert |Content(v)| == |Be32(count)| + |PropsBytes(props) + END|;
        Cut(Be32(count), PropsBytes(props) + END, n);
        assert Content(v)[..n][4..] == (PropsBytes(props) + END)[..n - 4];
        ObjectItem(Content(v)[..n], ECMA_ARRAY, cell);
        CutProps(props, n - 4, SlotsOf(cell));
      }
    case StrictArray(elems) =>
      if n < 4 {
        ShortArray(Content(v)[..n], STRICT_ARRAY, cell);
      } else {
        assert |Content(v)| == |Be32(|elems|)| + |ElemsBytes(elems)|;
        Cut(Be32(|elems|), ElemsBytes(elems), n);
        Be32RoundTrip(|elems|);
        assert Content(v)[..n][4..] == ElemsBytes(elems)[..n - 4] && Content(v)[..n][..4] == Be32(|elems|);
        ArrayItem(Content(v)[..n], cell);
        CutElems(elems, 0, n - 4, SlotsOf(cell));
      }
    case _ => CutLeaf(v, n, cell);
  }

  // Fewer than two bytes where a name should begin.
  lemma {:induction false} FewBytes(data: bytes, slots: seq<Slot>)
    requires |data| < 2
    ensures var r := ReadObject(data, slots); (r.ok <==> data == [9]) && (r.ok ==> r.rest == [])
  {
  }

  lemma {:induction false} CutName(name: bytes, rest: bytes, n: nat, slots: seq<Slot>)
    requires 0 < |name| < 0x1_0000 && rest != [] && 2 <= n < 3 + |name|
    ensures !ReadObject((Be16(|name|) + (name + rest))[..n], slots).ok
  {
    hide Be16, Read16, Find;
    Be16RoundTrip(|name|);
    var data := (Be16(|name|) + (name + rest))[..n];
    assert data[..2] == Be16(|name|);
  }

  lemma {:induction false} CutEnd(n: nat, slots: seq<Slot>)
    requires n < 3
    ensures !ReadObject(([] + END)[..n], slots).ok
  {
    assert [] + END == END;
    if n == 2 { assert END[..2][..2] == [0, 0] && END[..2][2..] == []; }
  }

  lemma {:induction false} PropsBegin(p: Prop, more: seq<Prop>)
    requires 0 < |p.name| < 0x1_0000 && WellFormed(p.value) && AllNamed(more)
    ensures AllNamed([p] + more) && |Be16(|p.name|)| == 2 && Be16(|p.name|)[0] as nat == |p.name| / 256
    ensures PropsBytes([p] + more) + END ==
      Be16(|p.name|) + (p.name + ([TypeOf(p.value)] + (Content(p.value) + (PropsBytes(more) + END))))
  {
    hide Content, TypeOf, WellFormed, END;
    assert ([p] + more)[1..] == more;
  }

  lemma {:induction false} CutProps(props: seq<Prop>, n: nat, slots: seq<Slot>)
    requires AllNamed(props) && n < |PropsBytes(props)| + 3
    ensures var r := ReadObject((PropsBytes(props) + END)[..n], slots);
      (r.ok <==> PropsEnd(props, n)) && (r.ok ==> r.rest == [])
    decreases props, 1
  {
    hide ReadItem, ReadObject, Content, TypeOf, WellFormed, END, PropsBytes, Ends, Find, Stored;
    var data := PropsBytes(props) + END;
    if props == [] {
      NothingNamed();
      CutEnd(n, slots);
    } else {
      var p, more := props[0], props[1..];
      assert props == [p] + more;
      PropsBegin(p, more);
      if n < 2 {
        FewBytes(data[..n], slots);
        if n == 1 { assert data[..1] == [data[0]]; }
      } else if n < 3 + |p.name| {
        CutName(p.name, [TypeOf(p.value)] + (Content(p.value) + (PropsBytes(more) + END)), n, slots);
      } else {
        var m := n - 3 - |p.name|;
        var body := Content(p.value) + (PropsBytes(more) + END);
        NothingNamed();
        assert |data| == 3 + |p.name| + |body| && |data| == |PropsBytes(props)| + 3;
        CutNamed(p.name, TypeOf(p.value), body, m);
        NamedItem(p.name, TypeOf(p.value), body[..m], slots);
        CutValue(props, m, slots);
      }
    }
  }

  lemma {:induction false} NothingNamed()
    ensures PropsBytes([]) == [] && |END| == 3
  {
  }

  lemma {:induction false} CutNamed(name: bytes, kind: byte, body: bytes, m: nat)
    requires 0 < |name| < 0x1_0000 && m <= |body|
    ensures (Be16(|name|) + (name + ([kind] + body)))[..3 + |name| + m] == Be16(|name|) + (name + ([kind] + body[..m]))
  {
    hide Be16;
  }

  // The value of the first property, cut off behind `m` of the bytes from it on.
  lemma {:induction false} CutValue(props: seq<Prop>, m: nat, slots: seq<Slot>)
    requires AllNamed(props) && props != []
    requires m < |Content(props[0].value)| + |PropsBytes(props[1..])| + 3
    ensures
      var (p, more) := (props[0], props[1..]);
      var i := Find(slots, p.name, TypeOf(p.value));
      var r := ReadItem((Content(p.value) + (PropsBytes(more) + END))[..m], TypeOf(p.value), CellAt(slots, i));
      var s := if r.ok then ReadObject(r.rest, Stored(slots, i, r.cell)) else SlotsRead(false, [], Stored(slots, i, r.cell));
      var k := |Content(p.value)|;
      && (s.ok <==> m >= k && PropsEnd(more, m - k)) && (s.ok ==> s.rest == [])
    decreases props, 0
  {
    hide ReadItem, ReadObject, Content, TypeOf, WellFormed, END, PropsBytes, PropsEnd, Ends, Find, Stored, CellAt;
    var p, more := props[0], props[1..];
    var k, rest := |Content(p.value)|, PropsBytes(more) + END;
    var i := Find(slots, p.name, TypeOf(p.value));
    NothingNamed();
    Cut(Content(p.value), rest, m);
    if m < k {
      CutItem(p.value, m, CellAt(slots, i));
      var r := ReadItem(Content(p.value)[..m], TypeOf(p.value), CellAt(slots, i));
      FewBytes([], Stored(slots, i, r.cell));
    } else {
      ItemReadsBack(p.value, rest[..m - k], CellAt(slots, i));
      CutProps(more, m - k, Stored(slots, i, Fill(p.value, CellAt(slots, i))));
    }
  }

  lemma {:induction false} CutElems(elems: seq<Value>, i: nat, n: nat, slots: seq<Slot>)
    requires AllWellFormed(elems) && n < |ElemsBytes(elems)|
    ensures var r := ReadElems(ElemsBytes(elems)[..n], i, i + |elems|, slots);
      (r.ok <==> ElemsEnd(elems, n)) && (r.ok ==> r.rest == [])
    decreases elems
  {
    hide ReadItem, Fill, Content, TypeOf, WellFormed, Ends, Stored, CellAt;
    var data := ElemsBytes(elems)[..n];
    if n > 0 {
      var v, more := elems[0], ElemsBytes(elems[1..]);
      var k := |Content(v)|;
      assert ElemsBytes(elems) == [TypeOf(v)] + (Content(v) + more);
      Cut(Content(v), more, n - 1);
      assert data[0] == TypeOf(v) && data[1..] == (Content(v) + more)[..n - 1];
      var j := if i < |slots| && Accepts(TypeOf(v), slots[i].kind) then i else |slots|;
      if n - 1 < k {
        CutItem(v, n - 1, CellAt(slots, j));
      } else {
        ItemReadsBack(v, more[..n - 1 - k], CellAt(slots, j));
        CutElems(elems[1..], i + 1, n - 1 - k, Stored(slots, j, Fill(v, CellAt(slots, j))));
      }
    }
  }

  // ---------------------------------------------------------------------------
  // What follows from it

  predicate NoArray(v: Value) {
    match v
    case Object(props) => NoArrays(props)
    case EcmaArray(_, props) => NoArrays(props)
    case StrictArray(_) => false
    case _ => true
  }

  predicate NoArrays(props: seq<Prop>) {
    props == [] || (NoArray(props[0].value) && |props[0].name| / 256 != 9 && NoArrays(props[1..]))
  }

  lemma {:induction false} PropsWhole(props: seq<Prop>, n: nat)
    requires AllNamed(props) && NoArrays(props)
    ensures !PropsEnd(props, n)
    decreases |props|
  {
    hide Content, NoArray, WellFormed;
    if props != [] {
      var k := 3 + |props[0].name| + |Content(props[0].value)|;
      if n >= k { PropsWhole(props[1..], n - k); }
    }
  }

  // So a value without arrays of values, and without names of 2304 to 2559 bytes, is not accepted before its last byte.
  lemma {:induction false} CutRefused(v: Value, n: nat, cell: Cell)
    requires WellFormed(v) && NoArray(v) && n < |Content(v)|
    ensures !ReadItem(Content(v)[..n], TypeOf(v), cell).ok
  {
    hide Content, ReadItem, Ends;
    EndsCases(v, n);
    CutItem(v, n, cell);
    match v
    case Object(props) => PropsWhole(props, n);
    case EcmaArray(_, props) => if n >= 4 { PropsWhole(props, n - 4); }
    case _ =>
  }

  // ---------------------------------------------------------------------------
  // Other input

  // Dates have ten bytes, of which the place asked for gets all.
  lemma {:induction false} DateReads(bits: bytes, zone: bytes, tail: bytes, cell: Cell)
    requires |bits| == 8 && |zone| == 2
    ensures ReadItem(bits + (zone + tail), 11, cell) == ItemRead(true, tail, if cell.Day? then Day(bits, zone) else cell)
    ensures forall n :: 0 <= n < 10 ==> !ReadItem((bits + zone)[..n], 11, cell).ok
  {
    var data := bits + (zone + tail);
    assert data[..8] == bits && data[8..10] == zone && data[10..] == tail;
  }

  // Values of other types, references and class instances among them, are refused.
  lemma {:induction false} UnknownRefused(data: bytes, kind: byte, cell: Cell)
    requires kind !in {0, 1, 2, 3, 5, 6, 8, 10, 11, 12}
    ensures ReadItem(data, kind, cell) == ItemRead(false, [], cell)
  {
  }

  // An object ends with an empty name and the byte 9; another byte there is refused. With a single byte left the name
  // may be missing.
  lemma {:induction false} ObjectEnds(c: byte, tail: bytes, slots: seq<Slot>)
    ensures ReadObject([0, 0, c] + tail, slots) == if c == 9 then SlotsRead(true, tail, slots) else SlotsRead(false, [], slots)
    ensures ReadObject([9], slots) == SlotsRead(true, [], slots)
  {
    var data := [0, 0, c] + tail;
    assert data[..2] == [0, 0] && data[2..] == [c] + tail && ([c] + tail)[1..] == tail;
    assert [9][1..] == [];
  }

  // ---------------------------------------------------------------------------
  // Places to fill

  // A place for an object takes arrays of named values and null as well; any other place takes its own type only.
  lemma {:induction false} TakenIff(kind: byte, asked: byte)
    ensures Accepts(kind, asked) <==> kind == asked || (asked == 3 && (kind == 8 || kind == 5))
  {
  }

  // A text and its terminating zero go to the front of a buffer that has room for both; the rest of the buffer stays,
  // and all of any other.
  lemma {:induction false} TextPlaced(buffer: bytes, text: bytes)
    ensures var c := PutText(Text(buffer), text);
      && c.Text? && |c.buffer| == |buffer|
      && (|text| + 1 > |buffer| ==> c == Text(buffer))
      && (|text| + 1 <= |buffer| ==> c.buffer == text + [0] + buffer[|text| + 1..])
  {
  }

  // The elements of an array from number `i` on fill the places of the same numbers that take their type, and no other.
  lemma {:induction false} ElementPlaced(elems: seq<Value>, i: nat, slots: seq<Slot>, k: nat)
    requires k < |slots|
    ensures var s := FillElems(elems, i, slots)[k];
      && s.kind == slots[k].kind && s.name == slots[k].name
      && s.cell == if i <= k < i + |elems| && Accepts(TypeOf(elems[k - i]), slots[k].kind)
                   then Fill(elems[k - i], slots[k].cell) else slots[k].cell
    decreases |elems|
  {
    hide Fill, TypeOf, Accepts;
    if elems != [] {
      var j := if i < |slots| && Accepts(TypeOf(elems[0]), slots[i].kind) then i else |slots|;
      ElementPlaced(elems[1..], i + 1, Stored(slots, j, Fill(elems[0], CellAt(slots, j))), k);
    }
  }

  // ---------------------------------------------------------------------------
  // Bytes

  // The types of values (sections 2.2 to 2.14 of the AMF0 specification).
  lemma {:induction false} Types(v: Value)
    requires WellFormed(v)
    ensures ValueBytes(v)[0] ==
      match v
      case Number(_) => 0
      case Boolean(_) => 1
      case Str(text) => if |text| <= 0xFFFF then 2 else 12
      case Object(_) => 3
      case Null => 5
      case Undefined => 6
      case EcmaArray(_, _) => 8
      case StrictArray(_) => 10
  {
    hide Content;
  }

  lemma {:induction false} OneProp(name: byte, v: Value, more: seq<Prop>)
    requires WellFormed(v) && AllNamed(more)
    ensures var ps := [Prop([name], v)] + more;
      AllNamed(ps) && PropsBytes(ps) == [0, 1, name, TypeOf(v)] + Content(v) + PropsBytes(more)
  {
    hide Content, TypeOf, WellFormed;
    var ps := [Prop([name], v)] + more;
    assert ps[1..] == more && |ps[0].name| == 1 && Be16(1) == [0, 1];
  }

  lemma {:induction false} OneElem(v: Value, more: seq<Value>)
    requires WellFormed(v) && AllWellFormed(more)
    ensures AllWellFormed([v] + more) && ElemsBytes([v] + more) == [TypeOf(v)] + Content(v) + ElemsBytes(more)
  {
    hide Content, TypeOf, WellFormed;
    assert ([v] + more)[1..] == more;
  }

  lemma {:induction false} NoneHeld()
    ensures AllNamed([]) && PropsBytes([]) == [] && AllWellFormed([]) && ElemsBytes([]) == []
  {
  }

  lemma {:induction false} Contents(props: seq<Prop>, elems: seq<Value>, count: nat)
    requires AllNamed(props) && AllWellFormed(elems) && |elems| < POW32 && count < POW32
    ensures WellFormed(Object(props)) && ValueBytes(Object(props)) == [3] + (PropsBytes(props) + [0, 0, 9])
    ensures WellFormed(EcmaArray(count, props))
    ensures ValueBytes(EcmaArray(count, props)) == [8] + (Be32(count) + (PropsBytes(props) + [0, 0, 9]))
    ensures WellFormed(StrictArray(elems)) && ValueBytes(StrictArray(elems)) == [10] + (Be32(|elems|) + ElemsBytes(elems))
  {
    hide PropsBytes, ElemsBytes, AllNamed, AllWellFormed;
  }

  lemma {:induction false} Leaves(bits: bytes)
    requires |bits| == 8
    ensures WellFormed(Boolean(1)) && Content(Boolean(1)) == [1]
    ensures WellFormed(Str([0x68, 0x69])) && Content(Str([0x68, 0x69])) == [0, 2, 0x68, 0x69]
    ensures WellFormed(Number(bits)) && Content(Number(bits)) == bits && WellFormed(Null) && Content(Null) == []
    ensures TypeOf(Boolean(1)) == 1 && TypeOf(Str([0x68, 0x69])) == 2 && TypeOf(Number(bits)) == 0 && TypeOf(Null) == 5
  {
  }

  // An example, byte by byte: an object of which "a" is true and "b" is the text "hi".
  lemma {:induction false} ExampleBytes()
    ensures var v := Object([Prop([0x61], Boolean(1)), Prop([0x62], Str([0x68, 0x69]))]);
      WellFormed(v) &&
      ValueBytes(v) == [3] + ([0, 1, 0x61, 1] + [1] + ([0, 1, 0x62, 2] + [0, 2, 0x68, 0x69] + []) + [0, 0, 9])
  {
    hide PropsBytes, AllNamed, Content, ValueBytes, WellFormed, TypeOf;
    var x, y := Boolean(1), Str([0x68, 0x69]);
    Leaves([0, 0, 0, 0, 0, 0, 0, 0]);
    NoneHeld();
    OneProp(0x62, y, []);
    assert [Prop([0x62], y)] + [] == [Prop([0x62], y)];
    OneProp(0x61, x, [Prop([0x62], y)]);
    assert [Prop([0x61], x)] + [Prop([0x62], y)] == [Prop([0x61], x), Prop([0x62], y)];
    Contents([Prop([0x61], x), Prop([0x62], y)], [], 0);
  }

  // And an array of a number and null.
  lemma {:induction false} ExampleArray(bits: bytes)
    requires |bits| == 8
    ensures WellFormed(StrictArray([Number(bits), Null]))
    ensures ValueBytes(StrictArray([Number(bits), Null])) == [10] + ([0, 0, 0, 2] + ([0] + bits + ([5] + [] + [])))
  {
    hide ElemsBytes, AllWellFormed, Content, ValueBytes, WellFormed, TypeOf;
    var x, y := Number(bits), Null;
    Leaves(bits);
    NoneHeld();
    OneElem(y, []);
    assert [y] + [] == [y];
    OneElem(x, [y]);
    assert [x] + [y] == [x, y];
    Contents([], [x, y], 0);
    assert Be32(2) == [0, 0, 0, 2];
  }

  // The array of named values of "data" in an answer to a connect command, empty: type, count and end.
  lemma {:induction false} ExampleNamed()
    ensures WellFormed(EcmaArray(1, [])) && ValueBytes(EcmaArray(1, [])) == [8] + ([0, 0, 0, 1] + ([] + [0, 0, 9]))
  {
    hide PropsBytes, AllNamed, Content, ValueBytes, WellFormed;
    NoneHeld();
    Contents([], [], 1);
    assert Be32(1) == [0, 0, 0, 1];
  }
}
