/** The AMF0 writers: each fills a buffer from a position on, or reports that the room behind it does not suffice. */
module Amf0Writer {
  import opened Bytes
  import opened Amf0

  const NOWHERE := -1

  lemma {:induction false} WrittenTwice(before: bytes, at: nat, b: bytes, c: bytes)
    requires at + |b| + |c| <= |before|
    ensures Written(Written(before, at, b), at + |b|, c) == Written(before, at, b + c)
  {
  }

  method Put(buf: array<byte>, at: nat, b: bytes)
    requires at + |b| <= buf.Length
    modifies buf
    ensures buf[..] == Written(old(buf[..]), at, b)
  {
    forall i | 0 <= i < |b| { buf[at + i] := b[i]; }
  }

  method WriteInt16(buf: array<byte>, at: nat, end: nat, value: nat) returns (next: int)
    requires end <= buf.Length && value < 0x1_0000
    modifies buf
    ensures next == if at + 2 > end then NOWHERE else at + 2
    ensures buf[..] == if next == NOWHERE then old(buf[..]) else Written(old(buf[..]), at, Be16(value))
  {
    if at + 2 > end { return NOWHERE; }
    buf[at] := value / 0x100;
    buf[at + 1] := value % 0x100;
    return at + 2;
  }

  method WriteInt32(buf: array<byte>, at: nat, end: nat, value: nat) returns (next: int)
    requires end <= buf.Length && value < POW32
    modifies buf
    ensures next == if at + 4 > end then NOWHERE else at + 4
    ensures buf[..] == if next == NOWHERE then old(buf[..]) else Written(old(buf[..]), at, Be32(value))
  {
    if at + 4 > end { return NOWHERE; }
    buf[at] := value / 0x100_0000;
    buf[at + 1] := value / 0x1_0000 % 0x100;
    buf[at + 2] := value / 0x100 % 0x100;
    buf[at + 3] := value % 0x100;
    return at + 4;
  }

  // The length field keeps the low 16 bits of the length; all characters are written.
  method WriteString16(buf: array<byte>, at: nat, end: nat, text: bytes) returns (next: int)
    requires end <= buf.Length
    modifies buf
    ensures next == if at + 2 + |text| > end then NOWHERE else at + 2 + |text|
    ensures buf[..] == if next == NOWHERE then old(buf[..]) else Written(old(buf[..]), at, Be16(|text| % 0x1_0000) + text)
  {
    if at + 2 + |text| > end { return NOWHERE; }
    hide Be16, Written;
    WrittenTwice(buf[..], at, Be16(|text| % 0x1_0000), text);
    next := WriteInt16(buf, at, end, |text| % 0x1_0000);
    Put(buf, next, text);
    return next + |text|;
  }

  method WriteString32(buf: array<byte>, at: nat, end: nat, text: bytes) returns (next: int)
    requires end <= buf.Length
    modifies buf
    ensures next == if at + 4 + |text| > end then NOWHERE else at + 4 + |text|
    ensures buf[..] == if next == NOWHERE then old(buf[..]) else Written(old(buf[..]), at, Be32(|text| % POW32) + text)
  {
    if at + 4 + |text| > end { return NOWHERE; }
    hide Be32, Written;
    WrittenTwice(buf[..], at, Be32(|text| % POW32), text);
    next := WriteInt32(buf, at, end, |text| % POW32);
    Put(buf, next, text);
    return next + |text|;
  }

  // Null, undefined, and the byte that opens an object.
  method WriteMark(buf: array<byte>, at: int, end: nat, kind: byte) returns (next: int)
    requires end <= buf.Length && at >= NOWHERE
    modifies buf
    ensures next == if at == NOWHERE || at + 1 > end then NOWHERE else at + 1
    ensures buf[..] == if next == NOWHERE then old(buf[..]) else Written(old(buf[..]), at, [kind])
  {
    if at == NOWHERE || at + 1 > end { return NOWHERE; }
    buf[at] := kind;
    return at + 1;
  }

  method WriteObjectEnd(buf: array<byte>, at: int, end: nat) returns (next: int)
    requires end <= buf.Length && at >= NOWHERE
    modifies buf
    ensures next == if at == NOWHERE || at + 3 > end then NOWHERE else at + 3
    ensures buf[..] == if next == NOWHERE then old(buf[..]) else Written(old(buf[..]), at, END)
  {
    if at == NOWHERE || at + 3 > end { return NOWHERE; }
    buf[at] := 0;
    buf[at + 1] := 0;
    buf[at + 2] := OBJECT_END;
    return at + 3;
  }

  // The type byte is written even when the count does not fit.
  method WriteEcmaArray(buf: array<byte>, at: int, end: nat) returns (next: int)
    requires end <= buf.Length && at >= NOWHERE
    modifies buf
    ensures next == if at == NOWHERE || at + 5 > end then NOWHERE else at + 5
    ensures buf[..] == if at == NOWHERE || at + 1 > end then old(buf[..])
                       else Written(old(buf[..]), at, if next == NOWHERE then [ECMA_ARRAY] else [ECMA_ARRAY] + Be32(0))
  {
    if at == NOWHERE || at + 1 > end { return NOWHERE; }
    hide Be32, Written;
    if at + 5 <= end { WrittenTwice(buf[..], at, [ECMA_ARRAY], Be32(0)); }
    Put(buf, at, [ECMA_ARRAY]);
    next := WriteInt32(buf, at + 1, end, 0);
  }

  method WriteBoolean(buf: array<byte>, at: int, end: nat, value: byte) returns (next: int)
    requires end <= buf.Length && at >= NOWHERE
    modifies buf
    ensures next == if at == NOWHERE || at + 2 > end then NOWHERE else at + 2
    ensures buf[..] == if next == NOWHERE then old(buf[..])
                       else Written(old(buf[..]), at, ValueBytes(Boolean(if value == 0 then 0 else 1)))
  {
    if at == NOWHERE || at + 2 > end { return NOWHERE; }
    buf[at] := BOOLEAN;
    buf[at + 1] := if value == 0 then 0 else 1;
    return at + 2;
  }

  // The eight bytes of a number, most significant first.
  method WriteDouble(buf: array<byte>, at: int, end: nat, bits: bytes) returns (next: int)
    requires end <= buf.Length && at >= NOWHERE && |bits| == 8
    modifies buf
    ensures next == if at == NOWHERE || at + 9 > end then NOWHERE else at + 9
    ensures buf[..] == if next == NOWHERE then old(buf[..]) else Written(old(buf[..]), at, ValueBytes(Number(bits)))
  {
    if at == NOWHERE || at + 9 > end { return NOWHERE; }
    hide Written;
    WrittenTwice(buf[..], at, [NUMBER], bits);
    Put(buf, at, [NUMBER]);
    Put(buf, at + 1, bits);
    return at + 9;
  }

  method WriteString(buf: array<byte>, at: int, end: nat, text: bytes) returns (next: int)
    requires end <= buf.Length && at >= NOWHERE
    modifies buf
    ensures var size := (if |text| < 0x1_0000 then 3 else 5) + |text|;
            next == if at == NOWHERE || at + size > end || |text| >= POW32 then NOWHERE else at + size
    ensures buf[..] == if next == NOWHERE then old(buf[..]) else Written(old(buf[..]), at, ValueBytes(Str(text)))
  {
    if at == NOWHERE || at + 1 + (if |text| < 0x1_0000 then 2 else 4) + |text| > end || |text| >= POW32 {
      return NOWHERE;
    }
    StrBytes(text);
    hide Written, Be16, Be32, ValueBytes;
    if |text| < 0x1_0000 {
      WrittenTwice(buf[..], at, [STRING], Be16(|text| % 0x1_0000) + text);
      Put(buf, at, [STRING]);
      next := WriteString16(buf, at + 1, end, text);
    } else {
      WrittenTwice(buf[..], at, [LONG_STRING], Be32(|text| % POW32) + text);
      Put(buf, at, [LONG_STRING]);
      next := WriteString32(buf, at + 1, end, text);
    }
  }

  lemma {:induction false} StrBytes(text: bytes)
    requires |text| < POW32
    ensures ValueBytes(Str(text)) == if |text| < 0x1_0000 then [STRING] + (Be16(|text| % 0x1_0000) + text)
                                     else [LONG_STRING] + (Be32(|text| % POW32) + text)
  {
    hide Be16, Be32;
  }

  // ---------------------------------------------------------------------------
  // Named properties

  // A property as written; names of 65536 bytes and more leave a length field that does not fit them.
  function Named(name: bytes, v: Value): bytes
    requires WellFormed(v)
  {
    Be16(|name| % 0x1_0000) + name + ValueBytes(v)
  }

  method WriteNamedBoolean(buf: array<byte>, at: nat, end: nat, name: bytes, value: byte) returns (next: int)
    requires end <= buf.Length
    modifies buf
    ensures next == if at + |name| + 4 > end then NOWHERE else at + |name| + 4
    ensures buf[..] == if next == NOWHERE then old(buf[..])
                       else Written(old(buf[..]), at, Named(name, Boolean(if value == 0 then 0 else 1)))
  {
    if at + |name| + 2 + 2 > end { return NOWHERE; }
    ghost var v := Boolean(if value == 0 then 0 else 1);
    assert |ValueBytes(v)| == 2;
    hide Written, ValueBytes, Be16;
    WrittenTwice(buf[..], at, Be16(|name| % 0x1_0000) + name, ValueBytes(v));
    next := WriteString16(buf, at, end, name);
    if next != NOWHERE { next := WriteBoolean(buf, next, end, value); }
  }

  method WriteNamedDouble(buf: array<byte>, at: nat, end: nat, name: bytes, bits: bytes) returns (next: int)
    requires end <= buf.Length && |bits| == 8
    modifies buf
    ensures next == if at + |name| + 11 > end then NOWHERE else at + |name| + 11
    ensures buf[..] == if next == NOWHERE then old(buf[..]) else Written(old(buf[..]), at, Named(name, Number(bits)))
  {
    if at + |name| + 2 + 8 + 1 > end { return NOWHERE; }
    assert |ValueBytes(Number(bits))| == 9;
    hide Written, ValueBytes, Be16;
    WrittenTwice(buf[..], at, Be16(|name| % 0x1_0000) + name, ValueBytes(Number(bits)));
    next := WriteString16(buf, at, end, name);
    if next != NOWHERE { next := WriteDouble(buf, next, end, bits); }
  }

  lemma {:induction false} StringSize(text: bytes) returns (size: nat)
    requires |text| < POW32
    ensures size == |ValueBytes(Str(text))| == |text| + if |text| < 0x1_0000 then 3 else 5
  {
    size := |ValueBytes(Str(text))|;
  }

  // The room is checked for a short text; when a long one does not fit, the name is left behind.
  method WriteNamedString(buf: array<byte>, at: nat, end: nat, name: bytes, text: bytes) returns (next: int)
    requires end <= buf.Length && |text| < POW32
    modifies buf
    ensures var size := |name| + |text| + if |text| < 0x1_0000 then 5 else 7;
            next == if at + size > end then NOWHERE else at + size
    ensures buf[..] == if at + |name| + |text| + 5 > end then old(buf[..])
                       else if next == NOWHERE then Written(old(buf[..]), at, Be16(|name| % 0x1_0000) + name)
                       else Written(old(buf[..]), at, Named(name, Str(text)))
  {
    if at + |name| + 2 + |text| + 3 > end { return NOWHERE; }
    ghost var size := StringSize(text);
    hide Written, ValueBytes, Be16;
    if at + |name| + 2 + size <= buf.Length {
      WrittenTwice(buf[..], at, Be16(|name| % 0x1_0000) + name, ValueBytes(Str(text)));
    }
    next := WriteString16(buf, at, end, name);
    if next != NOWHERE { next := WriteString(buf, next, end, text); }
  }

  // ---------------------------------------------------------------------------
  // Writing an object piece by piece

  lemma {:induction false} NamedProp(props: seq<Prop>, p: Prop)
    requires AllNamed(props + [p]) && AllNamed(props)
    ensures 0 < |p.name| < 0x1_0000 && WellFormed(p.value) && PropsBytes(props + [p]) == PropsBytes(props) + Named(p.name, p.value)
    decreases |props|
  {
    hide Be16, Content, TypeOf, WellFormed;
    var all := props + [p];
    if props == [] {
      assert all == [p] && all[1..] == [];
      assert PropsBytes(all[1..]) == [];
    } else {
      assert all[1..] == props[1..] + [p];
      NamedProp(props[1..], p);
    }
  }

  lemma {:induction false} WrittenReadsBack(before: bytes, at: nat, v: Value, cell: Cell)
    requires WellFormed(v) && at + |ValueBytes(v)| <= |before|
    ensures ReadItem(Written(before, at, ValueBytes(v))[at + 1..], TypeOf(v), cell)
         == ItemRead(true, before[at + |ValueBytes(v)|..], Fill(v, cell))
  {
    hide Content, TypeOf, Fill;
    var tail := before[at + |ValueBytes(v)|..];
    assert Written(before, at, ValueBytes(v))[at + 1..] == Content(v) + tail;
    ItemReadsBack(v, tail, cell);
  }

  lemma {:induction false} ObjectBytes(props: seq<Prop>)
    requires AllNamed(props)
    ensures WellFormed(Object(props)) && ValueBytes(Object(props)) == [OBJECT] + PropsBytes(props) + END
  {
    hide PropsBytes, AllNamed;
  }

  // The mark, the named properties and the end mark, written one behind the other, are an object.
  lemma {:induction false} ObjectPieces(before: bytes, at: nat, props: seq<Prop>)
    requires AllNamed(props) && at + 4 + |PropsBytes(props)| <= |before|
    ensures
      var begun := Written(before, at, [OBJECT]);
      var filled := Written(begun, at + 1, PropsBytes(props));
      Written(filled, at + 1 + |PropsBytes(props)|, END) == Written(before, at, ValueBytes(Object(props)))
  {
    ObjectBytes(props);
    hide Written, ValueBytes, PropsBytes, AllNamed;
    WrittenTwice(before, at, [OBJECT], PropsBytes(props));
    WrittenTwice(before, at, [OBJECT] + PropsBytes(props), END);
  }

  // The reader reads such an object back.
  lemma {:induction false} ObjectWritten(before: bytes, at: nat, props: seq<Prop>, slots: seq<Slot>)
    requires AllNamed(props) && at + 4 + |PropsBytes(props)| <= |before|
    ensures
      var begun := Written(before, at, [OBJECT]);
      var filled := Written(begun, at + 1, PropsBytes(props));
      var after := Written(filled, at + 1 + |PropsBytes(props)|, END);
      ReadItem(after[at + 1..], OBJECT, Items(slots))
        == ItemRead(true, before[at + 4 + |PropsBytes(props)|..], Items(FillProps(props, slots)))
  {
    ObjectBytes(props);
    hide Written, ValueBytes, PropsBytes, AllNamed, ReadItem, FillProps, WellFormed;
    ObjectPieces(before, at, props);
    WrittenReadsBack(before, at, Object(props), Items(slots));
  }
}
