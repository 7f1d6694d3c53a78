/** The FLV writers as they fill buffers, and the muxer that joins the filled buffers to one that is handed on. */
module FlvWrite {
  import opened Bytes
  import opened FlvParser
  import opened FlvMux

  lemma {:induction false} Front(before: bytes, x: bytes)
    requires |x| <= |before|
    ensures Written(before, 0, x) == x + before[|x|..]
    ensures |x| == |before| ==> Written(before, 0, x) == x
  {
  }

  method WriteUint32(buf: array<byte>, at: nat, v: nat)
    requires at + 4 <= buf.Length && v < POW32
    modifies buf
    ensures buf[..] == old(buf[..at]) + Be32(v) + old(buf[at + 4..])
  {
    buf[at] := v / 0x100_0000 % 256;
    buf[at + 1] := v / 0x1_0000 % 256;
    buf[at + 2] := v / 0x100 % 256;
    buf[at + 3] := v % 256;
  }

  method WriteUint24(buf: array<byte>, at: nat, v: nat)
    requires at + 3 <= buf.Length
    modifies buf
    ensures forall i :: 0 <= i < 3 ==> buf[at + i] == Be24(v % 0x100_0000)[i]
    ensures forall i :: 0 <= i < buf.Length && !(at <= i < at + 3) ==> buf[i] == old(buf[i])
  {
    LowBytes(v);
    buf[at] := v / 0x1_0000 % 256;
    buf[at + 1] := v / 0x100 % 256;
    buf[at + 2] := v % 256;
  }

  method TagSizeWrite(buf: array<byte>, size: nat) returns (r: int)
    requires size < POW32
    modifies buf
    ensures r == if buf.Length < TAG_SIZE then -1 else TAG_SIZE
    ensures buf[..] == if r < 0 then old(buf[..]) else Written(old(buf[..]), 0, Be32(size))
  {
    hide Written;
    if buf.Length < TAG_SIZE { return -1; }
    Front(buf[..], Be32(size));
    WriteUint32(buf, 0, size);
    return TAG_SIZE;
  }

  method HeaderWrite(audio: bool, video: bool, buf: array<byte>) returns (r: int)
    modifies buf
    ensures r == if buf.Length < HEADER_SIZE then -1 else HEADER_SIZE
    ensures buf[..] == if r < 0 then old(buf[..]) else Written(old(buf[..]), 0, HeaderBytes(audio, video))
  {
    hide Written;
    if buf.Length < HEADER_SIZE { return -1; }
    Front(buf[..], HeaderBytes(audio, video));
    buf[0], buf[1], buf[2] := 0x46, 0x4C, 0x56;
    buf[3] := 1;
    buf[4] := (if audio then 4 else 0) + (if video then 1 else 0);
    WriteUint32(buf, 5, HEADER_SIZE);
    return HEADER_SIZE;
  }

  method TagHeaderWrite(tag: Tag, buf: array<byte>) returns (r: int)
    requires tag.timestamp < POW32
    modifies buf
    ensures r == if buf.Length < TAG_HEADER_SIZE || !KnownKind(tag.kind) then -1 else TAG_HEADER_SIZE
    ensures buf[..] == if r < 0 then old(buf[..]) else Written(old(buf[..]), 0, TagHeaderBytes(tag))
  {
    if buf.Length < TAG_HEADER_SIZE { return -1; }
    if !KnownKind(tag.kind) { return -1; }
    hide Written, TagHeaderBytes;
    Front(buf[..], TagHeaderBytes(tag));
    FillTagHeader(tag, buf);
    return TAG_HEADER_SIZE;
  }

  method FillTagHeader(tag: Tag, buf: array<byte>)
    requires tag.timestamp < POW32 && KnownKind(tag.kind) && buf.Length >= TAG_HEADER_SIZE
    modifies buf
    ensures buf[..] == TagHeaderBytes(tag) + old(buf[TAG_HEADER_SIZE..])
  {
    hide Be24, TagHeaderBytes;
    TagHeaderParts(tag);
    buf[0] := tag.kind % 32 + tag.filter % 2 * 32;
    WriteUint24(buf, 1, tag.size);
    WriteUint24(buf, 4, tag.timestamp);
    buf[7] := tag.timestamp / 0x100_0000 % 256;
    WriteUint24(buf, 8, tag.streamId);
    assert buf[1..4] == Be24(tag.size % 0x100_0000);
    assert buf[4..7] == Be24(tag.timestamp % 0x100_0000);
    assert buf[8..11] == Be24(tag.streamId % 0x100_0000);
    assert buf[..11] == buf[..1] + buf[1..4] + buf[4..7] + buf[7..8] + buf[8..11];
  }

  lemma {:induction false} TagHeaderParts(tag: Tag)
    requires tag.timestamp < POW32 && KnownKind(tag.kind)
    ensures TagHeaderBytes(tag)
         == [tag.kind % 32 + tag.filter % 2 * 32] + Be24(tag.size % 0x100_0000) + Be24(tag.timestamp % 0x100_0000)
            + [tag.timestamp / 0x100_0000 % 256] + Be24(tag.streamId % 0x100_0000)
  {
    hide Be24;
  }

  // What lies above a byte does not show in it.
  lemma {:induction false} HighGone(hi: nat, low: nat)
    ensures (hi * 256 + low) % 256 == low % 256
  {
  }

  lemma {:induction false} LowByte(hi: nat, low: nat)
    requires low < 0x100_0000
    ensures (hi * 0x100_0000 + low) / 0x1_0000 % 256 == low / 0x1_0000
    ensures (hi * 0x100_0000 + low) / 0x100 % 256 == low / 0x100 % 256
    ensures (hi * 0x100_0000 + low) % 256 == low % 256
  {
    assert (hi * 0x100_0000 + low) / 0x1_0000 == hi * 256 + low / 0x1_0000;
    assert (hi * 0x100_0000 + low) / 0x100 == hi * 0x100 * 256 + low / 0x100;
    HighGone(hi, low / 0x1_0000);
    HighGone(hi * 0x100, low / 0x100);
    HighGone(hi * 0x1_0000, low);
  }

  lemma {:induction false} LowBytes(v: nat)
    ensures Be24(v % 0x100_0000) == [v / 0x1_0000 % 256, v / 0x100 % 256, v % 256]
  {
    LowByte(v / 0x100_0000, v % 0x100_0000);
    assert v == v / 0x100_0000 * 0x100_0000 + v % 0x100_0000;
  }

  method AudioHeaderWrite(a: AudioHead, buf: array<byte>) returns (r: int)
    requires a.codec < 256 && a.codec % 16 == 0
    modifies buf
    ensures var n := if AudioHasPacket(a.codec) then 2 else 1;
            r == if buf.Length < n || (n == 2 && a.packet > AVPACKET) then -1 else n
    ensures buf[..] == if r < 0 then old(buf[..])
                       else Written(old(buf[..]), 0, AudioHeadBytes(a.(rate := a.rate % 4, bits := a.bits % 2, channels := a.channels % 2)))
  {
    hide Written;
    if buf.Length < 1 + (if AudioHasPacket(a.codec) then 1 else 0) { return -1; }
    if AudioHasPacket(a.codec) {
      if a.packet != SEQUENCE_HEADER && a.packet != AVPACKET { return -1; }
      Front(buf[..], [a.codec + 15, a.packet]);
      buf[0] := a.codec + 15;
      buf[1] := a.packet;
      return 2;
    } else {
      Front(buf[..], [a.codec + a.rate % 4 * 4 + a.bits % 2 * 2 + a.channels % 2]);
      buf[0] := a.codec + a.rate % 4 * 4 + a.bits % 2 * 2 + a.channels % 2;
      return 1;
    }
  }

  lemma {:induction false} Remainder(x: int, k: int, t: int)
    requires x == k * 0x100_0000 + t && 0 <= t < 0x100_0000
    ensures x % 0x100_0000 == t
  {
  }

  lemma {:induction false} LowBits(x: int)
    ensures x % POW32 % 0x100_0000 == x % 0x100_0000
  {
    var r := x % POW32;
    Remainder(x, x / POW32 * 256 + r / 0x100_0000, r % 0x100_0000);
  }

  lemma {:induction false} PacketHead(v: VideoHead)
    requires v.keyframe < 16 && v.codec < 16 && VideoHasPacket(v.codec) && v.packet <= END_OF_SEQUENCE
    ensures VideoHeadBytes(v.(cts := Wrapped24(v.cts)))
         == [v.keyframe * 16 + v.codec, v.packet] + Be24(v.cts % POW32 % 0x100_0000)
  {
    LowBits(v.cts);
  }

  // What follows the first byte of a video header with a packet type.
  method WritePacketHead(v: VideoHead, buf: array<byte>)
    requires v.keyframe < 16 && v.codec < 16 && VideoHasPacket(v.codec) && v.packet <= END_OF_SEQUENCE
    requires buf.Length >= 5 && buf[0] == v.keyframe * 16 + v.codec
    modifies buf
    ensures buf[..] == VideoHeadBytes(v.(cts := Wrapped24(v.cts))) + old(buf[5..])
  {
    PacketHead(v);
    hide Be24, VideoHeadBytes, Wrapped24;
    var cts := v.cts % POW32;
    buf[1] := v.packet;
    WriteUint24(buf, 2, cts);
    assert buf[2..5] == Be24(cts % 0x100_0000);
    assert buf[..] == buf[..2] + buf[2..5] + buf[5..];
  }

  // The first byte is written before the packet type and the room for the rest are looked at.
  method VideoHeaderWrite(v: VideoHead, buf: array<byte>) returns (r: int)
    requires v.keyframe < 16 && v.codec < 16
    modifies buf
    ensures var n := if VideoHasPacket(v.codec) then 5 else 1;
            r == if buf.Length < n || (n == 5 && v.packet > END_OF_SEQUENCE) then -1 else n
    ensures buf[..] == if buf.Length == 0 then old(buf[..])
                       else if r < 0 then Written(old(buf[..]), 0, [v.keyframe * 16 + v.codec])
                       else Written(old(buf[..]), 0, VideoHeadBytes(v.(cts := Wrapped24(v.cts))))
  {
    if buf.Length < 1 { return -1; }
    assert !VideoHasPacket(v.codec) ==> VideoHeadBytes(v.(cts := Wrapped24(v.cts))) == [v.keyframe * 16 + v.codec];
    assert VideoHasPacket(v.codec) && v.packet <= END_OF_SEQUENCE ==> |VideoHeadBytes(v.(cts := Wrapped24(v.cts)))| == 5;
    hide VideoHeadBytes, Wrapped24, Written;
    Front(buf[..], [v.keyframe * 16 + v.codec]);
    ghost var before := buf[..];
    buf[0] := v.keyframe * 16 + v.codec % 16;
    if !VideoHasPacket(v.codec) { return 1; }
    if v.packet != SEQUENCE_HEADER && v.packet != AVPACKET && v.packet != END_OF_SEQUENCE { return -1; }
    if buf.Length < 5 { return -1; }
    Front(before, VideoHeadBytes(v.(cts := Wrapped24(v.cts))));
    WritePacketHead(v, buf);
    return 5;
  }

  // The composition time that 24 bits can hold.
  function Wrapped24(cts: int): (w: int)
    ensures -0x80_0000 <= w < 0x80_0000 && w % 0x100_0000 == cts % 0x100_0000
    ensures -0x80_0000 <= cts < 0x80_0000 ==> w == cts
  {
    Signed24(cts % 0x100_0000)
  }

  method Place(src: array<byte>, dst: array<byte>, at: nat)
    requires src != dst && at + src.Length <= dst.Length
    modifies dst
    ensures dst[..] == old(dst[..at]) + src[..] + old(dst[at + src.Length..])
  {
    forall i | 0 <= i < src.Length { dst[at + i] := src[i]; }
  }

  // ---------------------------------------------------------------------------
  // The muxer

  method Placed(a: array<byte>, b: array<byte>, c: array<byte>) returns (buf: array<byte>)
    ensures fresh(buf) && buf[..] == a[..] + b[..] + c[..]
  {
    buf := new byte[a.Length + b.Length + c.Length];
    Place(a, buf, 0);
    assert buf[..a.Length] == a[..];
    Place(b, buf, a.Length);
    assert buf[..a.Length + b.Length] == a[..] + b[..];
    Place(c, buf, a.Length + b.Length);
  }

  // A buffer of its own for the size of a tag, and one for a tag header.
  method SizeBuffer(size: nat) returns (buf: array<byte>)
    requires size < POW32
    ensures fresh(buf) && buf[..] == Be32(size)
  {
    hide Written, Be32;
    buf := new byte[TAG_SIZE];
    Front(buf[..], Be32(size));
    var r := TagSizeWrite(buf, size);
  }

  method HeadBuffer(tag: Tag) returns (r: int, buf: array<byte>)
    requires tag.timestamp < POW32
    ensures fresh(buf) && (r < 0 <==> !KnownKind(tag.kind)) && (r >= 0 ==> buf[..] == TagHeaderBytes(tag))
  {
    hide Written;
    buf := new byte[TAG_HEADER_SIZE];
    if KnownKind(tag.kind) { Front(buf[..], TagHeaderBytes(tag)); }
    r := TagHeaderWrite(tag, buf);
  }

  method MakeTagData(kind: nat, body: array<byte>, timestamp: int) returns (buf: array<byte>)
    ensures fresh(buf) && buf[..] == if KnownKind(kind) then TagData(kind, body[..], timestamp) else []
  {
    hide TagHeaderBytes, Be32;
    var r, head := HeadBuffer(Tag(0, kind, body.Length, timestamp % POW32, 0));
    if r < 0 {
      buf := new byte[0];
      return;
    }
    var size := SizeBuffer((TAG_HEADER_SIZE + body.Length) % POW32);
    buf := Placed(head, body, size);
  }

  method MakeHeaderData(audio: bool, video: bool) returns (buf: array<byte>)
    ensures fresh(buf) && buf[..] == HeaderData(audio, video)
  {
    hide Written, Be32;
    var head: array<byte> := new byte[HEADER_SIZE];
    Front(head[..], HeaderBytes(audio, video));
    var r := HeaderWrite(audio, video, head);
    var size := SizeBuffer(0);
    buf := new byte[head.Length + size.Length];
    Place(head, buf, 0);
    assert buf[..head.Length] == head[..];
    Place(size, buf, head.Length);
  }

  method MakeStandardTagData(kind: nat, body: array<byte>, previous: nat, timestamp: int) returns (buf: array<byte>)
    requires previous < POW32
    ensures fresh(buf) && buf[..] == if KnownKind(kind) then StandardTagData(kind, body[..], previous, timestamp) else []
  {
    hide TagHeaderBytes, Be32;
    var size := SizeBuffer(previous);
    var r, head := HeadBuffer(Tag(0, kind, body.Length, timestamp % POW32, 0));
    if r < 0 {
      buf := new byte[0];
      return;
    }
    buf := Placed(size, head, body);
  }
}
