/** The ids by which H.265 parameter sets are told apart. */
module HevcIds {
  import opened Bytes
  import opened Options
  import opened ExpGolomb
  import opened Emulation
  import opened HevcRecord

  // A set's own id and that of the set it refers to; the latter is left unset where decoding gives up.
  datatype Key = Key(own: byte, other: Option<byte>)

  // The bytes of the sub-layers that are flagged as present: eleven for a profile, one for a level.
  function Present(d: bytes, n: nat): nat
    requires n <= 7 && |d| >= 14
  {
    if n == 0 then 0 else Present(d, n - 1) + 11 * Bit(d, 96 + 2 * (n - 1)) + Bit(d, 97 + 2 * (n - 1))
  }

  // The size of the profile, tier and level part, if it is complete.
  function TierSize(d: bytes, layers: nat): Option<nat>
    requires layers <= 7
  {
    if |d| < 12 then None
    else if layers < 1 then Some(12)
    else if |d| < 14 then None
    else if |d| >= 14 + Present(d, layers) then Some(14 + Present(d, layers))
    else None
  }

  // A video parameter set refers to no other.
  function VpsKey(d: bytes): Key { Key(if |d| < 18 then 0xFF else d[2] as nat / 16, Some(0)) }

  // The length of an incomplete part, -1, is taken modulo 2^64 and scaled to bits, which leads to bit 16.
  function SpsKey(d: bytes): Key {
    if |d| < 15 then Key(0xFF, None)
    else
      var t := TierSize(d[3..], d[2] as nat / 2 % 8);
      Key(ReadUe(d, if t.Some? then 8 * (t.value + 3) else 16).value, Some(d[2] as nat / 16))
  }

  function PpsKey(d: bytes): Key {
    if |d| < 3 then Key(0xFF, None)
    else
      var p := ReadUe(d, 16);
      Key(ReadUe(d, p.next).value, Some(p.value))
  }

  predicate IsSet(kind: nat) { kind == VPS || kind == SPS || kind == PPS }

  function KeyOf(kind: nat, d: bytes): Key
    requires IsSet(kind)
  {
    if kind == VPS then VpsKey(d) else if kind == SPS then SpsKey(d) else PpsKey(d)
  }

  // The key read from a set that is decoded into the given room.
  function KeyIn(kind: nat, h: bytes, room: nat): Key
    requires IsSet(kind)
  {
    KeyOf(kind, Decoded(h, room))
  }

  // From room for 257 bytes on, a set has one key.
  lemma {:induction false} KeyEnough(kind: nat, h: bytes, room: nat)
    requires IsSet(kind) && room >= 257
    ensures KeyIn(kind, h, room) == KeyIn(kind, h, 257)
  {
    hide KeyOf;
    EagerEnough(h, 0, 0, room);
  }

  // ---------------------------------------------------------------------------
  // Reading

  method ProfileTierLevel(d: bytes, layers: nat) returns (n: int)
    requires layers <= 7
    ensures n == match TierSize(d, layers) case Some(size) => size case None => -1
  {
    hide Bit;
    if |d| < 12 { return -1; }
    if layers < 1 { return 12; }
    if |d| < 14 { return -1; }
    var profiles, levels: seq<nat> := [], [];
    for i := 0 to layers
      invariant |profiles| == |levels| == i
      invariant forall k :: 0 <= k < i ==> profiles[k] == Bit(d, 96 + 2 * k) && levels[k] == Bit(d, 97 + 2 * k)
    {
      profiles, levels := profiles + [Bit(d, 96 + 2 * i)], levels + [Bit(d, 97 + 2 * i)];
    }
    n := 14;
    for i := 0 to layers
      invariant n == 14 + Present(d, i)
    {
      if profiles[i] != 0 { n := n + 11; }
      if levels[i] != 0 { n := n + 1; }
    }
    if |d| < n { n := -1; }
  }

  method ReadSpsKey(d: bytes) returns (key: Key)
    ensures key == SpsKey(d)
  {
    hide ReadUe, TierSize;
    if |d| < 15 { return Key(0xFF, None); }
    var n := ProfileTierLevel(d[3..], d[2] as nat / 2 % 8);
    var at := ((n + POW64) % POW64 + 3) * 8 % POW64;
    TierBound(d[3..], d[2] as nat / 2 % 8);
    var own, _ := ReadUeBits(d, at);
    key := Key(own, Some(d[2] as nat / 16));
  }

  lemma {:induction false} TierBound(d: bytes, layers: nat)
    requires layers <= 7
    ensures var t := TierSize(d, layers); t.Some? ==> t.value <= 14 + 84
  {
    if |d| >= 14 { PresentBound(d, layers); }
  }

  lemma {:induction false} PresentBound(d: bytes, n: nat)
    requires n <= 7 && |d| >= 14
    ensures Present(d, n) <= 12 * n
  {
    hide Bit;
    if n > 0 { PresentBound(d, n - 1); }
  }

  method ReadPpsKey(d: bytes) returns (key: Key)
    ensures key == PpsKey(d)
  {
    hide ReadUe;
    if |d| < 3 { return Key(0xFF, None); }
    var other, next := ReadUeBits(d, 16);
    var own, _ := ReadUeBits(d, next);
    key := Key(own, Some(other));
  }

  method ReadKey(kind: nat, d: bytes) returns (key: Key)
    requires IsSet(kind)
    ensures key == KeyOf(kind, d)
  {
    if kind == VPS {
      key := Key(if |d| < 18 then 0xFF else d[2] as nat / 16, Some(0));
    } else if kind == SPS {
      key := ReadSpsKey(d);
    } else {
      key := ReadPpsKey(d);
    }
  }
}
