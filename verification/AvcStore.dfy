/** The H.264 parameter-set store in its arena: slices into one buffer, which is compacted when a set is replaced. */
module AvcStore {
  import opened Bytes
  import opened Arena
  import opened ExpGolomb
  import S = AvcSets

  method Memmove(a: array<byte>, dst: nat, src: nat, n: nat)
    requires dst + n <= a.Length && src + n <= a.Length
    modifies a
    ensures forall i :: 0 <= i < a.Length ==>
      a[i] == if dst <= i < dst + n then old(a[src + i - dst]) else old(a[i])
  {
    forall i | 0 <= i < n { a[dst + i] := a[src + i]; }
  }

  method Memcpy(a: array<byte>, dst: nat, from: bytes)
    requires dst + |from| <= a.Length
    modifies a
    ensures forall i :: 0 <= i < a.Length ==>
      a[i] == if dst <= i < dst + |from| then from[i - dst] else old(a[i])
  {
    forall i | 0 <= i < |from| { a[dst + i] := from[i]; }
  }

  method SqueezeOut(a: array<byte>, p: nat, n: nat, total: nat)
    requires p + n <= total <= a.Length
    modifies a
    ensures Squeezed(old(a[..]), a[..], p, n, total)
  {
    Memmove(a, p, p + n, total - p - n);
  }

  method CopyIn(a: array<byte>, at: nat, from: bytes)
    requires at + |from| <= a.Length
    modifies a
    ensures Copied(old(a[..]), a[..], at, from)
  {
    Memcpy(a, at, from);
  }

  // Move the slices of `ss` that start behind `p` down by `n`.
  method ShiftAll(ss: array<Slice>, count: nat, p: nat, n: nat)
    requires count <= ss.Length
    requires forall i :: 0 <= i < count && ss[i].start > p ==> ss[i].start >= n
    modifies ss
    ensures ss[..count] == Shifted(old(ss[..count]), p, n)
  {
    ghost var before := ss[..];
    for i := 0 to count
      invariant forall j :: 0 <= j < i ==> ss[j] == Shifted(before[..count], p, n)[j]
      invariant forall j :: i <= j < count ==> ss[j] == before[j]
    {
      if ss[i].start > p { ss[i] := Slice(ss[i].start - n, ss[i].len); }
    }
  }

  class AvcStore {
    const data: array<byte>
    const sps: array<Slice>
    const pps: array<Slice>
    var nbSps: nat
    var nbPps: nat
    var off: nat

    ghost function Slices(): seq<Slice>
      reads this, sps, pps
      requires nbSps <= sps.Length && nbPps <= pps.Length
    {
      sps[..nbSps] + pps[..nbPps]
    }

    ghost predicate Layout()
      reads this, data, sps, pps
    {
      && data.Length == S.ARENA && sps.Length == S.MAX_SPS && pps.Length == S.PPS_WRAP && sps != pps
      && nbSps <= S.MAX_SPS && nbPps < S.PPS_WRAP && off <= S.ARENA
      && (forall i :: 0 <= i < nbSps ==> sps[i].End() <= S.ARENA)
      && (forall i :: 0 <= i < nbPps ==> pps[i].End() <= S.ARENA)
    }

    // No two sets share a byte; with `full`, every byte in use belongs to one, as it does until the counter of picture
    // parameter sets wraps.
    ghost predicate Valid(full: bool)
      reads this, data, sps, pps
    {
      Layout() && Tiles(Slices(), -1, off, full)
    }

    ghost function Value(): S.Sets
      reads this, data, sps, pps
      requires Layout()
    {
      S.Sets(Contents(data[..], sps[..nbSps]), Contents(data[..], pps[..nbPps]), off)
    }

    constructor ()
      ensures Valid(true) && Value() == S.NO_SETS
      ensures fresh(data) && fresh(sps) && fresh(pps)
    {
      data := new byte[S.ARENA];
      sps := new Slice[S.MAX_SPS];
      pps := new Slice[S.PPS_WRAP];
      nbSps, nbPps, off := 0, 0, 0;
    }

    // Squeeze the `n` bytes at `p` out of the arena in use, and move the slices behind them.
    method Remove(p: nat, n: nat)
      requires Layout() && p + n <= off
      requires forall j :: 0 <= j < |Slices()| && Slices()[j].start > p ==> Slices()[j].start >= n
      modifies data, sps, pps
      ensures Layout() && Squeezed(old(data[..]), data[..], p, n, off)
      ensures Slices() == Shifted(old(Slices()), p, n)
    {
      assert Slices() == sps[..nbSps] + pps[..nbPps];
      ShiftedConcat(sps[..nbSps], pps[..nbPps], p, n);
      hide Squeezed, Shifted;
      SqueezeOut(data, p, n, off);
      ghost var squeezed := data[..];
      ShiftAll(sps, nbSps, p, n);
      ShiftAll(pps, nbPps, p, n);
      assert data[..] == squeezed;
    }

    ghost predicate Holds(list: array<Slice>, i: nat)
      reads this
    {
      (list == sps && i < nbSps) || (list == pps && i < nbPps)
    }

    // The number of entry `i` of `list` among all slices.
    ghost function Number(list: array<Slice>, i: nat): nat
      reads this
    {
      if list == sps then i else nbSps + i
    }

    // Take entry `i` of `list` out of the arena; its own slice is left as it was.
    method CutOut(list: array<Slice>, i: nat)
      requires Layout() && Holds(list, i) && list[i].End() <= off
      requires forall j :: 0 <= j < |Slices()| && Slices()[j].start > list[i].start ==> Slices()[j].start >= list[i].len
      modifies this`off, data, sps, pps
      ensures Layout() && off == old(off) - old(list[i].len) && list[i] == old(list[i])
      ensures Squeezed(old(data[..]), data[..], old(list[i].start), old(list[i].len), old(off))
      ensures Slices() == Shifted(old(Slices()), old(list[i].start), old(list[i].len))
    {
      SlicesAt();
      hide Squeezed, Shifted, Slices;
      ghost var ss, k := Slices(), Number(list, i);
      EntryStays(ss, list[i].start, list[i].len, k);
      Remove(list[i].start, list[i].len);
      SlicesAt();
      assert Slices()[k] == ss[k];
      off := off - list[i].len;
    }

    method WriteEntry(list: array<Slice>, i: nat, nalu: bytes)
      requires Layout() && Holds(list, i) && off + |nalu| <= S.ARENA
      modifies this`off, data, list
      ensures Layout() && off == old(off) + |nalu|
      ensures Copied(old(data[..]), data[..], old(off), nalu)
      ensures Slices() == old(Slices())[Number(list, i) := Slice(old(off), |nalu|)]
    {
      hide Copied;
      list[i] := Slice(off, |nalu|);
      CopyIn(data, off, nalu);
      off := off + |nalu|;
    }

    // Replace entry `i` of `list` by `nalu`, which goes to the end of the arena.
    method Replace(list: array<Slice>, i: nat, nalu: bytes, ghost full: bool)
      requires Valid(full) && nalu != [] && Holds(list, i) && off - list[i].len + |nalu| <= S.ARENA
      modifies this`off, data, sps, pps
      ensures Valid(full) && off == old(off) - old(list[i].len) + |nalu|
      ensures Contents(data[..], Slices()) == old(Contents(data[..], Slices()))[Number(list, i) := nalu]
    {
      hide Tiles, Squeezed, Copied;
      ghost var ss, data0, k := Slices(), data[..], Number(list, i);
      TilesInside(ss, -1, off, full);
      RemoveTiles(ss, k, off, full);
      CutOut(list, i);
      ghost var data1 := data[..];
      WriteEntry(list, i, nalu);
      ReplaceTiles(data0, data1, data[..], ss, k, old(off), nalu, full);
    }

    method AppendSps(nalu: bytes, ghost full: bool)
      requires Valid(full) && nalu != [] && off + |nalu| <= S.ARENA && nbSps < S.MAX_SPS
      modifies this, data, sps
      ensures Valid(full) && off == old(off) + |nalu| && nbSps == old(nbSps) + 1 && nbPps == old(nbPps)
      ensures Contents(data[..], Slices()) ==
        old(Contents(data[..], sps[..nbSps])) + [nalu] + old(Contents(data[..], pps[..nbPps]))
    {
      hide Tiles, Copied;
      ghost var ss, data0, k, slice := Slices(), data[..], nbSps, Slice(off, |nalu|);
      TilesInside(ss, -1, off, full);
      sps[nbSps] := Slice(off, |nalu|);
      CopyIn(data, off, nalu);
      AppendTiles(data0, data[..], ss, k, off, nalu, full);
      off := off + |nalu|;
      nbSps := nbSps + 1;
      assert sps[..nbSps] == ss[..k] + [slice];
      assert Slices() == ss[..k] + [slice] + ss[k..];
    }

    method AppendPps(nalu: bytes, ghost full: bool)
      requires Valid(full) && nalu != [] && off + |nalu| <= S.ARENA && nbPps < S.PPS_WRAP - 1
      modifies this, data, pps
      ensures Valid(full) && off == old(off) + |nalu| && nbSps == old(nbSps) && nbPps == old(nbPps) + 1
      ensures Contents(data[..], Slices()) == old(Contents(data[..], Slices())) + [nalu]
    {
      hide Tiles, Copied;
      ghost var ss, data0, slice := Slices(), data[..], Slice(off, |nalu|);
      TilesInside(ss, -1, off, full);
      pps[nbPps] := Slice(off, |nalu|);
      CopyIn(data, off, nalu);
      AppendTiles(data0, data[..], ss, |ss|, off, nalu, full);
      assert ss[..|ss|] == ss && ss[|ss|..] == [];
      assert ss[..|ss|] + [slice] + ss[|ss|..] == ss + [slice];
      off := off + |nalu|;
      nbPps := nbPps + 1;
      assert Slices() == ss + [slice];
    }

    method FindSps(id: byte) returns (i: nat)
      requires Layout()
      ensures i == S.Find(Value().sps, S.SpsId, id)
    {
      ghost var xs := Value().sps;
      i := 0;
      while i < nbSps
        invariant i <= nbSps && S.Find(xs, S.SpsId, id) == i + S.Find(xs[i..], S.SpsId, id)
      {
        assert xs[i..][0] == xs[i] && xs[i..][1..] == xs[i + 1..];
        var other, _ := ReadUeBits(data[sps[i].start..sps[i].End()], 32);
        if other == id { return; }
        i := i + 1;
      }
    }

    method FindPps(id: (byte, byte)) returns (i: nat)
      requires Layout()
      ensures i == S.Find(Value().pps, S.PpsId, id)
    {
      ghost var xs := Value().pps;
      i := 0;
      while i < nbPps
        invariant i <= nbPps && S.Find(xs, S.PpsId, id) == i + S.Find(xs[i..], S.PpsId, id)
      {
        assert xs[i..][0] == xs[i] && xs[i..][1..] == xs[i + 1..];
        var entry := data[pps[i].start..pps[i].End()];
        var p, next := ReadUeBits(entry, 8);
        var q, _ := ReadUeBits(entry, next);
        if (p, q) == id { return; }
        i := i + 1;
      }
    }

    ghost function Whole(): seq<bytes>
      requires Layout()
      reads this, data, sps, pps
    {
      SlicesAt();
      Contents(data[..], Slices())
    }

    lemma {:induction false} WholeIsBoth()
      requires Layout()
      ensures Whole() == Value().sps + Value().pps
    {
      SlicesAt();
    }

    // What changed in the whole list tells what changed in its two parts.
    lemma {:induction false} FromWhole(sps0: seq<bytes>, pps0: seq<bytes>)
      requires Layout() && Whole() == sps0 + pps0 && |sps0| == nbSps
      ensures Value() == S.Sets(sps0, pps0, off)
    {
      WholeIsBoth();
      var a, b := Value().sps, Value().pps;
      assert a == (a + b)[..nbSps] && sps0 == (sps0 + pps0)[..nbSps];
      assert b == (a + b)[nbSps..] && pps0 == (sps0 + pps0)[nbSps..];
    }

    method ReplaceSps(i: nat, nalu: bytes, ghost full: bool)
      requires Valid(full) && nalu != [] && i < nbSps && off - sps[i].len + |nalu| <= S.ARENA
      modifies this, data, sps, pps
      ensures Valid(full) && Value() ==
        S.Sets(old(Value()).sps[i := nalu], old(Value()).pps, old(off - sps[i].len) + |nalu|)
    {
      hide Tiles, Contents;
      WholeIsBoth();
      ghost var v := Value();
      Replace(sps, i, nalu, full);
      assert (v.sps + v.pps)[i := nalu] == v.sps[i := nalu] + v.pps;
      FromWhole(v.sps[i := nalu], v.pps);
    }

    method ReplacePps(i: nat, nalu: bytes, ghost full: bool)
      requires Valid(full) && nalu != [] && i < nbPps && off - pps[i].len + |nalu| <= S.ARENA
      modifies this, data, sps, pps
      ensures Valid(full) && Value() ==
        S.Sets(old(Value()).sps, old(Value()).pps[i := nalu], old(off - pps[i].len) + |nalu|)
    {
      hide Tiles, Contents;
      WholeIsBoth();
      ghost var v := Value();
      Replace(pps, i, nalu, full);
      assert (v.sps + v.pps)[|v.sps| + i := nalu] == v.sps + v.pps[i := nalu];
      FromWhole(v.sps, v.pps[i := nalu]);
    }

    method ReadSpsId(nalu: bytes) returns (id: byte)
      ensures id == S.SpsId(nalu)
    {
      var v, _ := ReadUeBits(nalu, 32);
      id := v;
    }

    method ReadPpsId(nalu: bytes) returns (id: (byte, byte))
      ensures id == S.PpsId(nalu)
    {
      var p, next := ReadUeBits(nalu, 8);
      var q, _ := ReadUeBits(nalu, next);
      id := (p, q);
    }

    method SpsCopy(nalu: bytes, ghost full: bool) returns (r: int)
      requires Valid(full)
      modifies this, data, sps, pps
      ensures Valid(full) && (Value(), r) == S.UpdateSps(old(Value()), nalu)
    {
      hide Tiles, S.SpsId, S.Find, Contents, Slices;
      if |nalu| < 5 { return -1; }
      var id := ReadSpsId(nalu);
      var i := FindSps(id);
      ghost var v := Value();
      if i < nbSps {
        if data[sps[i].start..sps[i].End()] == nalu { return 0; }
        if |nalu| > sps[i].len && off + (|nalu| - sps[i].len) > S.ARENA { return -1; }
        ReplaceSps(i, nalu, full);
      } else {
        if nbSps >= S.MAX_SPS || off + |nalu| > S.ARENA { return -1; }
        WholeIsBoth();
        AppendSps(nalu, full);
        FromWhole(v.sps + [nalu], v.pps);
      }
      r := 1;
    }

    method PpsCopy(nalu: bytes, ghost full: bool) returns (r: int)
      requires Valid(full)
      modifies this, data, sps, pps
      ensures Valid(full && (old(nbPps) < S.PPS_WRAP - 1 || nbPps == old(nbPps)))
      ensures (Value(), r) == S.UpdatePps(old(Value()), nalu)
    {
      hide Tiles, S.PpsId, S.Find, S.UpdatePps, Layout, Contents;
      if |nalu| < 2 { S.UpdatePpsShort(Value(), nalu); return -1; }
      CountIsLength();
      S.UpdatePpsCases(Value(), nalu);
      var id := ReadPpsId(nalu);
      var i := FindPps(id);
      if i < nbPps {
        r := PutPps(i, nalu, full);
      } else {
        r := AddPps(nalu, full);
      }
    }

    method AddPps(nalu: bytes, ghost full: bool) returns (r: int)
      requires Valid(full) && nalu != []
      modifies this, data, sps, pps
      ensures Valid(full && (old(nbPps) < S.PPS_WRAP - 1 || nbPps == old(nbPps)))
      ensures var v := old(Value());
        (Value(), r) == if v.off + |nalu| > S.ARENA then (v, -1)
                        else (S.Sets(v.sps, if old(nbPps) == S.PPS_WRAP - 1 then [] else v.pps + [nalu],
                                     v.off + |nalu|), 1)
    {
      hide Tiles;
      if nbPps >= S.PPS_WRAP || off + |nalu| > S.ARENA { return -1; }
      CountIsLength();
      NewPps(nalu, full);
      CountIsLength();
      r := 1;
    }

    method PutPps(i: nat, nalu: bytes, ghost full: bool) returns (r: int)
      requires Valid(full) && i < nbPps && nalu != []
      modifies this, data, sps, pps
      ensures Valid(full) && nbPps == old(nbPps)
      ensures var v := old(Value());
        (Value(), r) == if v.pps[i] == nalu then (v, 0)
                        else if |nalu| > |v.pps[i]| && v.off + (|nalu| - |v.pps[i]|) > S.ARENA then (v, -1)
                        else (S.Sets(v.sps, v.pps[i := nalu], v.off - |v.pps[i]| + |nalu|), 1)
    {
      hide Tiles;
      ghost var v := Value();
      if data[pps[i].start..pps[i].End()] == nalu { return 0; }
      if |nalu| > pps[i].len && off + (|nalu| - pps[i].len) > S.ARENA { return -1; }
      ReplacePps(i, nalu, full);
      assert |Value().pps| == nbPps;
      r := 1;
    }

    method NewPps(nalu: bytes, ghost full: bool)
      requires Valid(full) && nalu != [] && off + |nalu| <= S.ARENA
      modifies this, data, pps
      ensures Valid(full && old(nbPps) < S.PPS_WRAP - 1)
      ensures Value() == S.Sets(old(Value()).sps,
        if old(nbPps) == S.PPS_WRAP - 1 then [] else old(Value()).pps + [nalu], old(off) + |nalu|)
    {
      hide Tiles;
      ghost var v := Value();
      if nbPps == S.PPS_WRAP - 1 {
        WrapPps(nalu, full);
      } else {
        WholeIsBoth();
        AppendPps(nalu, full);
        assert v.sps + v.pps + [nalu] == v.sps + (v.pps + [nalu]);
        FromWhole(v.sps, v.pps + [nalu]);
      }
    }

    // The eight-bit counter wraps, and the bytes of all picture parameter sets stay in use.
    method WrapPps(nalu: bytes, ghost full: bool)
      requires Valid(full) && nbPps == S.PPS_WRAP - 1 && off + |nalu| <= S.ARENA
      modifies this, data, pps
      ensures Valid(false) && Value() == S.Sets(old(Value()).sps, [], old(off) + |nalu|)
    {
      ghost var ss, data0, at := Slices(), data[..], off;
      TilesInside(ss, -1, off, full);
      SlicesAt();
      pps[nbPps] := Slice(off, |nalu|);
      CopyIn(data, off, nalu);
      off := off + |nalu|;
      nbPps := 0;
      forall j | 0 <= j < nbSps ensures Content(data[..], sps[j]) == Content(data0, ss[j]) {
        CopiedContent(data0, data[..], at, nalu, ss[j]);
      }
    }

    lemma {:induction false} Loosened(full: bool)
      requires Valid(full)
      ensures Valid(false)
    {
      Loosen(Slices(), -1, off, full);
    }

    lemma {:induction false} CountIsLength()
      requires Layout()
      ensures |Value().sps| == nbSps <= S.MAX_SPS && |Value().pps| == nbPps < S.PPS_WRAP
    {
    }

    method Update(nalu: bytes, ghost full: bool) returns (r: int)
      requires Valid(full) && nalu != []
      modifies this, data, sps, pps
      ensures Valid(full && !old(S.Wraps(Value(), nalu))) && (Value(), r) == S.Update(old(Value()), nalu)
    {
      hide Tiles, S.UpdateSps, S.UpdatePps, S.Wraps;
      ghost var wraps, n := S.Wraps(Value(), nalu), nbPps;
      var kind := nalu[0] % 32;
      if kind == S.NAL_SPS {
        r := SpsCopy(nalu, full);
        if wraps { Loosened(full); }
      } else if kind == S.NAL_PPS {
        CountIsLength();
        if !wraps && nbPps == S.PPS_WRAP - 1 { S.NoWrapKeepsCount(Value(), nalu); }
        r := PpsCopy(nalu, full);
        CountIsLength();
        if wraps { Loosened(full && (n < S.PPS_WRAP - 1 || nbPps == n)); }
      } else {
        r := 0;
        if wraps { Loosened(full); }
      }
    }

    lemma {:induction false} SlicesAt()
      requires nbSps <= sps.Length && nbPps <= pps.Length
      ensures forall j :: 0 <= j < nbSps ==> Slices()[j] == sps[j]
      ensures forall j :: 0 <= j < nbPps ==> Slices()[nbSps + j] == pps[j]
    {
    }
  }
}
