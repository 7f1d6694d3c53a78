/** The H.264 parameter-set store as a value: two maps by id. */
module AvcSets {
  import opened Bytes
  import opened ExpGolomb

  const ARENA := 4096
  const MAX_SPS := 32
  const PPS_WRAP := 256   // the counter of picture parameter sets has eight bits

  const NAL_IDR := 5
  const NAL_SPS := 7
  const NAL_PPS := 8

  // `off` is the number of arena bytes in use.
  datatype Sets = Sets(sps: seq<bytes>, pps: seq<bytes>, off: int)

  const NO_SETS := Sets([], [], 0)

  // A sequence parameter set carries its id behind the header byte and three profile bytes.
  function SpsId(nalu: bytes): byte { ReadUe(nalu, 32).value }

  // A picture parameter set is told apart by its own id and that of the sequence parameter set it refers to.
  function PpsId(nalu: bytes): (byte, byte) {
    var p := ReadUe(nalu, 8);
    (p.value, ReadUe(nalu, p.next).value)
  }

  // The first entry with key `k`, or the length of the list.
  function Find<K(==)>(xs: seq<bytes>, key: bytes -> K, k: K): (i: nat)
    ensures i <= |xs| && (i < |xs| ==> key(xs[i]) == k)
    ensures forall j :: 0 <= j < i ==> key(xs[j]) != k
  {
    if xs == [] then 0 else if key(xs[0]) == k then 0 else 1 + Find(xs[1..], key, k)
  }

  datatype Put = Put(list: seq<bytes>, off: int, result: int)

  // Replace the entry with the same key, or append; 1 when the list changed, 0 when the entry is there already, and
  // -1 when there is no room.
  function PutInto<K(==)>(xs: seq<bytes>, key: bytes -> K, limit: nat, off: int, nalu: bytes): Put {
    var i := Find(xs, key, key(nalu));
    if i < |xs| then
      if xs[i] == nalu then Put(xs, off, 0)
      else if |nalu| > |xs[i]| && off + (|nalu| - |xs[i]|) > ARENA then Put(xs, off, -1)
      else Put(xs[i := nalu], off - |xs[i]| + |nalu|, 1)
    else if |xs| >= limit || off + |nalu| > ARENA then Put(xs, off, -1)
    else Put(xs + [nalu], off + |nalu|, 1)
  }

  function UpdateSps(s: Sets, nalu: bytes): (Sets, int) {
    if |nalu| < 5 then (s, -1)
    else
      var p := PutInto(s.sps, SpsId, MAX_SPS, s.off, nalu);
      (Sets(p.list, s.pps, p.off), p.result)
  }

  // The 256th picture parameter set wraps the counter, and the list is lost.
  function UpdatePps(s: Sets, nalu: bytes): (Sets, int) {
    if |nalu| < 2 then (s, -1)
    else
      var p := PutInto(s.pps, PpsId, PPS_WRAP, s.off, nalu);
      (Sets(s.sps, if |p.list| == PPS_WRAP then [] else p.list, p.off), p.result)
  }

  lemma {:induction false} UpdatePpsShort(s: Sets, nalu: bytes)
    requires |nalu| < 2
    ensures UpdatePps(s, nalu) == (s, -1)
  {
  }

  lemma {:induction false} UpdatePpsCases(s: Sets, nalu: bytes)
    requires |nalu| >= 2 && |s.pps| < PPS_WRAP
    ensures var i := Find(s.pps, PpsId, PpsId(nalu));
      UpdatePps(s, nalu) ==
        if i < |s.pps| then
          if s.pps[i] == nalu then (s, 0)
          else if |nalu| > |s.pps[i]| && s.off + (|nalu| - |s.pps[i]|) > ARENA then (s, -1)
          else (Sets(s.sps, s.pps[i := nalu], s.off - |s.pps[i]| + |nalu|), 1)
        else if s.off + |nalu| > ARENA then (s, -1)
        else (Sets(s.sps, if |s.pps| == PPS_WRAP - 1 then [] else s.pps + [nalu], s.off + |nalu|), 1)
  {
    hide PpsId, Find;
  }

  function NalType(nalu: bytes): nat
    requires nalu != []
  {
    nalu[0] % 32
  }

  function Update(s: Sets, nalu: bytes): (Sets, int)
    requires nalu != []
  {
    if NalType(nalu) == NAL_SPS then UpdateSps(s, nalu)
    else if NalType(nalu) == NAL_PPS then UpdatePps(s, nalu)
    else (s, 0)
  }

  // ---------------------------------------------------------------------------
  // The store as a pair of maps

  function TotalLength(xs: seq<bytes>): nat {
    if xs == [] then 0 else TotalLength(xs[..|xs| - 1]) + |xs[|xs| - 1]|
  }

  ghost predicate DistinctKeys<K(!new)>(xs: seq<bytes>, key: bytes -> K) {
    forall i, j :: 0 <= i < j < |xs| ==> key(xs[i]) != key(xs[j])
  }

  ghost function ToMap<K(!new)>(xs: seq<bytes>, key: bytes -> K): map<K, bytes> {
    if xs == [] then map[] else ToMap(xs[..|xs| - 1], key)[key(xs[|xs| - 1]) := xs[|xs| - 1]]
  }

  // Every byte of the arena in use belongs to one of the sets held.
  ghost predicate Exact(s: Sets) {
    && DistinctKeys(s.sps, SpsId) && DistinctKeys(s.pps, PpsId)
    && s.off == TotalLength(s.sps) + TotalLength(s.pps) <= ARENA
    && |s.sps| <= MAX_SPS && |s.pps| < PPS_WRAP
    && (forall i :: 0 <= i < |s.sps| ==> |s.sps[i]| >= 5)
    && (forall i :: 0 <= i < |s.pps| ==> |s.pps[i]| >= 2)
  }

  // The one update that breaks the store: a new picture parameter set when 255 are held.
  predicate Wraps(s: Sets, nalu: bytes)
    requires nalu != []
  {
    && NalType(nalu) == NAL_PPS && |nalu| >= 2 && |s.pps| == PPS_WRAP - 1
    && Find(s.pps, PpsId, PpsId(nalu)) == |s.pps| && s.off + |nalu| <= ARENA
  }

  lemma {:induction false} NoWrapKeepsCount(s: Sets, nalu: bytes)
    requires nalu != [] && NalType(nalu) == NAL_PPS && |s.pps| == PPS_WRAP - 1 && !Wraps(s, nalu)
    ensures |UpdatePps(s, nalu).0.pps| == PPS_WRAP - 1
  {
    hide PpsId, Find;
    var i := Find(s.pps, PpsId, PpsId(nalu));
    assert |nalu| >= 2 ==> i < |s.pps| || s.off + |nalu| > ARENA;
  }

  lemma {:induction false} ToMapMeaning<K(!new)>(xs: seq<bytes>, key: bytes -> K)
    requires DistinctKeys(xs, key)
    ensures forall i :: 0 <= i < |xs| ==> key(xs[i]) in ToMap(xs, key) && ToMap(xs, key)[key(xs[i])] == xs[i]
    ensures forall k :: k in ToMap(xs, key) ==> exists i :: 0 <= i < |xs| && key(xs[i]) == k
  {
    if xs != [] {
      var init := xs[..|xs| - 1];
      ToMapMeaning(init, key);
      assert forall i :: 0 <= i < |init| ==> init[i] == xs[i];
    }
  }

  lemma {:induction false} TotalLengthConcat(xs: seq<bytes>, ys: seq<bytes>)
    ensures TotalLength(xs + ys) == TotalLength(xs) + TotalLength(ys)
  {
    if ys == [] {
      assert xs + ys == xs;
    } else {
      assert (xs + ys)[..|xs + ys| - 1] == xs + ys[..|ys| - 1];
      TotalLengthConcat(xs, ys[..|ys| - 1]);
    }
  }

  lemma {:induction false} TotalLengthOne(x: bytes)
    ensures TotalLength([x]) == |x|
  {
    var xs := [x];
    assert xs[..0] == [];
  }

  lemma {:induction false} TotalLengthUpdate(xs: seq<bytes>, i: nat, x: bytes)
    requires i < |xs|
    ensures TotalLength(xs[i := x]) == TotalLength(xs) - |xs[i]| + |x|
    ensures TotalLength(xs) >= |xs[i]|
  {
    TotalLengthConcat(xs[..i], [xs[i]]);
    TotalLengthConcat(xs[..i + 1], xs[i + 1..]);
    TotalLengthConcat(xs[..i], [x]);
    TotalLengthConcat(xs[..i] + [x], xs[i + 1..]);
    assert xs == xs[..i + 1] + xs[i + 1..] && xs[..i + 1] == xs[..i] + [xs[i]];
    assert xs[i := x] == xs[..i] + [x] + xs[i + 1..];
    TotalLengthOne(x);
    TotalLengthOne(xs[i]);
  }

  // One list, `other` bytes being used by the other one: an update changes the map exactly when it returns 1, to hold
  // `nalu` under its key; 0 means it is there already; a negative result leaves the map alone and means no room.
  lemma {:induction false} PutMeaning<K(!new)>(
    xs: seq<bytes>, key: bytes -> K, limit: nat, off: int, nalu: bytes, other: nat)
    requires DistinctKeys(xs, key) && off == TotalLength(xs) + other <= ARENA && |xs| <= limit
    ensures var p := PutInto(xs, key, limit, off, nalu);
      var m, k := ToMap(xs, key), key(nalu);
      && DistinctKeys(p.list, key) && p.off == TotalLength(p.list) + other <= ARENA && |p.list| <= limit
      && (p.result == 1 ==> ToMap(p.list, key) == m[k := nalu] != m)
      && (p.result == 0 ==> p.list == xs && k in m && m[k] == nalu)
      && (p.result == -1 ==> p.list == xs && p.off == off && !(k in m && m[k] == nalu))
      && (p.result == -1 <==>
          if k in m then m[k] != nalu && off - |m[k]| + |nalu| > ARENA else |xs| == limit || off + |nalu| > ARENA)
      && (p.result == 1 || p.result == 0 || p.result == -1)
      && (k in m <==> Find(xs, key, k) < |xs|)
      && |p.list| == (if p.result == 1 && k !in m then |xs| + 1 else |xs|)
  {
    hide Find, ToMap, DistinctKeys, TotalLength;
    var i := Find(xs, key, key(nalu));
    FoundInMap(xs, key, key(nalu));
    if i < |xs| {
      TotalLengthUpdate(xs, i, nalu);
      if xs[i] != nalu { PutReplaces(xs, key, i, nalu); }
    } else {
      PutAdds(xs, key, nalu);
    }
  }

  lemma {:induction false} FoundInMap<K(!new)>(xs: seq<bytes>, key: bytes -> K, k: K)
    requires DistinctKeys(xs, key)
    ensures var i := Find(xs, key, k);
      && (k in ToMap(xs, key) <==> i < |xs|) && (i < |xs| ==> key(xs[i]) == k && ToMap(xs, key)[k] == xs[i])
  {
    hide ToMap;
    ToMapMeaning(xs, key);
  }

  lemma {:induction false} PutAdds<K(!new)>(xs: seq<bytes>, key: bytes -> K, nalu: bytes)
    requires DistinctKeys(xs, key) && Find(xs, key, key(nalu)) == |xs|
    ensures DistinctKeys(xs + [nalu], key) && TotalLength(xs + [nalu]) == TotalLength(xs) + |nalu|
    ensures ToMap(xs + [nalu], key) == ToMap(xs, key)[key(nalu) := nalu]
  {
    assert (xs + [nalu])[..|xs|] == xs;
  }

  lemma {:induction false} PutEntries<K>(
    xs: seq<bytes>, key: bytes -> K, limit: nat, off: int, nalu: bytes, least: nat)
    requires |nalu| >= least && forall i :: 0 <= i < |xs| ==> |xs[i]| >= least
    ensures var p := PutInto(xs, key, limit, off, nalu);
            forall i :: 0 <= i < |p.list| ==> |p.list[i]| >= least
  {
  }

  lemma {:induction false} PutReplaces<K(!new)>(xs: seq<bytes>, key: bytes -> K, i: nat, nalu: bytes)
    requires DistinctKeys(xs, key) && i < |xs| && key(xs[i]) == key(nalu) && xs[i] != nalu
    ensures DistinctKeys(xs[i := nalu], key)
    ensures ToMap(xs[i := nalu], key) == ToMap(xs, key)[key(nalu) := nalu] != ToMap(xs, key)
  {
    var ys := xs[i := nalu];
    ToMapMeaning(xs, key);
    ToMapMeaning(ys, key);
    var a, b := ToMap(ys, key), ToMap(xs, key)[key(nalu) := nalu];
    forall k | k in a ensures k in b && a[k] == b[k] {
      var j :| 0 <= j < |ys| && key(ys[j]) == k;
      if j != i { assert ys[j] == xs[j]; }
    }
    forall k | k in b ensures k in a {
      if k != key(nalu) {
        var j :| 0 <= j < |xs| && key(xs[j]) == k;
        assert j != i && ys[j] == xs[j];
      } else {
        assert ys[i] == nalu;
      }
    }
    assert a == b;
  }

  ghost function SpsMap(s: Sets): map<byte, bytes> { ToMap(s.sps, SpsId) }

  ghost function PpsMap(s: Sets): map<(byte, byte), bytes> { ToMap(s.pps, PpsId) }

  lemma {:induction false} UpdateSpsMeaning(s: Sets, nalu: bytes)
    requires Exact(s)
    ensures var (r, n) := UpdateSps(s, nalu);
      && Exact(r) && r.pps == s.pps && (n == 1 || n == 0 || n == -1)
      && (n == 1 ==> SpsMap(r) == SpsMap(s)[SpsId(nalu) := nalu] != SpsMap(s))
      && (n == 0 ==> r == s && SpsId(nalu) in SpsMap(s) && SpsMap(s)[SpsId(nalu)] == nalu)
      && (n == -1 ==> r == s && !(SpsId(nalu) in SpsMap(s) && SpsMap(s)[SpsId(nalu)] == nalu))
  {
    hide SpsId, PpsId, Find, PutInto;
    if |nalu| >= 5 {
      hide ToMap, TotalLength;
      PutEntries(s.sps, SpsId, MAX_SPS, s.off, nalu, 5);
      PutMeaning(s.sps, SpsId, MAX_SPS, s.off, nalu, TotalLength(s.pps));
    } else {
      ToMapMeaning(s.sps, SpsId);
    }
  }

  lemma {:induction false} UpdatePpsMeaning(s: Sets, nalu: bytes)
    requires Exact(s) && nalu != [] && NalType(nalu) == NAL_PPS && !Wraps(s, nalu)
    ensures var (r, n) := UpdatePps(s, nalu);
      && Exact(r) && r.sps == s.sps && (n == 1 || n == 0 || n == -1)
      && (n == 1 ==> PpsMap(r) == PpsMap(s)[PpsId(nalu) := nalu] != PpsMap(s))
      && (n == 0 ==> r == s && PpsId(nalu) in PpsMap(s) && PpsMap(s)[PpsId(nalu)] == nalu)
      && (n == -1 ==> r == s && !(PpsId(nalu) in PpsMap(s) && PpsMap(s)[PpsId(nalu)] == nalu))
  {
    hide SpsId, PpsId, Find, PutInto, DistinctKeys;
    if |nalu| >= 2 {
      hide ToMap, TotalLength;
      assert forall i :: 0 <= i < |s.pps| ==> |s.pps[i]| >= 2;
      PutEntries(s.pps, PpsId, PPS_WRAP, s.off, nalu, 2);
      PutMeaning(s.pps, PpsId, PPS_WRAP, s.off, nalu, TotalLength(s.sps));
    } else {
      ToMapMeaning(s.pps, PpsId);
    }
  }

  // The store refines two maps keyed by the ids inside the sets: an update returns 1 exactly when a map changes, and
  // then only the entry of that id; 0 or a negative result leaves both maps, and every byte, as they were.
  lemma {:induction false} UpdateRefinesMaps(s: Sets, nalu: bytes)
    requires Exact(s) && nalu != [] && !Wraps(s, nalu)
    ensures var (r, n) := Update(s, nalu);
      && Exact(r)
      && (n == 1 <==> SpsMap(r) != SpsMap(s) || PpsMap(r) != PpsMap(s))
      && (n != 1 ==> r == s)
      && (n == 1 ==> if NalType(nalu) == NAL_SPS
                     then SpsMap(r) == SpsMap(s)[SpsId(nalu) := nalu] && PpsMap(r) == PpsMap(s)
                     else PpsMap(r) == PpsMap(s)[PpsId(nalu) := nalu] && SpsMap(r) == SpsMap(s))
  {
    hide Exact, SpsId, PpsId, Wraps;
    if NalType(nalu) == NAL_SPS {
      UpdateSpsMeaning(s, nalu);
    } else if NalType(nalu) == NAL_PPS {
      UpdatePpsMeaning(s, nalu);
    }
  }

  // The counter wrapping is the one way to lose the store: its list empties while its bytes stay in the arena.
  lemma {:induction false} WrapBreaksStore(s: Sets, nalu: bytes)
    requires Exact(s) && nalu != []
    ensures Exact(Update(s, nalu).0) <==> !Wraps(s, nalu)
    ensures Wraps(s, nalu) ==> Update(s, nalu).1 == 1 && Update(s, nalu).0.pps == []
  {
    hide SpsId, PpsId;
    if Wraps(s, nalu) {
      var r := Update(s, nalu).0;
      assert r.off == s.off + |nalu|;
    } else {
      UpdateRefinesMaps(s, nalu);
    }
  }

  function Run(nalus: seq<bytes>): Sets
    requires forall i :: 0 <= i < |nalus| ==> nalus[i] != []
  {
    if nalus == [] then NO_SETS else Update(Run(nalus[..|nalus| - 1]), nalus[|nalus| - 1]).0
  }

  // From the empty store, any sequence of NAL units that never adds a picture parameter set to 255 held ones keeps
  // the store exact.
  lemma {:induction false} RunExact(nalus: seq<bytes>)
    requires forall i :: 0 <= i < |nalus| ==> nalus[i] != []
    requires forall i :: 0 <= i < |nalus| ==> !Wraps(Run(nalus[..i]), nalus[i])
    ensures Exact(Run(nalus))
  {
    hide SpsId, PpsId, Update;
    if nalus != [] {
      var init, last := nalus[..|nalus| - 1], nalus[|nalus| - 1];
      forall i | 0 <= i < |init| ensures !Wraps(Run(init[..i]), init[i]) {
        assert init[..i] == nalus[..i] && init[i] == nalus[i];
      }
      RunExact(init);
      UpdateRefinesMaps(Run(init), last);
    }
  }
}
