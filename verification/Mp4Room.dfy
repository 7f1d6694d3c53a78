/** When the room given to a conversion is enough, and which units matter to it. */
module Mp4Room {
  import opened Bytes
  import opened AvcSets
  import opened AnnexB
  import opened Mp4Framing
  import opened Mp4Inputs
  import opened Options

  // ---------------------------------------------------------------------------
  // Room for the way back

  lemma {:induction false} EmitRoom(d: Demuxer, nalu: bytes)
    requires Sound(d)
    ensures var r := Emit(d, nalu);
      && r.seen == d.seen && r.room == d.room && |r.buf| == |d.buf|
      && (if d.count + 4 + |nalu| <= d.room then r.err == d.err && r.count == d.count + 4 + |nalu|
          else r.err == -7 && r.count == d.count)
  {
    hide Written;
  }

  lemma {:induction false} FramedCons(us: seq<bytes>)
    requires us != []
    ensures |Framed(us)| == 4 + |us[0]| + |Framed(us[1..])|
  {
  }

  // Once parameter sets were seen, the units are written without an error exactly when all of them fit.
  lemma {:induction false} EmittedIff(s: Sets, d: Demuxer, us: seq<bytes>)
    requires Sound(d) && SetsInside(s, d.room, |d.buf|) && (forall i :: 0 <= i < |us| ==> us[i] != [])
    requires d.seen && d.err == 0 && (us == [] ==> d.count <= d.room)
    ensures OnAllPrefixed(s, d, us).err == 0 <==> d.count + |Framed(us)| <= d.room
    decreases |us|
  {
    hide SetsInside, Insert, Emit, Framed;
    if us == [] {
      NothingFramed();
    } else {
      FramedCons(us);
      EmitRoom(d, us[0]);
      if d.count + 4 + |us[0]| <= d.room {
        EmittedIff(s, Emit(d, us[0]), us[1..]);
      } else {
        ErrorSticks(s, Emit(d, us[0]), us[1..]);
      }
    }
  }

  lemma {:induction false} NothingFramed()
    ensures |Framed([])| == 0
  {
  }

  // Inserting the sets leaves no error exactly when they fit in front of what is there, or nothing is there and the
  // checks let them through: then they take their size, whether the room is enough or not.
  lemma {:induction false} InsertRoom(s: Sets, d: Demuxer)
    requires Sound(d) && Plain(s) && StoreSize(s) > 0 && SetsInside(s, d.room, |d.buf|) && d.err == 0 && !d.seen
    ensures var e := Insert(s, d);
      && (e.seen <==> e.err == 0) && (e.seen ==> e.count == d.count + StoreSize(s))
      && (d.count + StoreSize(s) <= d.room ==> e.seen)
  {
    hide SetsInside, Written;
    var w := SetsToUnits(s, d.room);
    FourComplete(s.sps, [], d.room);
    SetsLength(s);
    if StoreSize(s) + d.count <= d.room { SetsWritten(s, d.room); }
    if w.complete {
      CompleteBytes(s.sps, [], d.room, 4);
      CompleteBytes(s.pps, WriteSets(s.sps, [], d.room, 4).k, d.room, 2);
      assert [] + AllSetBytes(s.sps) == AllSetBytes(s.sps);
    }
  }

  lemma {:induction false} SetsLength(s: Sets)
    requires Plain(s)
    ensures |AllSetBytes(s.sps)| == SetsSize(s.sps) && |AllSetBytes(s.pps)| == SetsSize(s.pps)
  {
    FourComplete(s.sps, [], 0);
    FourComplete(s.pps, [], 0);
  }

  // The bytes that the converted units take: the stored sets count when an IDR unit comes before all others.
  function Needed(s: Sets, us: seq<bytes>): nat
    requires forall i :: 0 <= i < |us| ==> us[i] != []
  {
    |Framed(us)| + if IdrFirst(us) then StoreSize(s) else 0
  }

  lemma {:induction false} ConvertedIff(s: Sets, d: Demuxer, us: seq<bytes>)
    requires Sound(d) && Plain(s) && (forall i :: 0 <= i < |us| ==> us[i] != []) && SetsInside(s, d.room, |d.buf|)
    requires !d.seen && d.err == 0 && d.count <= d.room && StoreSize(s) > 0
    ensures OnAllPrefixed(s, d, us).err == 0 <==> d.count + Needed(s, us) <= d.room
    decreases |us|
  {
    hide SetsInside, Insert, Emit, Framed, Plain, StoreSize;
    NothingFramed();
    if us != [] {
      FramedCons(us);
      EmitRoom(d, us[0]);
      EmitRoom(d.(seen := true), us[0]);
      if NalType(us[0]) == NAL_IDR {
        IdrConverted(s, d, us);
      } else if d.count + 4 + |us[0]| > d.room {
        ErrorSticks(s, OnPrefixed(s, d, us[0]), us[1..]);
      } else if NalType(us[0]) == NAL_SPS || NalType(us[0]) == NAL_PPS {
        EmittedIff(s, Emit(d.(seen := true), us[0]), us[1..]);
      } else {
        ConvertedIff(s, Emit(d, us[0]), us[1..]);
      }
    }
  }

  lemma {:induction false} IdrConverted(s: Sets, d: Demuxer, us: seq<bytes>)
    requires Sound(d) && Plain(s) && (forall i :: 0 <= i < |us| ==> us[i] != []) && SetsInside(s, d.room, |d.buf|)
    requires !d.seen && d.err == 0 && StoreSize(s) > 0 && us != [] && NalType(us[0]) == NAL_IDR
    ensures OnAllPrefixed(s, d, us).err == 0 <==> d.count + StoreSize(s) + |Framed(us)| <= d.room
  {
    hide SetsInside, Insert, Emit, Framed, Plain, StoreSize;
    FramedCons(us);
    InsertRoom(s, d);
    var e := Insert(s, d);
    if e.seen {
      EmitRoom(e, us[0]);
      var f := Emit(e, us[0]);
      if f.err == 0 { EmittedIff(s, f, us[1..]); } else { ErrorSticks(s, f, us[1..]); }
    } else {
      ErrorSticks(s, e, us[1..]);
    }
  }

  // Length-prefixed units are converted exactly when there is room for all of them and, where they ask for them, for
  // the stored sets; otherwise the answer is 0.
  lemma {:induction false} RoomIff(s: Sets, us: seq<bytes>, buf: bytes, room: nat)
    requires us != [] && Sized(us) && |PrefixedAll(us)| < 0x8000_0000 && Plain(s) && StoreSize(s) > 0
    requires |buf| >= room && SetsInside(s, room, |buf|)
    ensures !Stuck(4, PrefixedAll(us)) && forall i :: 0 <= i < |us| ==> us[i] != []
    ensures var r := ToAnnexB(s, 4, PrefixedAll(us), buf, room);
      r.result == if Needed(s, us) <= room then Needed(s, us) else 0
  {
    hide OnAllPrefixed, Plain, StoreSize, SetPrefix, SetsInside, PrefixedAll, Framed, Walk, Stuck;
    var d := Demuxer(buf, room, 0, false, 0);
    WalkPrefixed(s, d, us);
    ConvertedIff(s, d, us);
    if Needed(s, us) <= room { ConvertedCount(s, d, us); }
  }

  lemma {:induction false} ConvertedCount(s: Sets, d: Demuxer, us: seq<bytes>)
    requires Sound(d) && Plain(s) && (forall i :: 0 <= i < |us| ==> us[i] != []) && SetsInside(s, d.room, |d.buf|)
    requires !d.seen && d.err == 0 && d.count == 0 && Needed(s, us) <= d.room && StoreSize(s) > 0
    ensures OnAllPrefixed(s, d, us).count == Needed(s, us)
  {
    hide SetsInside, Insert, Emit, Framed, Plain, StoreSize;
    CountAll(s, d, us);
  }

  lemma {:induction false} CountEmitted(s: Sets, d: Demuxer, us: seq<bytes>)
    requires Sound(d) && SetsInside(s, d.room, |d.buf|) && (forall i :: 0 <= i < |us| ==> us[i] != [])
    requires d.seen && d.count + |Framed(us)| <= d.room
    ensures OnAllPrefixed(s, d, us).count == d.count + |Framed(us)|
    decreases |us|
  {
    hide SetsInside, Insert, Emit, Framed;
    NothingFramed();
    if us != [] {
      FramedCons(us);
      EmitRoom(d, us[0]);
      CountEmitted(s, Emit(d, us[0]), us[1..]);
    }
  }

  lemma {:induction false} CountAll(s: Sets, d: Demuxer, us: seq<bytes>)
    requires Sound(d) && Plain(s) && (forall i :: 0 <= i < |us| ==> us[i] != []) && SetsInside(s, d.room, |d.buf|)
    requires !d.seen && d.err == 0 && d.count + Needed(s, us) <= d.room && StoreSize(s) > 0
    ensures OnAllPrefixed(s, d, us).count == d.count + Needed(s, us)
    decreases |us|
  {
    hide SetsInside, Insert, Emit, Framed, Plain, StoreSize;
    NothingFramed();
    if us != [] {
      FramedCons(us);
      EmitRoom(d, us[0]);
      EmitRoom(d.(seen := true), us[0]);
      if NalType(us[0]) == NAL_IDR {
        InsertRoom(s, d);
        EmitRoom(Insert(s, d), us[0]);
        CountEmitted(s, Emit(Insert(s, d), us[0]), us[1..]);
      } else if NalType(us[0]) == NAL_SPS || NalType(us[0]) == NAL_PPS {
        CountEmitted(s, Emit(d.(seen := true), us[0]), us[1..]);
      } else {
        CountAll(s, Emit(d, us[0]), us[1..]);
      }
    }
  }

  // ---------------------------------------------------------------------------
  // Unit types

  predicate Slice(u: bytes)
    requires u != []
  {
    1 <= u[0] % 32 <= 5
  }

  // The last coded slice, of types 1 to 5, decides the kind of picture reported: 1 when it is of type 5, an IDR
  // picture, and 2 otherwise.
  lemma {:induction false} LastSlice(m: Muxer, capacity: nat, us: seq<bytes>, i: nat)
    requires Ordinary(us) && i < |us| && Slice(us[i]) && forall j :: i < j < |us| ==> !Slice(us[j])
    ensures OnUnits(m, capacity, us).vcl == if us[i][0] % 32 == 5 then 1 else 2
    decreases |us|
  {
    hide Update;
    if i > 0 {
      LastSlice(OnUnit(m, capacity, us[0]), capacity, us[1..], i - 1);
    } else {
      NoSlice(OnUnit(m, capacity, us[0]), capacity, us[1..]);
    }
  }

  lemma {:induction false} NoSlice(m: Muxer, capacity: nat, us: seq<bytes>)
    requires Ordinary(us) && forall j :: 0 <= j < |us| ==> !Slice(us[j])
    ensures OnUnits(m, capacity, us).vcl == m.vcl
    decreases |us|
  {
    hide Update;
    if us != [] { NoSlice(OnUnit(m, capacity, us[0]), capacity, us[1..]); }
  }

  // The stored sets are asked for by a unit of type 5 with none of type 7 or 8 ahead of it.
  lemma {:induction false} IdrFirstMeaning(us: seq<bytes>)
    requires forall i :: 0 <= i < |us| ==> us[i] != []
    ensures IdrFirst(us) <==>
      exists i :: 0 <= i < |us| && us[i][0] % 32 == 5 && forall j :: 0 <= j < i ==> us[j][0] % 32 !in {7, 8}
    decreases |us|
  {
    if us != [] {
      var rest := us[1..];
      IdrFirstMeaning(rest);
      if exists i :: 0 <= i < |us| && us[i][0] % 32 == 5 && forall j :: 0 <= j < i ==> us[j][0] % 32 !in {7, 8} {
        var i :| 0 <= i < |us| && us[i][0] % 32 == 5 && forall j :: 0 <= j < i ==> us[j][0] % 32 !in {7, 8};
        if i > 0 {
          assert us[0][0] % 32 !in {7, 8};
          assert rest[i - 1][0] % 32 == 5 && forall j :: 0 <= j < i - 1 ==> rest[j] == us[j + 1];
        }
      }
      if us[0][0] % 32 !in {7, 8} && IdrFirst(rest) {
        var i :| 0 <= i < |rest| && rest[i][0] % 32 == 5 && forall j :: 0 <= j < i ==> rest[j][0] % 32 !in {7, 8};
        assert us[i + 1][0] % 32 == 5 && forall j :: 0 < j < i + 1 ==> us[j] == rest[j - 1];
      }
    }
  }

  // ---------------------------------------------------------------------------
  // Both framings in one input

  // Units behind four-byte lengths, and then units behind start codes, as some muxers write them: all are converted.
  lemma {:induction false} BothFramings(s: Sets, d: Demuxer, us: seq<bytes>, vs: seq<bytes>)
    requires Sound(d) && SetsInside(s, d.room, |d.buf|) && Announced(us, 4)
    requires vs != [] && forall i :: 0 <= i < |vs| ==> Carriable(vs[i])
    requires |Behind(us, 4) + Framed(vs)| < 0x8000_0000
    ensures !Stuck(4, Behind(us, 4) + Framed(vs)) && forall i :: 0 <= i < |us| + |vs| ==> (us + vs)[i] != []
    ensures Walk(s, 4, d, Behind(us, 4) + Framed(vs)) == Some(OnAllPrefixed(s, d, us + vs))
  {
    hide Walk, Stuck, OnPrefixed, Framed, SetsInside, Carriable;
    WalkFramed(s, d, vs);
    forall i | 0 <= i < |us| + |vs| ensures (us + vs)[i] != [] { if i >= |us| { assert (us + vs)[i] == vs[i - |us|]; } }
    WalkBehind(s, 4, d, us, Framed(vs));
    var e := OnAllPrefixed(s, d, us);
    WalkFramed(s, e, vs);
    Onwards(s, d, us, vs);
  }

  lemma {:induction false} Onwards(s: Sets, d: Demuxer, us: seq<bytes>, vs: seq<bytes>)
    requires Sound(d) && SetsInside(s, d.room, |d.buf|)
    requires (forall i :: 0 <= i < |us| ==> us[i] != []) && (forall i :: 0 <= i < |vs| ==> vs[i] != [])
    requires forall i :: 0 <= i < |us + vs| ==> (us + vs)[i] != []
    ensures OnAllPrefixed(s, d, us + vs) == OnAllPrefixed(s, OnAllPrefixed(s, d, us), vs)
    decreases |us|
  {
    hide OnPrefixed, SetsInside;
    if us == [] {
      assert us + vs == vs;
    } else {
      var e := OnPrefixed(s, d, us[0]);
      assert (us + vs)[1..] == us[1..] + vs;
      Onwards(s, e, us[1..], vs);
    }
  }

  // ---------------------------------------------------------------------------
  // Sets that bring their own start code

  // A set is written behind a start code: its own one, of three bytes or four, or else one of four bytes.
  lemma {:induction false} SetCode(u: bytes)
    ensures var framed := |u| >= 4 && (u[..3] == [0, 0, 1] || u[..4] == [0, 0, 0, 1]);
      SetBytes(u) == if framed then u else [0, 0, 0, 1] + u
  {
    assert [] + u == u;
  }

  lemma {:induction false} WholeSets(us: seq<bytes>, k: bytes, capacity: nat, spare: nat)
    requires spare <= 4 && capacity >= |k| + SetsSize(us)
    ensures WriteSets(us, k, capacity, spare) == Writing(k + AllSetBytes(us), true)
    decreases |us|
  {
    hide SetBytes;
    if us == [] {
      assert k + [] == k;
    } else {
      SetLength(us[0]);
      WholeSets(us[1..], k + SetBytes(us[0]), capacity, spare);
      Regroup(k, SetBytes(us[0]), AllSetBytes(us[1..]));
    }
  }

  lemma {:induction false} SetLength(u: bytes)
    ensures |u| <= |SetBytes(u)| <= |u| + 4
  {
  }

  lemma {:induction false} WholePrefix(s: Sets, capacity: nat)
    requires capacity >= StoreSize(s)
    ensures SetsToUnits(s, capacity) == Writing(SetPrefix(s), true)
  {
    hide SetBytes, WriteSets, LooksFramed;
    WholeSets(s.sps, [], capacity, 4);
    assert [] + AllSetBytes(s.sps) == AllSetBytes(s.sps);
    SizesIff(s.sps);
    WholeSets(s.pps, AllSetBytes(s.sps), capacity, 2);
  }

  lemma {:induction false} SizesIff(us: seq<bytes>)
    ensures |AllSetBytes(us)| <= SetsSize(us)
    ensures |AllSetBytes(us)| == SetsSize(us) <==> forall i :: 0 <= i < |us| ==> !LooksFramed(us[i])
    decreases |us|
  {
    hide LooksFramed;
    if us != [] {
      SizesIff(us[1..]);
      assert forall i :: 0 < i < |us| ==> us[i] == us[1..][i - 1];
    }
  }

  // What is there is shifted by exactly the size of the stored sets if and only if none of them does.
  lemma {:induction false} ShiftIff(s: Sets)
    ensures |SetPrefix(s)| <= StoreSize(s) && (|SetPrefix(s)| == StoreSize(s) <==> Plain(s))
  {
    SizesIff(s.sps);
    SizesIff(s.pps);
  }

  // Otherwise what lay in the buffer shows between the sets and the units that were written, and the end of those is cut
  // off by as many bytes.
  lemma {:induction false} InsertGap(s: Sets, d: Demuxer)
    requires Sound(d) && d.count > 0 && StoreSize(s) + d.count <= d.room && SetsInside(s, d.room, |d.buf|)
    requires SetPrefix(s) != []
    ensures |SetPrefix(s)| <= StoreSize(s) && d.count <= |d.buf|
    ensures var e, k, n := Insert(s, d), |SetPrefix(s)|, StoreSize(s);
      && e.seen && e.err == d.err && e.count == k + d.count
      && e.buf[..k] == SetPrefix(s) && e.buf[k..n] == d.buf[k..n] && e.buf[n..n + d.count] == d.buf[..d.count]
  {
    hide Plain, SetPrefix, StoreSize, SetsToUnits, SetsInside, Written;
    WholePrefix(s, d.room);
    ShiftIff(s);
    InsertParts(d.buf, d.count, StoreSize(s), SetPrefix(s));
  }

  lemma {:induction false} InsertParts(buf: bytes, count: nat, n: nat, k: bytes)
    requires n + count <= |buf| && |k| <= n
    ensures var b := Written(Written(buf, n, buf[..count]), 0, k);
      b[..|k|] == k && b[|k|..n] == buf[|k|..n] && b[n..n + count] == buf[..count]
  {
    var w := Written(buf, n, buf[..count]);
    assert w[n..n + count] == buf[..count] && w[|k|..n] == buf[|k|..n];
    var b := Written(w, 0, k);
    assert b == k + w[|k|..];
    assert b[..|k|] == k;
    SameBehind(k, w, |k|, n);
    SameBehind(k, w, n, n + count);
  }

  lemma {:induction false} SameBehind(k: bytes, w: bytes, i: nat, j: nat)
    requires |k| <= i <= j <= |w|
    ensures (k + w[|k|..])[i..j] == w[i..j]
  {
    assert forall x :: |k| <= x < |w| ==> (k + w[|k|..])[x] == w[x];
  }
}
