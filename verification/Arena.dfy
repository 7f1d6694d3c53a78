/** A compacting arena: byte slices that tile a prefix of a fixed buffer, without gap or overlap. */
module Arena {
  import opened Bytes

  datatype Slice = Slice(start: nat, len: nat)
  {
    function End(): nat { start + len }
  }

  ghost predicate Covers(ss: seq<Slice>, skip: int, p: int) {
    exists i :: 0 <= i < |ss| && i != skip && ss[i].start <= p < ss[i].End()
  }

  // The slices of `ss`, other than number `skip`, are non-empty, lie in [0, total) and do not overlap; with `full`, they
  // leave no byte of [0, total) out. `skip` is -1 when no slice is left aside.
  ghost predicate Tiles(ss: seq<Slice>, skip: int, total: nat, full: bool) {
    && (forall i :: 0 <= i < |ss| && i != skip ==> ss[i].len > 0 && ss[i].End() <= total)
    && Apart(ss, skip)
    && (full ==> forall p :: 0 <= p < total ==> Covers(ss, skip, p))
  }

  predicate Before(a: Slice, b: Slice) { a.End() <= b.start }

  predicate Apart(ss: seq<Slice>, skip: int) {
    forall i, j :: 0 <= i < |ss| && 0 <= j < |ss| && i != j && i != skip && j != skip ==>
      Before(ss[i], ss[j]) || Before(ss[j], ss[i])
  }

  // What moving everything behind the `n` bytes at `p` down by `n` does to the slices: those starting after `p` move.
  function Shifted(ss: seq<Slice>, p: nat, n: nat): (r: seq<Slice>)
    requires forall i :: 0 <= i < |ss| && ss[i].start > p ==> ss[i].start >= n
    ensures |r| == |ss|
  {
    seq(|ss|, i requires 0 <= i < |ss| =>
      if ss[i].start > p then Slice(ss[i].start - n, ss[i].len) else ss[i])
  }

  // What lies at `p` stays.
  lemma {:induction false} EntryStays(ss: seq<Slice>, p: nat, n: nat, k: nat)
    requires k < |ss| && ss[k].start == p && forall i :: 0 <= i < |ss| && ss[i].start > p ==> ss[i].start >= n
    ensures Shifted(ss, p, n)[k] == ss[k]
  {
  }

  lemma {:induction false} ShiftedConcat(a: seq<Slice>, b: seq<Slice>, p: nat, n: nat)
    requires forall i :: 0 <= i < |a + b| && (a + b)[i].start > p ==> (a + b)[i].start >= n
    ensures forall i :: 0 <= i < |a| && a[i].start > p ==> a[i].start >= n
    ensures forall i :: 0 <= i < |b| && b[i].start > p ==> b[i].start >= n
    ensures Shifted(a + b, p, n) == Shifted(a, p, n) + Shifted(b, p, n)
  {
    assert forall i :: 0 <= i < |a| ==> a[i] == (a + b)[i];
    forall i | 0 <= i < |b| ensures b[i] == (a + b)[|a| + i] {
    }
  }

  function Content(data: bytes, s: Slice): (c: bytes)
    requires s.End() <= |data|
    ensures |c| == s.len
  {
    data[s.start..s.End()]
  }

  ghost function Contents(data: bytes, ss: seq<Slice>): (cs: seq<bytes>)
    requires forall i :: 0 <= i < |ss| ==> ss[i].End() <= |data|
    ensures |cs| == |ss| && forall i :: 0 <= i < |ss| ==> cs[i] == Content(data, ss[i])
  {
    seq(|ss|, i requires 0 <= i < |ss| => Content(data, ss[i]))
  }

  // The buffer after `from` was copied to position `at`.
  ghost predicate Copied(data: bytes, data': bytes, at: nat, from: bytes)
    requires at + |from| <= |data|
  {
    |data'| == |data| &&
    forall i :: 0 <= i < |data| ==> data'[i] == if at <= i < at + |from| then from[i - at] else data[i]
  }

  // The buffer after `n` bytes at `p` were squeezed out of its first `total` bytes.
  predicate Squeezed(data: bytes, data': bytes, p: nat, n: nat, total: nat)
    requires p + n <= total <= |data|
  {
    && |data'| == |data|
    && (forall x :: 0 <= x < p ==> data'[x] == data[x])
    && (forall x :: p <= x < total - n ==> data'[x] == data[x + n])
  }

  lemma {:induction false} TilesInside(ss: seq<Slice>, skip: int, total: nat, full: bool)
    requires Tiles(ss, skip, total, full)
    ensures forall i :: 0 <= i < |ss| && i != skip ==> ss[i].len > 0 && ss[i].End() <= total
  {
  }

  lemma {:induction false} Loosen(ss: seq<Slice>, skip: int, total: nat, full: bool)
    requires Tiles(ss, skip, total, full)
    ensures Tiles(ss, skip, total, false)
  {
  }

  lemma {:induction false} Beside(ss: seq<Slice>, k: nat, total: nat, full: bool)
    requires Tiles(ss, -1, total, full) && k < |ss|
    ensures forall i :: 0 <= i < |ss| && i != k ==> Before(ss[i], ss[k]) || Before(ss[k], ss[i])
    ensures forall i :: 0 <= i < |ss| && ss[i].start > ss[k].start ==> ss[i].start >= ss[k].End()
  {
  }

  lemma {:induction false} StillCovered(ss: seq<Slice>, k: nat, total: nat, q: nat)
    requires Tiles(ss, -1, total, true) && k < |ss| && q < total - ss[k].len
    requires forall i :: 0 <= i < |ss| && ss[i].start > ss[k].start ==> ss[i].start >= ss[k].End()
    ensures Covers(Shifted(ss, ss[k].start, ss[k].len), k, q)
  {
    hide Apart;
    var p, n := ss[k].start, ss[k].len;
    var x := if q < p then q else q + n;
    assert Covers(ss, -1, x);
    var i :| 0 <= i < |ss| && ss[i].start <= x < ss[i].End();
    var r := Shifted(ss, p, n);
    assert r[i].start <= q < r[i].End();
  }

  lemma {:induction false} RemoveTiles(ss: seq<Slice>, k: nat, total: nat, full: bool)
    requires Tiles(ss, -1, total, full) && k < |ss|
    ensures forall i :: 0 <= i < |ss| && i != k ==> Before(ss[i], ss[k]) || Before(ss[k], ss[i])
    ensures forall i :: 0 <= i < |ss| && ss[i].start > ss[k].start ==> ss[i].start >= ss[k].End()
    ensures Tiles(Shifted(ss, ss[k].start, ss[k].len), k, total - ss[k].len, full)
  {
    hide Covers;
    Beside(ss, k, total, full);
    assert Apart(Shifted(ss, ss[k].start, ss[k].len), k);
    forall q | full && 0 <= q < total - ss[k].len ensures Covers(Shifted(ss, ss[k].start, ss[k].len), k, q) {
      StillCovered(ss, k, total, q);
    }
  }

  // No other slice loses or changes a byte.
  lemma {:induction false} RemoveKeepsContent(data: bytes, data': bytes, ss: seq<Slice>, k: nat, total: nat, full: bool)
    requires Tiles(ss, -1, total, full) && k < |ss| && total <= |data|
    requires Squeezed(data, data', ss[k].start, ss[k].len, total)
    ensures forall i :: 0 <= i < |ss| && ss[i].start > ss[k].start ==> ss[i].start >= ss[k].End()
    ensures var r := Shifted(ss, ss[k].start, ss[k].len);
      forall i :: 0 <= i < |ss| && i != k ==>
        r[i].End() <= total - ss[k].len && Content(data', r[i]) == Content(data, ss[i])
  {
    TilesInside(ss, -1, total, full);
    RemoveTiles(ss, k, total, full);
    hide Tiles, Squeezed;
    var r := Shifted(ss, ss[k].start, ss[k].len);
    forall i | 0 <= i < |ss| && i != k
      ensures r[i].End() <= total - ss[k].len && Content(data', r[i]) == Content(data, ss[i])
    {
      assert Before(ss[i], ss[k]) || Before(ss[k], ss[i]);
      SqueezedContent(data, data', ss[i], ss[k], total);
    }
  }

  lemma {:induction false} SqueezedContent(data: bytes, data': bytes, s: Slice, gone: Slice, total: nat)
    requires gone.End() <= total <= |data| && gone.len > 0 && s.len > 0 && s.End() <= total
    requires Squeezed(data, data', gone.start, gone.len, total)
    requires Before(s, gone) || Before(gone, s)
    ensures var r := if s.start > gone.start then Slice(s.start - gone.len, s.len) else s;
            r.End() <= total - gone.len && Content(data', r) == Content(data, s)
  {
    if s.start > gone.start {
      var r := Slice(s.start - gone.len, s.len);
      forall j | 0 <= j < s.len ensures Content(data', r)[j] == Content(data, s)[j] {
        assert data'[r.start + j] == data[r.start + j + gone.len];
      }
    }
  }

  lemma {:induction false} PlaceTiles(ss: seq<Slice>, k: nat, total: nat, n: nat, full: bool)
    requires k < |ss| && Tiles(ss, k, total, full) && n > 0
    ensures Tiles(ss[k := Slice(total, n)], -1, total + n, full)
  {
    var r := ss[k := Slice(total, n)];
    forall q | full && 0 <= q < total + n ensures Covers(r, -1, q) {
      if q < total {
        assert Covers(ss, k, q);
        var i :| 0 <= i < |ss| && i != k && ss[i].start <= q < ss[i].End();
        assert r[i].start <= q < r[i].End();
      } else {
        assert r[k].start <= q < r[k].End();
      }
    }
  }

  lemma {:induction false} InsertTiles(ss: seq<Slice>, k: nat, total: nat, n: nat, full: bool)
    requires k <= |ss| && Tiles(ss, -1, total, full) && n > 0
    ensures Tiles(ss[..k] + [Slice(total, n)] + ss[k..], -1, total + n, full)
  {
    var r := ss[..k] + [Slice(total, n)] + ss[k..];
    forall i | 0 <= i < |r| ensures i != k ==> r[i] == ss[if i < k then i else i - 1] {
    }
    InsertApart(ss, k, total, r);
    forall q | full && 0 <= q < total + n ensures Covers(r, -1, q) {
      if q < total {
        assert Covers(ss, -1, q);
        var i :| 0 <= i < |ss| && ss[i].start <= q < ss[i].End();
        var a := if i < k then i else i + 1;
        assert r[a].start <= q < r[a].End();
      } else {
        assert r[k].start <= q < r[k].End();
      }
    }
  }

  lemma {:induction false} InsertApart(ss: seq<Slice>, k: nat, total: nat, r: seq<Slice>)
    requires k <= |ss| && |r| == |ss| + 1 && Apart(ss, -1) && r[k].start == total
    requires forall i :: 0 <= i < |ss| ==> ss[i].End() <= total
    requires forall i :: 0 <= i < |r| && i != k ==> r[i] == ss[if i < k then i else i - 1]
    ensures Apart(r, -1)
  {
    forall i, j | 0 <= i < |r| && 0 <= j < |r| && i != j ensures Before(r[i], r[j]) || Before(r[j], r[i]) {
      var a, b := if i < k then i else i - 1, if j < k then j else j - 1;
      if i != k && j != k { assert Before(ss[a], ss[b]) || Before(ss[b], ss[a]); }
    }
  }

  lemma {:induction false} DropTiles(ss: seq<Slice>, k: nat, total: nat, full: bool)
    requires k < |ss| && Tiles(ss, k, total, full)
    ensures Tiles(ss[..k] + ss[k + 1..], -1, total, full)
  {
    var r := ss[..k] + ss[k + 1..];
    forall q | full && 0 <= q < total ensures Covers(r, -1, q) {
      assert Covers(ss, k, q);
      var i :| 0 <= i < |ss| && i != k && ss[i].start <= q < ss[i].End();
      var a := if i < k then i else i - 1;
      assert r[a].start <= q < r[a].End();
    }
  }

  lemma {:induction false} CopiedContent(data: bytes, data': bytes, at: nat, from: bytes, s: Slice)
    requires at + |from| <= |data| && Copied(data, data', at, from)
    requires s.End() <= at || s == Slice(at, |from|)
    ensures Content(data', s) == if s.End() <= at then Content(data, s) else from
  {
    if s.End() > at {
      assert forall j :: 0 <= j < |from| ==> data'[at + j] == from[j];
    }
  }

  lemma {:induction false} ReplacedTiles(ss: seq<Slice>, k: nat, total: nat, n: nat, full: bool)
    requires Tiles(ss, -1, total, full) && k < |ss| && n > 0
    ensures ss[k].len <= total && forall i :: 0 <= i < |ss| && ss[i].start > ss[k].start ==> ss[i].start >= ss[k].End()
    ensures var at := total - ss[k].len;
      Tiles(Shifted(ss, ss[k].start, ss[k].len)[k := Slice(at, n)], -1, at + n, full)
  {
    TilesInside(ss, -1, total, full);
    RemoveTiles(ss, k, total, full);
    hide Tiles;
    PlaceTiles(Shifted(ss, ss[k].start, ss[k].len), k, total - ss[k].len, n, full);
  }

  // Replacing entry `k`: its bytes are squeezed out and `x` is copied behind the others. The slices tile the new
  // prefix, entry `k` reads `x`, and every other entry reads what it did.
  lemma {:induction false} ReplaceTiles(
    data: bytes, data1: bytes, data2: bytes, ss: seq<Slice>, k: nat, total: nat, x: bytes, full: bool)
    requires Tiles(ss, -1, total, full) && k < |ss| && x != [] && total <= |data|
    requires Squeezed(data, data1, ss[k].start, ss[k].len, total)
    requires total - ss[k].len + |x| <= |data|
    requires Copied(data1, data2, total - ss[k].len, x)
    ensures forall i :: 0 <= i < |ss| && ss[i].start > ss[k].start ==> ss[i].start >= ss[k].End()
    ensures var n := ss[k].len;
      var r := Shifted(ss, ss[k].start, n)[k := Slice(total - n, |x|)];
      Tiles(r, -1, total - n + |x|, full) && Contents(data2, r) == Contents(data, ss)[k := x]
  {
    assert |data1| == |data|;
    hide Tiles, Squeezed;
    TilesInside(ss, -1, total, full);
    ReplacedTiles(ss, k, total, |x|, full);
    RemoveKeepsContent(data, data1, ss, k, total, full);
    var n := ss[k].len;
    var s1 := Shifted(ss, ss[k].start, n);
    TilesInside(s1[k := Slice(total - n, |x|)], -1, total - n + |x|, full);
    PlacedContents(data1, data2, s1, k, total - n, x, Contents(data, ss));
  }

  lemma {:induction false} PlacedContents(
    data: bytes, data': bytes, ss: seq<Slice>, k: nat, at: nat, x: bytes, cs: seq<bytes>)
    requires k < |ss| == |cs| && at + |x| <= |data| && Copied(data, data', at, x)
    requires forall i :: 0 <= i < |ss| && i != k ==> ss[i].End() <= at && Content(data, ss[i]) == cs[i]
    ensures Contents(data', ss[k := Slice(at, |x|)]) == cs[k := x]
  {
    var r := ss[k := Slice(at, |x|)];
    forall i | 0 <= i < |ss| ensures Content(data', r[i]) == cs[k := x][i] {
      CopiedContent(data, data', at, x, r[i]);
    }
  }

  lemma {:induction false} AppendTiles(
    data: bytes, data2: bytes, ss: seq<Slice>, k: nat, total: nat, x: bytes, full: bool)
    requires Tiles(ss, -1, total, full) && k <= |ss| && x != [] && total + |x| <= |data|
    requires Copied(data, data2, total, x)
    ensures var r := ss[..k] + [Slice(total, |x|)] + ss[k..];
      && Tiles(r, -1, total + |x|, full)
      && Contents(data2, r) == Contents(data, ss[..k]) + [x] + Contents(data, ss[k..])
  {
    hide Tiles;
    TilesInside(ss, -1, total, full);
    InsertTiles(ss, k, total, |x|, full);
    var r := ss[..k] + [Slice(total, |x|)] + ss[k..];
    TilesInside(r, -1, total + |x|, full);
    var cs := Contents(data, ss[..k]) + [x] + Contents(data, ss[k..]);
    forall i | 0 <= i < |r| ensures Content(data2, r[i]) == cs[i] {
      if i < k { assert r[i] == ss[..k][i]; } else if i > k { assert r[i] == ss[k..][i - k - 1]; }
      CopiedContent(data, data2, total, x, r[i]);
    }
  }

  function Lengths(ss: seq<Slice>): nat { if ss == [] then 0 else ss[0].len + Lengths(ss[1..]) }

  lemma {:induction false} LengthsSame(a: seq<Slice>, b: seq<Slice>)
    requires |a| == |b| && forall i :: 0 <= i < |a| ==> a[i].len == b[i].len
    ensures Lengths(a) == Lengths(b)
    decreases |a|
  {
    if a != [] { LengthsSame(a[1..], b[1..]); }
  }

  lemma {:induction false} NothingTiled(total: nat)
    requires Tiles([], -1, total, true)
    ensures total == 0
  {
    assert total > 0 ==> Covers([], -1, 0);
  }

  // The rest of a tiling, once its first slice is cut out.
  lemma {:induction false} ShiftedLengths(ss: seq<Slice>, p: nat, n: nat)
    requires forall i :: 0 <= i < |ss| && ss[i].start > p ==> ss[i].start >= n
    ensures forall i :: 0 <= i < |ss| ==> Shifted(ss, p, n)[i].len == ss[i].len
  {
  }

  lemma {:induction false} RestTiles(ss: seq<Slice>, total: nat) returns (r: seq<Slice>)
    requires Tiles(ss, -1, total, true) && ss != []
    ensures ss[0].len <= total && Tiles(r, -1, total - ss[0].len, true)
    ensures |r| == |ss| - 1 && forall i :: 0 <= i < |r| ==> r[i].len == ss[i + 1].len
  {
    hide Tiles, Shifted;
    TilesInside(ss, -1, total, true);
    RemoveTiles(ss, 0, total, true);
    ShiftedLengths(ss, ss[0].start, ss[0].len);
    var shifted := Shifted(ss, ss[0].start, ss[0].len);
    DropTiles(shifted, 0, total - ss[0].len, true);
    r := shifted[..0] + shifted[1..];
    assert r == shifted[1..];
  }

  // A tiling leaves no byte out and counts none twice.
  lemma {:induction false} TilesTotal(ss: seq<Slice>, total: nat)
    requires Tiles(ss, -1, total, true)
    ensures total == Lengths(ss)
    decreases |ss|
  {
    hide Tiles;
    if ss == [] {
      NothingTiled(total);
    } else {
      var r := RestTiles(ss, total);
      TilesTotal(r, total - ss[0].len);
      LengthsSame(r, ss[1..]);
    }
  }
}
