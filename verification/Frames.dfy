/** Frames of a live stream, and what a receiver can say about each of them. */
module Frames {
  import opened Options

  // A frame is an audio frame, a video frame or a metadata frame; `id` stands for the payload.
  // Metadata says which media types it enables.
  datatype Frame =
    | Audio(id: nat, dts: int, size: nat)
    | Video(id: nat, dts: int, size: nat, key: bool)
    | Meta(id: nat, audioOn: bool, videoOn: bool)
  {
    predicate IsMedia() { !Meta? }

    predicate IsKeyframe() { Video? && key }

    predicate IsInter() { Video? && !key }
  }

  predicate StartsWithMeta(s: seq<Frame>) { s != [] && s[0].Meta? }

  predicate EndsWithMeta(s: seq<Frame>) { s != [] && s[|s| - 1].Meta? }

  predicate NoAdjacentMetas(s: seq<Frame>) {
    |s| < 2 || (NoAdjacentMetas(s[..|s| - 1]) && !(s[|s| - 2].Meta? && s[|s| - 1].Meta?))
  }

  function FirstMedia(s: seq<Frame>): Option<Frame> {
    if s == [] then None else if s[0].IsMedia() then Some(s[0]) else FirstMedia(s[1..])
  }

  function LastMedia(s: seq<Frame>): Option<Frame> {
    if s == [] then None
    else if s[|s| - 1].IsMedia() then Some(s[|s| - 1])
    else LastMedia(s[..|s| - 1])
  }

  function LastMeta(s: seq<Frame>): Option<Frame> {
    if s == [] then None
    else if s[|s| - 1].Meta? then Some(s[|s| - 1])
    else LastMeta(s[..|s| - 1])
  }

  function FirstMeta(s: seq<Frame>): Option<Frame> {
    if s == [] then None else if s[0].Meta? then Some(s[0]) else FirstMeta(s[1..])
  }

  function MediaBytes(s: seq<Frame>): nat {
    if s == [] then 0
    else MediaBytes(s[..|s| - 1]) + (if s[|s| - 1].IsMedia() then s[|s| - 1].size else 0)
  }

  // Metadata frames superseded before any media frame followed them are dropped.
  function Squash(s: seq<Frame>): seq<Frame> {
    if s == [] then []
    else
      var f, rest := s[|s| - 1], Squash(s[..|s| - 1]);
      if f.Meta? && EndsWithMeta(rest) then rest[..|rest| - 1] + [f] else rest + [f]
  }

  // The first video frame, if any, is a keyframe.
  predicate KeyLed(s: seq<Frame>) {
    s == [] || (if s[0].Video? then s[0].key else KeyLed(s[1..]))
  }

  // ---------------------------------------------------------------------------
  // What a receiver knows

  // The metadata and the video keyframe received last.
  datatype Context = Context(meta: Option<Frame>, key: Option<Frame>)

  const NOTHING := Context(None, None)

  function Step(c: Context, f: Frame): Context {
    if f.Meta? then c.(meta := Some(f)) else if f.IsKeyframe() then c.(key := Some(f)) else c
  }

  // The context after receiving `s`.
  function After(c: Context, s: seq<Frame>): Context {
    if s == [] then c else Step(After(c, s[..|s| - 1]), s[|s| - 1])
  }

  // A received media frame, the metadata that governs it and, for an inter frame, the keyframe it depends on.
  datatype Entry = Entry(frame: Frame, meta: Option<Frame>, key: Option<Frame>)
  {
    predicate Decodable() { meta.Some? && (frame.IsInter() ==> key.Some?) }
  }

  function EntryOf(c: Context, f: Frame): Entry {
    Entry(f, c.meta, if f.IsInter() then c.key else None)
  }

  // The media frames of `s`, in order, each with what it depends on.
  function Entries(c: Context, s: seq<Frame>): seq<Entry> {
    if s == [] then []
    else
      var init, f := s[..|s| - 1], s[|s| - 1];
      Entries(c, init) + (if f.IsMedia() then [EntryOf(After(c, init), f)] else [])
  }

  predicate IsSuffix<T(==)>(s: seq<T>, t: seq<T>) { |s| <= |t| && s == t[|t| - |s|..] }

  // ---------------------------------------------------------------------------
  // Lemmas

  lemma {:induction false} AfterConcat(c: Context, a: seq<Frame>, b: seq<Frame>)
    ensures After(c, a + b) == After(After(c, a), b)
  {
    if b == [] {
      assert a + b == a;
    } else {
      assert (a + b)[..|a + b| - 1] == a + b[..|b| - 1];
      AfterConcat(c, a, b[..|b| - 1]);
    }
  }

  lemma {:induction false} EntriesConcat(c: Context, a: seq<Frame>, b: seq<Frame>)
    ensures Entries(c, a + b) == Entries(c, a) + Entries(After(c, a), b)
  {
    if b == [] {
      assert a + b == a;
    } else {
      var b' := b[..|b| - 1];
      assert (a + b)[..|a + b| - 1] == a + b';
      AfterConcat(c, a, b');
      EntriesConcat(c, a, b');
    }
  }

  lemma {:induction false} EntriesOfOne(c: Context, f: Frame)
    ensures After(c, [f]) == Step(c, f)
    ensures Entries(c, [f]) == if f.IsMedia() then [EntryOf(c, f)] else []
  {
    assert [f][..0] == [];
  }

  lemma {:induction false} EntriesAppend(c: Context, s: seq<Frame>, f: Frame)
    ensures After(c, s + [f]) == Step(After(c, s), f)
    ensures Entries(c, s + [f]) == Entries(c, s) + (if f.IsMedia() then [EntryOf(After(c, s), f)] else [])
  {
    assert (s + [f])[..|s|] == s;
  }

  // The starting keyframe does not matter to a sequence whose first video frame is a keyframe.
  lemma {:induction false} KeyLedForgetsKey(c: Context, d: Context, s: seq<Frame>)
    requires KeyLed(s) && c.meta == d.meta
    ensures Entries(c, s) == Entries(d, s)
    decreases |s|
  {
    if s != [] {
      assert s == [s[0]] + s[1..];
      EntriesConcat(c, [s[0]], s[1..]);
      EntriesConcat(d, [s[0]], s[1..]);
      EntriesAppend(c, [], s[0]);
      EntriesAppend(d, [], s[0]);
      assert [] + [s[0]] == [s[0]];
      if !s[0].Video? {
        KeyLedForgetsKey(Step(c, s[0]), Step(d, s[0]), s[1..]);
      }  else {
        SameContextSameEntries(Step(c, s[0]), Step(d, s[0]), s[1..]);
      }
    }
  }

  lemma {:induction false} SameContextSameEntries(c: Context, d: Context, s: seq<Frame>)
    requires c == d
    ensures Entries(c, s) == Entries(d, s)
  {
  }

  lemma {:induction false} AfterMeta(c: Context, d: Context, s: seq<Frame>)
    requires c.meta == d.meta
    ensures After(c, s).meta == After(d, s).meta
  {
    if s != [] {
      AfterMeta(c, d, s[..|s| - 1]);
    }
  }

  lemma {:induction false} AfterIsLastMeta(s: seq<Frame>)
    ensures After(NOTHING, s).meta == LastMeta(s)
  {
    if s != [] {
      AfterIsLastMeta(s[..|s| - 1]);
    }
  }

  lemma {:induction false} KeyLedConcat(a: seq<Frame>, b: seq<Frame>)
    requires KeyLed(a) && KeyLed(b)
    ensures KeyLed(a + b)
    decreases |a|
  {
    if a == [] {
      assert a + b == b;
    } else {
      assert (a + b)[1..] == a[1..] + b;
      if !a[0].Video? {
        KeyLedConcat(a[1..], b);
      }
    }
  }

  // Replacing trailing metadata by newer metadata changes no entry.
  lemma {:induction false} ReplaceTrailingMeta(c: Context, s: seq<Frame>, f: Frame)
    requires EndsWithMeta(s) && f.Meta?
    ensures Entries(c, s[..|s| - 1] + [f]) == Entries(c, s)
    ensures After(c, s[..|s| - 1] + [f]) == Step(After(c, s), f)
  {
    EntriesAppend(c, s[..|s| - 1], f);
  }

  lemma {:induction false} SquashKeepsEntries(c: Context, s: seq<Frame>)
    ensures Entries(c, Squash(s)) == Entries(c, s)
    ensures After(c, Squash(s)) == After(c, s)
  {
    if s != [] {
      var f, rest := s[|s| - 1], Squash(s[..|s| - 1]);
      SquashKeepsEntries(c, s[..|s| - 1]);
      if f.Meta? && EndsWithMeta(rest) {
        ReplaceTrailingMeta(c, rest, f);
      } else {
        EntriesAppend(c, rest, f);
      }
    }
  }

  lemma {:induction false} SquashedHasNoAdjacentMetas(s: seq<Frame>)
    ensures NoAdjacentMetas(Squash(s))
  {
    if s != [] {
      SquashedHasNoAdjacentMetas(s[..|s| - 1]);
    }
  }

  lemma {:induction false} FirstMediaConcat(a: seq<Frame>, b: seq<Frame>)
    ensures FirstMedia(a + b) == if FirstMedia(a).Some? then FirstMedia(a) else FirstMedia(b)
  {
    if a == [] {
      assert a + b == b;
    } else {
      assert (a + b)[1..] == a[1..] + b;
      FirstMediaConcat(a[1..], b);
    }
  }

  lemma {:induction false} LastMediaConcat(a: seq<Frame>, b: seq<Frame>)
    ensures LastMedia(a + b) == if LastMedia(b).Some? then LastMedia(b) else LastMedia(a)
  {
    if b == [] {
      assert a + b == a;
    } else {
      assert (a + b)[..|a + b| - 1] == a + b[..|b| - 1];
      LastMediaConcat(a, b[..|b| - 1]);
    }
  }

  lemma {:induction false} LastMetaConcat(a: seq<Frame>, b: seq<Frame>)
    ensures LastMeta(a + b) == if LastMeta(b).Some? then LastMeta(b) else LastMeta(a)
  {
    if b == [] {
      assert a + b == a;
    } else {
      assert (a + b)[..|a + b| - 1] == a + b[..|b| - 1];
      LastMetaConcat(a, b[..|b| - 1]);
    }
  }

  lemma {:induction false} FirstMetaConcat(a: seq<Frame>, b: seq<Frame>)
    ensures FirstMeta(a + b) == if FirstMeta(a).Some? then FirstMeta(a) else FirstMeta(b)
  {
    if a == [] {
      assert a + b == b;
    } else {
      assert (a + b)[1..] == a[1..] + b;
      FirstMetaConcat(a[1..], b);
    }
  }

  lemma {:induction false} MediaBytesConcat(a: seq<Frame>, b: seq<Frame>)
    ensures MediaBytes(a + b) == MediaBytes(a) + MediaBytes(b)
  {
    if b == [] {
      assert a + b == a;
    } else {
      assert (a + b)[..|a + b| - 1] == a + b[..|b| - 1];
      MediaBytesConcat(a, b[..|b| - 1]);
    }
  }

  // `FirstMedia` and the like find a frame exactly when there is one.
  lemma {:induction false} FoundMeaning(s: seq<Frame>)
    ensures FirstMedia(s).Some? ==> FirstMedia(s).value.IsMedia() && FirstMedia(s).value in s
    ensures LastMedia(s).Some? ==> LastMedia(s).value.IsMedia() && LastMedia(s).value in s
    ensures LastMeta(s).Some? ==> LastMeta(s).value.Meta? && LastMeta(s).value in s
    ensures FirstMedia(s).None? ==> forall i :: 0 <= i < |s| ==> s[i].Meta?
    ensures LastMedia(s).None? ==> forall i :: 0 <= i < |s| ==> s[i].Meta?
    ensures LastMeta(s).None? ==> forall i :: 0 <= i < |s| ==> s[i].IsMedia()
  {
    if s != [] {
      var init := s[..|s| - 1];
      FoundMeaning(init);
      FoundMeaning(s[1..]);
      assert forall i :: 0 <= i < |init| ==> init[i] == s[i];
      assert forall i :: 0 < i < |s| ==> s[i] == s[1..][i - 1];
    }
  }

  lemma {:induction false} NoAdjacentMetasConcat(a: seq<Frame>, b: seq<Frame>)
    ensures NoAdjacentMetas(a + b) <==>
            NoAdjacentMetas(a) && NoAdjacentMetas(b) && !(EndsWithMeta(a) && StartsWithMeta(b))
  {
    if b == [] {
      assert a + b == a;
    } else {
      assert (a + b)[..|a + b| - 1] == a + b[..|b| - 1];
      NoAdjacentMetasConcat(a, b[..|b| - 1]);
    }
  }

  lemma {:induction false} NoAdjacentMetasMeaning(s: seq<Frame>, i: nat)
    requires NoAdjacentMetas(s) && i + 1 < |s|
    ensures !(s[i].Meta? && s[i + 1].Meta?)
  {
    if i + 2 < |s| {
      NoAdjacentMetasMeaning(s[..|s| - 1], i);
    }
  }
}
