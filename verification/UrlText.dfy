/** The loops that decode and encode texts, and that print and parse the query of a URL. */
module UrlText {
  import opened Bytes
  import opened UrlQuery
  import opened Options

  // What was decoded so far, in front of the rest; nothing when the rest does not decode.
  function Behind(o: bytes, rest: Option<bytes>): Option<bytes> {
    match rest case None => None case Some(s) => Some(o + s)
  }

  lemma {:induction false} BehindPrepend(o: bytes, c: byte, rest: Option<bytes>)
    ensures Behind(o, Prepend(c, rest)) == Behind(o + [c], rest)
  {
    if rest.Some? { assert o + ([c] + rest.value) == o + [c] + rest.value; }
  }

  // Both decoders; they differ in what a plus sign stands for.
  method Decode(s: bytes, plus: bool) returns (r: Option<bytes>)
    ensures r == Decoded(s, plus)
  {
    hide Prepend, Behind, HexValue;
    var o: bytes, at := [], 0;
    NothingBehind(s, plus);
    while at < |s|
      invariant at <= |s| && Decoded(s, plus) == Behind(o, Decoded(s[at..], plus))
    {
      var c := s[at];
      ghost var here := s[at..];
      assert here[1..] == s[at + 1..] && (|here| >= 3 ==> here[3..] == s[at + 3..]);
      at := at + 1;
      if plus && c == PLUS {
        c := SPACE;
      } else if c == PERCENT {
        NoneBehind(o);
        if at == |s| || HexValue(s[at]) < 0 { return None; }
        var a := HexValue(s[at]);
        at := at + 1;
        if at == |s| || HexValue(s[at]) < 0 { return None; }
        c := 16 * a + HexValue(s[at]);
        at := at + 1;
      }
      BehindPrepend(o, c, Decoded(s[at..], plus));
      o := o + [c];
    }
    AllBehind(s, plus, o);
    return Some(o);
  }

  lemma {:induction false} NothingBehind(s: bytes, plus: bool)
    ensures Decoded(s, plus) == Behind([], Decoded(s[0..], plus))
  {
    hide Decoded;
    assert s[0..] == s;
    var d := Decoded(s, plus);
    if d.Some? { assert [] + d.value == d.value; }
  }

  lemma {:induction false} NoneBehind(o: bytes)
    ensures Behind(o, None) == None
  {
  }

  lemma {:induction false} AllBehind(s: bytes, plus: bool, o: bytes)
    ensures s[|s|..] == [] && Behind(o, Decoded([], plus)) == Some(o)
  {
    assert o + [] == o;
  }

  // All three encoders.
  method Encode(s: bytes, form: Form, mask: byte) returns (o: bytes)
    ensures o == Encoded(s, form, mask)
  {
    hide Shown;
    o := [];
    var at := 0;
    assert s[0..] == s && [] + Encoded(s, form, mask) == Encoded(s, form, mask);
    while at < |s|
      invariant at <= |s| && Encoded(s, form, mask) == o + Encoded(s[at..], form, mask)
    {
      assert s[at..][1..] == s[at + 1..];
      assert o + (Shown(s[at], form, mask) + Encoded(s[at + 1..], form, mask))
          == o + Shown(s[at], form, mask) + Encoded(s[at + 1..], form, mask);
      o := o + Shown(s[at], form, mask);
      at := at + 1;
    }
    assert s[|s|..] == [] && o + [] == o;
  }

  method PrintEntry(e: Entry) returns (o: bytes)
    ensures o == EntryText(e)
  {
    hide Encoded;
    o := Encode(e.key, Key, QUERY_MASK);
    if e.val != [] {
      var v := Encode(e.val, Val, QUERY_MASK);
      o := o + [EQUALS] + v;
    }
  }

  // The text of a query, or nothing when an entry has no key.
  method PrintQuery(q: seq<Entry>) returns (r: Option<bytes>)
    requires q != []
    ensures r == QueryText(q)
  {
    hide EntryText;
    if q[0].key == [] { return None; }
    var o := PrintEntry(q[0]);
    var i := 1;
    assert q[1..] == q[i..];
    while i < |q|
      invariant 1 <= i <= |q| && forall j :: 0 <= j < i ==> q[j].key != []
      invariant EntryText(q[0]) + MoreText(q[1..]) == o + MoreText(q[i..])
    {
      if q[i].key == [] { return None; }
      var e := PrintEntry(q[i]);
      assert q[i..][1..] == q[i + 1..];
      assert o + ([AND] + EntryText(q[i]) + MoreText(q[i + 1..])) == o + ([AND] + e) + MoreText(q[i + 1..]);
      o := o + ([AND] + e);
      i := i + 1;
    }
    assert o + [] == o;
    return Some(o);
  }

  method Find(s: bytes, from: nat, stops: set<byte>) returns (p: nat)
    requires from <= |s|
    ensures from <= p <= |s| && p == from + FindFirst(s[from..], stops)
  {
    p := from;
    while p < |s| && s[p] !in stops
      invariant from <= p <= |s| && from + FindFirst(s[from..], stops) == p + FindFirst(s[p..], stops)
    {
      assert s[p..][1..] == s[p + 1..];
      p := p + 1;
    }
  }

  // A stretch of the text, checked and decoded.
  method Taken(s: bytes, from: nat, to: nat) returns (r: Option<bytes>)
    requires from <= to <= |s|
    ensures r == Part(s[from..to])
  {
    hide Allowed, Decoded;
    var i := from;
    while i < to
      invariant from <= i <= to && forall j :: from <= j < i ==> Allowed(s[j], TEXT_MASK)
    {
      if !Allowed(s[i], TEXT_MASK) {
        assert s[from..to][i - from] == s[i];
        return None;
      }
      i := i + 1;
    }
    r := Decode(s[from..to], true);
  }

  function Joined(done: seq<Entry>, rest: Option<seq<Entry>>): Option<seq<Entry>> {
    match rest case None => None case Some(q) => Some(done + q)
  }

  lemma {:induction false} JoinedCons(done: seq<Entry>, e: Entry, rest: Option<seq<Entry>>)
    ensures Joined(done, Cons(e, rest)) == Joined(done + [e], rest)
  {
    if rest.Some? { assert done + ([e] + rest.value) == done + [e] + rest.value; }
  }

  lemma {:induction false} JoinedNone(done: seq<Entry>)
    ensures Joined(done, None) == None
  {
  }

  // A key or a value: all up to the next stop, decoded.
  method TakePart(s: bytes, from: nat, stops: set<byte>) returns (r: Option<bytes>, p: nat)
    requires from <= |s|
    ensures from <= p <= |s| && p == from + FindFirst(s[from..], stops) && r == Part(s[from..][..p - from])
    ensures p < |s| ==> s[from..][p - from] == s[p] && s[from..][p - from + 1..] == s[p + 1..]
  {
    hide Part, FindFirst;
    p := Find(s, from, stops);
    ghost var here := s[from..];
    assert here[..p - from] == s[from..p] && (p < |s| ==> here[p - from + 1..] == s[p + 1..]);
    r := Taken(s, from, p);
  }

  lemma {:induction false} NoKey(s: bytes, i: nat)
    requires i == FindFirst(s, KEY_STOPS) && Part(s[..i]) == None
    ensures Entries(s) == None
  {
    hide Part, FindFirst, Cons;
  }

  lemma {:induction false} OnlyKey(s: bytes, i: nat, key: bytes)
    requires i == FindFirst(s, KEY_STOPS) && Part(s[..i]) == Some(key) && (i < |s| ==> s[i] != EQUALS)
    ensures Entries(s) == if i == |s| then Some([Entry(key, [])]) else Cons(Entry(key, []), Entries(s[i + 1..]))
  {
    hide Part, FindFirst, Cons;
  }

  lemma {:induction false} KeyAndValue(s: bytes, i: nat, key: bytes, t: bytes, j: nat)
    requires i == FindFirst(s, KEY_STOPS) && Part(s[..i]) == Some(key) && i < |s| && s[i] == EQUALS
    requires t == s[i + 1..] && j == FindFirst(t, VAL_STOPS)
    ensures Entries(s) == match Part(t[..j])
      case None => None
      case Some(val) => if j == |t| then Some([Entry(key, val)]) else Cons(Entry(key, val), Entries(t[j + 1..]))
  {
    hide Part, FindFirst, Cons;
  }

  // One entry from `from` on, and where the loop stands then: at a separator, or at the end.
  method TakeEntry(s: bytes, from: nat) returns (e: Option<Entry>, p: nat)
    requires from <= |s|
    ensures from <= p <= |s|
    ensures Entries(s[from..]) == match e
      case None => None
      case Some(entry) => if p == |s| then Some([entry]) else Cons(entry, Entries(s[p + 1..]))
  {
    hide Part, FindFirst, Cons, Entries;
    var key;
    key, p := TakePart(s, from, KEY_STOPS);
    ghost var here, i := s[from..], p - from;
    if key == None {
      NoKey(here, i);
      return None, p;
    }
    var val: bytes := [];
    if p < |s| && s[p] == EQUALS {
      ghost var t := here[i + 1..];
      var v, q := TakePart(s, p + 1, VAL_STOPS);
      KeyAndValue(here, i, key.value, t, q - (p + 1));
      p := q;
      if v == None { return None, p; }
      val := v.value;
    } else {
      OnlyKey(here, i, key.value);
    }
    e := Some(Entry(key.value, val));
  }

  method ParseQuery(s: bytes) returns (r: Option<seq<Entry>>)
    ensures r == ParsedQuery(s)
  {
    hide Entries, Joined, Cons;
    if s == [] { return Some([]); }
    var q: seq<Entry>, p, b := [], 0, 0;
    ghost var goal := ParsedQuery(s);
    AllJoined(s);
    while p != |s|
      invariant p <= |s| && b <= |s| + 1 && (p != |s| ==> b <= |s|)
      invariant goal == if p == |s| then Some(q) else Joined(q, Entries(s[b..]))
      decreases |s| + 1 - b, p != |s|
    {
      var e;
      ghost var from := b;
      e, p := TakeEntry(s, b);
      JoinedNone(q);
      if e == None { return None; }
      if p < |s| { JoinedCons(q, e.value, Entries(s[p + 1..])); } else { JoinedLast(q, e.value); }
      b := p + 1;
      q := q + [e.value];
    }
    return Some(q);
  }

  lemma {:induction false} AllJoined(s: bytes)
    ensures Entries(s) == Joined([], Entries(s[0..]))
  {
    hide Entries;
    assert s[0..] == s;
    var d := Entries(s);
    if d.Some? { assert [] + d.value == d.value; }
  }

  lemma {:induction false} JoinedLast(done: seq<Entry>, e: Entry)
    ensures Joined(done, Some([e])) == Some(done + [e])
  {
  }
}
