/** Percent encoding, and getting back the query that was printed. */
module UrlQuery {
  import opened Bytes
  import opened Options

  const PERCENT: byte := 0x25
  const PLUS: byte := 0x2B
  const SPACE: byte := 0x20
  const EQUALS: byte := 0x3D
  const AND: byte := 0x26
  const SEMICOLON: byte := 0x3B
  const HASH: byte := 0x23

  // ---------------------------------------------------------------------------
  // Characters

  predicate Letter(c: byte) { 0x41 <= c <= 0x5A || 0x61 <= c <= 0x7A }

  predicate Digit(c: byte) { 0x30 <= c <= 0x39 }

  // The class of a character: 0 for those never allowed, otherwise one bit of the masks.
  function Class(c: byte): (k: nat)
    ensures k in {0, 1, 2, 4, 8, 0x10, 0x20}
    ensures k == 0x20 <==> c == PERCENT
  {
    if c == PERCENT then 0x20
    else if c == 0x3F then 0x10           // ?
    else if c == 0x2F then 8              // /
    else if c == 0x3A then 4              // :
    else if c == 0x40 then 2              // @
    else if Letter(c) || Digit(c) then 1
    else if c in {0x21, 0x24, 0x3D, 0x5F, 0x7E} then 1   // ! $ = _ ~
    else if 0x26 <= c <= 0x2E || c == SEMICOLON then 1   // & ' ( ) * + , - . ;
    else 0
  }

  // The class's bit is set in the mask.
  predicate Allowed(c: byte, mask: byte) { Class(c) != 0 && mask as nat / Class(c) % 2 == 1 }

  predicate AllAllowed(s: bytes, mask: byte) { forall i :: 0 <= i < |s| ==> Allowed(s[i], mask) }

  function HexDigit(n: nat): (c: byte)
    requires n < 16
    ensures Digit(c) || 0x41 <= c <= 0x46
  {
    if n < 10 then 0x30 + n else 0x41 + n - 10
  }

  // The value of a hexadecimal digit of either case, or -1.
  function HexValue(c: byte): (v: int)
    ensures -1 <= v < 16
  {
    if Digit(c) then c as int - 0x30
    else if 0x41 <= c <= 0x46 then c as int - 0x41 + 10
    else if 0x61 <= c <= 0x66 then c as int - 0x61 + 10
    else -1
  }

  lemma {:induction false} HexRoundTrip(n: nat)
    requires n < 16
    ensures HexValue(HexDigit(n)) == n
  {
  }

  // ---------------------------------------------------------------------------
  // Decoding

  // With `plus`, a plus sign stands for a space.
  function Decoded(s: bytes, plus: bool): Option<bytes>
    decreases |s|
  {
    if s == [] then Some([])
    else if s[0] == PERCENT then
      if |s| < 3 || HexValue(s[1]) < 0 || HexValue(s[2]) < 0 then None
      else Prepend(16 * HexValue(s[1]) + HexValue(s[2]), Decoded(s[3..], plus))
    else Prepend(if plus && s[0] == PLUS then SPACE else s[0], Decoded(s[1..], plus))
  }

  function Prepend(c: byte, rest: Option<bytes>): Option<bytes> {
    match rest case None => None case Some(s) => Some([c] + s)
  }

  // ---------------------------------------------------------------------------
  // Encoding

  function Escape(c: byte): bytes { [PERCENT, HexDigit(c as nat / 16), HexDigit(c as nat % 16)] }

  // What is done to a character: nothing but escaping what the mask does not allow, or the two forms for queries.
  datatype Form = Plain | Key | Val

  function Shown(c: byte, form: Form, mask: byte): bytes {
    if form.Plain? then (if Allowed(c, mask) then [c] else Escape(c))
    else if c == SPACE then [PLUS]
    else if c in {PLUS, AND, SEMICOLON} || (form.Key? && c == EQUALS) then Escape(c)
    else if Allowed(c, mask) then [c]
    else Escape(c)
  }

  function Encoded(s: bytes, form: Form, mask: byte): bytes {
    if s == [] then [] else Shown(s[0], form, mask) + Encoded(s[1..], form, mask)
  }

  predicate PercentFree(mask: byte) { mask as nat / 0x20 % 2 == 0 }

  lemma {:induction false} ShownDecodes(c: byte, form: Form, mask: byte, rest: bytes)
    requires PercentFree(mask)
    ensures Decoded(Shown(c, form, mask) + rest, !form.Plain?) == Prepend(c, Decoded(rest, !form.Plain?))
  {
    HexRoundTrip(c as nat / 16);
    HexRoundTrip(c as nat % 16);
    assert ([c] + rest)[1..] == rest && ([PLUS] + rest)[1..] == rest && (Escape(c) + rest)[3..] == rest;
  }

  lemma {:induction false} NoText(form: Form, mask: byte)
    ensures Encoded([], form, mask) == [] && forall plus :: Decoded([], plus) == Some([])
  {
  }

  lemma {:induction false} EncodedCons(s: bytes, form: Form, mask: byte)
    ensures s != [] ==> Encoded(s, form, mask) == Shown(s[0], form, mask) + Encoded(s[1..], form, mask)
  {
    hide Shown;
  }

  // Decoding inverts encoding, whatever follows, for every mask that does not let the percent sign through.
  lemma {:induction false} DecodeInverts(s: bytes, form: Form, mask: byte)
    requires PercentFree(mask)
    ensures Decoded(Encoded(s, form, mask), !form.Plain?) == Some(s)
    decreases |s|
  {
    NoText(form, mask);
    EncodedCons(s, form, mask);
    hide Shown, Decoded, Encoded;
    if s != [] {
      ShownDecodes(s[0], form, mask, Encoded(s[1..], form, mask));
      DecodeInverts(s[1..], form, mask);
      assert [s[0]] + s[1..] == s;
    }
  }

  // And only for those.
  lemma {:induction false} InvertsIffPercentFree(mask: byte)
    ensures (forall s: bytes :: Decoded(Encoded(s, Plain, mask), false) == Some(s)) <==> PercentFree(mask)
  {
    if PercentFree(mask) {
      forall s: bytes ensures Decoded(Encoded(s, Plain, mask), false) == Some(s) { DecodeInverts(s, Plain, mask); }
    } else {
      var s: bytes := [PERCENT];
      assert Allowed(PERCENT, mask);
      assert Encoded(s[1..], Plain, mask) == [];
      assert Encoded(s, Plain, mask) == [PERCENT];
    }
  }

  // ---------------------------------------------------------------------------
  // Queries

  datatype Entry = Entry(key: bytes, val: bytes)

  const QUERY_MASK: byte := 0x1F
  const TEXT_MASK: byte := 0x3F

  function EntryText(e: Entry): bytes {
    Encoded(e.key, Key, QUERY_MASK) + if e.val == [] then [] else [EQUALS] + Encoded(e.val, Val, QUERY_MASK)
  }

  function MoreText(q: seq<Entry>): bytes {
    if q == [] then [] else [AND] + EntryText(q[0]) + MoreText(q[1..])
  }

  predicate AllKeyed(q: seq<Entry>) { forall i :: 0 <= i < |q| ==> q[i].key != [] }

  // The text behind the question mark; an entry without key is refused.
  function QueryText(q: seq<Entry>): Option<bytes>
    requires q != []
  {
    if AllKeyed(q) then Some(EntryText(q[0]) + MoreText(q[1..])) else None
  }

  // The first of some characters, or the end.
  function FindFirst(s: bytes, stops: set<byte>): (i: nat)
    ensures i <= |s| && (i < |s| ==> s[i] in stops)
    ensures forall j :: 0 <= j < i ==> s[j] !in stops
  {
    if s == [] || s[0] in stops then 0 else 1 + FindFirst(s[1..], stops)
  }

  const KEY_STOPS: set<byte> := {EQUALS, SEMICOLON, AND}
  const VAL_STOPS: set<byte> := {SEMICOLON, AND}

  // A stretch of text, if all its characters are allowed and it decodes.
  function Part(s: bytes): Option<bytes> { if AllAllowed(s, TEXT_MASK) then Decoded(s, true) else None }

  function Cons(e: Entry, rest: Option<seq<Entry>>): Option<seq<Entry>> {
    match rest case None => None case Some(q) => Some([e] + q)
  }

  // One turn of the loop over the query and all that follow; it is entered again behind every separator, even when
  // nothing is left there.
  function Entries(s: bytes): Option<seq<Entry>>
    decreases |s|
  {
    var i := FindFirst(s, KEY_STOPS);
    match Part(s[..i])
    case None => None
    case Some(key) =>
      if i == |s| then Some([Entry(key, [])])
      else if s[i] == EQUALS then
        var t := s[i + 1..];
        var j := FindFirst(t, VAL_STOPS);
        match Part(t[..j])
        case None => None
        case Some(val) => if j == |t| then Some([Entry(key, val)]) else Cons(Entry(key, val), Entries(t[j + 1..]))
      else Cons(Entry(key, []), Entries(s[i + 1..]))
  }

  function ParsedQuery(s: bytes): Option<seq<Entry>> { if s == [] then Some([]) else Entries(s) }

  // ---------------------------------------------------------------------------
  // Printing and parsing

  // What an encoded key or value is made of.
  predicate Tame(s: bytes, form: Form) {
    forall i :: 0 <= i < |s| ==>
      s[i] != AND && s[i] != SEMICOLON && s[i] != HASH && Allowed(s[i], TEXT_MASK) && (form.Key? ==> s[i] != EQUALS)
  }

  lemma {:induction false} HexTame(n: nat)
    requires n < 16
    ensures var c := HexDigit(n);
      Allowed(c, TEXT_MASK) && c != AND && c != SEMICOLON && c != HASH && c != EQUALS
  {
    assert Class(HexDigit(n)) == 1;
  }

  lemma {:induction false} EscapeTame(c: byte, form: Form)
    ensures Tame(Escape(c), form)
  {
    assert Allowed(PERCENT, TEXT_MASK);
    HexTame(c as nat / 16);
    HexTame(c as nat % 16);
    hide Class, Allowed, HexDigit;
  }

  lemma {:induction false} PlainTame(c: byte)
    requires Allowed(c, QUERY_MASK)
    ensures Allowed(c, TEXT_MASK) && c != HASH
  {
  }

  lemma {:induction false} ShownTame(c: byte, form: Form)
    requires !form.Plain?
    ensures Tame(Shown(c, form, QUERY_MASK), form)
  {
    assert Allowed(PLUS, TEXT_MASK);
    EscapeTame(c, form);
    if Allowed(c, QUERY_MASK) { PlainTame(c); }
    hide Class, Allowed, Escape;
  }

  lemma {:induction false} EncodedTame(s: bytes, form: Form)
    requires !form.Plain?
    ensures Tame(Encoded(s, form, QUERY_MASK), form)
    decreases |s|
  {
    hide Shown, Class, Allowed;
    if s != [] {
      ShownTame(s[0], form);
      EncodedTame(s[1..], form);
    }
  }

  lemma {:induction false} FindAt(a: bytes, rest: bytes, stops: set<byte>)
    requires (forall i :: 0 <= i < |a| ==> a[i] !in stops) && (rest == [] || rest[0] in stops)
    ensures FindFirst(a + rest, stops) == |a|
    decreases |a|
  {
    if a == [] {
      assert a + rest == rest;
    } else {
      assert (a + rest)[1..] == a[1..] + rest;
      FindAt(a[1..], rest, stops);
    }
  }

  lemma {:induction false} PartReads(s: bytes, form: Form)
    requires !form.Plain?
    ensures Part(Encoded(s, form, QUERY_MASK)) == Some(s)
  {
    hide Encoded, Decoded, Class, Allowed;
    EncodedTame(s, form);
    DecodeInverts(s, form, QUERY_MASK);
  }

  lemma {:induction false} KeyReads(key: bytes, more: bytes)
    requires more == [] || more[0] == AND
    ensures Entries(Encoded(key, Key, QUERY_MASK) + more)
         == if more == [] then Some([Entry(key, [])]) else Cons(Entry(key, []), Entries(more[1..]))
  {
    hide Encoded, Part, Class, Allowed;
    var k := Encoded(key, Key, QUERY_MASK);
    EncodedTame(key, Key);
    PartReads(key, Key);
    FindAt(k, more, KEY_STOPS);
    assert (k + more)[..|k|] == k && (k + more)[|k|..] == more;
  }

  lemma {:induction false} PairReads(key: bytes, val: bytes, more: bytes)
    requires more == [] || more[0] == AND
    ensures Entries(Encoded(key, Key, QUERY_MASK) + ([EQUALS] + (Encoded(val, Val, QUERY_MASK) + more)))
         == if more == [] then Some([Entry(key, val)]) else Cons(Entry(key, val), Entries(more[1..]))
  {
    hide Encoded, Part, Class, Allowed, Cons;
    var k, v := Encoded(key, Key, QUERY_MASK), Encoded(val, Val, QUERY_MASK);
    EncodedTame(key, Key);
    PartReads(key, Key);
    EncodedTame(val, Val);
    PartReads(val, Val);
    var t := v + more;
    FindAt(k, [EQUALS] + t, KEY_STOPS);
    FindAt(v, more, VAL_STOPS);
    assert (k + ([EQUALS] + t))[..|k|] == k && (k + ([EQUALS] + t))[|k| + 1..] == t;
    assert t[..|v|] == v && t[|v|..] == more;
  }

  // The loop takes one printed entry and goes on behind the separator.
  lemma {:induction false} EntryReads(e: Entry, more: bytes)
    requires more == [] || more[0] == AND
    ensures Entries(EntryText(e) + more) == if more == [] then Some([e]) else Cons(e, Entries(more[1..]))
  {
    hide Entries, Encoded;
    if e.val == [] {
      KeyReads(e.key, more);
      assert e == Entry(e.key, []) && EntryText(e) == Encoded(e.key, Key, QUERY_MASK);
    } else {
      PairReads(e.key, e.val, more);
      var k, v := Encoded(e.key, Key, QUERY_MASK), Encoded(e.val, Val, QUERY_MASK);
      assert EntryText(e) + more == k + ([EQUALS] + (v + more));
    }
  }

  lemma {:induction false} EntriesReadBack(q: seq<Entry>)
    requires q != []
    ensures Entries(EntryText(q[0]) + MoreText(q[1..])) == Some(q)
    decreases |q|
  {
    hide Entries, EntryText;
    EntryReads(q[0], MoreText(q[1..]));
    assert [q[0]] + q[1..] == q;
    if |q| > 1 {
      var r := q[1..];
      assert MoreText(r)[1..] == EntryText(r[0]) + MoreText(r[1..]);
      EntriesReadBack(r);
    } else {
      assert q == [q[0]] && MoreText(q[1..]) == [];
    }
  }

  // The text of a query is re-read as the same query; only queries with an empty key have no text.
  lemma {:induction false} QueryReadsBack(q: seq<Entry>)
    requires q != []
    ensures QueryText(q).Some? <==> AllKeyed(q)
    ensures QueryText(q).Some? ==> ParsedQuery(QueryText(q).value) == Some(q)
  {
    hide Entries;
    EntriesReadBack(q);
    if AllKeyed(q) { EncodedNonEmpty(q[0].key); }
  }

  lemma {:induction false} EncodedNonEmpty(key: bytes)
    requires key != []
    ensures Encoded(key, Key, QUERY_MASK) != []
  {
  }

  // Inside a URL, the text ends where the fragment begins: no printed query holds a hash sign.
  lemma {:induction false} NoHash(q: seq<Entry>, i: nat)
    requires q != [] && i < |EntryText(q[0]) + MoreText(q[1..])|
    ensures (EntryText(q[0]) + MoreText(q[1..]))[i] != HASH
    decreases |q|
  {
    hide Encoded, Class, Allowed;
    var e := q[0];
    EncodedTame(e.key, Key);
    EncodedTame(e.val, Val);
    if i > |EntryText(e)| {
      var r := q[1..];
      assert MoreText(r) == [AND] + (EntryText(r[0]) + MoreText(r[1..]));
      NoHash(r, i - |EntryText(e)| - 1);
    }
  }

  // Printing what was parsed and parsing that again changes nothing more.
  lemma {:induction false} Stable(s: bytes)
    requires s != []
    ensures var q := ParsedQuery(s);
      q.Some? && AllKeyed(q.value) ==> q.value != [] && ParsedQuery(QueryText(q.value).value) == q
  {
    hide EntryText, MoreText;
    var q := ParsedQuery(s);
    if q.Some? && AllKeyed(q.value) {
      EntriesSome(s);
      QueryReadsBack(q.value);
    }
  }

  lemma {:induction false} EntriesSome(s: bytes)
    ensures Entries(s).Some? ==> Entries(s).value != []
  {
    hide Part, FindFirst;
  }
}
