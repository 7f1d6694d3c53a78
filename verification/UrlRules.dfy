/** Which characters a query is made of, and which texts are queries. */
module UrlRules {
  import opened Bytes
  import opened Options
  import opened UrlQuery

  // ---------------------------------------------------------------------------
  // Characters

  // Section 2.3 of RFC 3986: letters, digits, - . _ ~
  predicate Unreserved(c: byte) {
    0x41 <= c <= 0x5A || 0x61 <= c <= 0x7A || 0x30 <= c <= 0x39 || c in {0x2D, 0x2E, 0x5F, 0x7E}
  }

  // Section 2.2: ! $ & ' ( ) * + , ; =
  predicate SubDelim(c: byte) { c in {0x21, 0x24, 0x26, 0x27, 0x28, 0x29, 0x2A, 0x2B, 0x2C, 0x3B, 0x3D} }

  // Section 3.4: what a query holds, apart from percent-encoded bytes; the colon, the at sign, the slash and the
  // question mark need no encoding there.
  predicate QueryChar(c: byte) { Unreserved(c) || SubDelim(c) || c in {0x3A, 0x40, 0x2F, 0x3F} }

  // The bits of a mask let through: unreserved characters and sub-delimiters, @, :, /, ? and %.
  lemma {:induction false} AllowedIff(c: byte, mask: byte)
    ensures Allowed(c, mask) <==>
      || (mask % 2 == 1 && (Unreserved(c) || SubDelim(c))) || (mask as nat / 2 % 2 == 1 && c == 0x40)
      || (mask as nat / 4 % 2 == 1 && c == 0x3A) || (mask as nat / 8 % 2 == 1 && c == 0x2F)
      || (mask as nat / 16 % 2 == 1 && c == 0x3F) || (mask as nat / 32 % 2 == 1 && c == 0x25)
  {
    ClassOne(c);
    hide Letter, Digit, Unreserved, SubDelim;
  }

  lemma {:induction false} ClassOne(c: byte)
    ensures Class(c) == 1 <==> Unreserved(c) || SubDelim(c)
    ensures Class(c) == 2 <==> c == 0x40
    ensures Class(c) == 4 <==> c == 0x3A
    ensures Class(c) == 8 <==> c == 0x2F
    ensures Class(c) == 0x10 <==> c == 0x3F
  {
  }

  // Printing a query leaves exactly its characters as they are, and parsing accepts the percent sign besides.
  lemma {:induction false} QueryMasks(c: byte)
    ensures Allowed(c, QUERY_MASK) <==> QueryChar(c)
    ensures Allowed(c, TEXT_MASK) <==> QueryChar(c) || c == 0x25
  {
    hide Unreserved, SubDelim, Allowed;
    AllowedIff(c, QUERY_MASK);
    AllowedIff(c, TEXT_MASK);
  }

  // Hexadecimal digits of both cases have their values, and nothing else does.
  lemma {:induction false} HexMeaning(c: byte)
    ensures HexValue(c) >= 0 <==> 0x30 <= c <= 0x39 || 0x41 <= c <= 0x46 || 0x61 <= c <= 0x66
    ensures 0x61 <= c <= 0x66 ==> HexValue(c) == HexValue(c - 0x20)
    ensures HexValue(c) >= 0 && c < 0x61 ==> c == HexDigit(HexValue(c))
  {
  }

  // A percent sign and the two digits of a byte, upper-case.
  predicate Upper(s: bytes, c: byte) {
    && |s| == 3 && s[0] == 0x25 && HexValue(s[1]) >= 0 && HexValue(s[2]) >= 0 && s[1] < 0x61 && s[2] < 0x61
    && HexValue(s[1]) * 16 + HexValue(s[2]) == c as int
  }

  // What is printed for one byte of a key or a value: a space as a plus sign; a character of queries as itself, unless
  // it separates entries, would be read as a space or, in a key, ends it; any other in two upper-case digits.
  lemma {:induction false} ShownExactly(c: byte, form: Form)
    requires !form.Plain?
    ensures var special := c in {0x2B, 0x26, 0x3B} || (form.Key? && c == 0x3D);
      var s := Shown(c, form, QUERY_MASK);
      if c == 0x20 then s == [0x2B]
      else if QueryChar(c) && !special then s == [c]
      else Upper(s, c)
  {
    hide QueryChar, Allowed;
    QueryMasks(c);
    HexRoundTrip(c as nat / 16);
    HexRoundTrip(c as nat % 16);
  }

  // Elsewhere, what the mask lets through is printed as itself and everything else in two digits.
  lemma {:induction false} PlainShown(c: byte, mask: byte)
    ensures var s := Shown(c, Plain, mask);
      if Allowed(c, mask) then s == [c] else Upper(s, c)
  {
    hide Allowed;
    HexRoundTrip(c as nat / 16);
    HexRoundTrip(c as nat % 16);
  }

  // ---------------------------------------------------------------------------
  // Which texts are queries

  predicate Escaped(s: bytes, i: nat) { i + 2 < |s| && HexValue(s[i + 1]) >= 0 && HexValue(s[i + 2]) >= 0 }

  // Behind every percent sign there are two hexadecimal digits.
  predicate WellEscaped(s: bytes) { forall i :: 0 <= i < |s| && s[i] == PERCENT ==> Escaped(s, i) }

  lemma {:induction false} EscapedNext(s: bytes, n: nat)
    requires n <= |s| && forall i :: 0 < i < n ==> s[i] != PERCENT
    ensures n > 0 ==> (WellEscaped(s) <==> (s[0] == PERCENT ==> Escaped(s, 0)) && WellEscaped(s[n..]))
  {
    hide HexValue;
    if n > 0 {
      var t := s[n..];
      assert forall i :: 0 <= i < |t| ==> (Escaped(t, i) <==> Escaped(s, i + n)) && t[i] == s[i + n];
      if WellEscaped(s) {
        forall i | 0 <= i < |t| && t[i] == PERCENT ensures Escaped(t, i) { assert Escaped(s, i + n); }
      }
      if WellEscaped(t) && (s[0] == PERCENT ==> Escaped(s, 0)) {
        forall i | 0 <= i < |s| && s[i] == PERCENT ensures Escaped(s, i) {
          if i >= n { assert t[i - n] == PERCENT && Escaped(t, i - n); }
        }
      }
    }
  }

  lemma {:induction false} DecodedIff(s: bytes, plus: bool)
    ensures Decoded(s, plus).Some? <==> WellEscaped(s)
    decreases |s|
  {
    hide WellEscaped;
    if s == [] {
      NothingEscaped();
    } else if s[0] == PERCENT {
      if Escaped(s, 0) {
        EscapedNext(s, 3);
        DecodedIff(s[3..], plus);
      } else {
        EscapedNext(s, 1);
      }
    } else {
      EscapedNext(s, 1);
      DecodedIff(s[1..], plus);
    }
  }

  lemma {:induction false} NothingEscaped()
    ensures WellEscaped([])
  {
  }

  // A character that is neither a percent sign nor a digit parts a text.
  lemma {:induction false} EscapedParts(a: bytes, c: byte, t: bytes)
    requires c != PERCENT && HexValue(c) < 0
    ensures WellEscaped(a + ([c] + t)) <==> WellEscaped(a) && WellEscaped(t)
    ensures AllAllowed(a + ([c] + t), TEXT_MASK) <==>
      AllAllowed(a, TEXT_MASK) && Allowed(c, TEXT_MASK) && AllAllowed(t, TEXT_MASK)
  {
    hide HexValue, Allowed;
    EscapedSplit(a, c, t);
    AllowedSplit(a, [c] + t);
    AllowedSplit([c], t);
    assert AllAllowed([c], TEXT_MASK) <==> Allowed([c][0], TEXT_MASK);
  }

  lemma {:induction false} AllowedSplit(a: bytes, b: bytes)
    ensures AllAllowed(a + b, TEXT_MASK) <==> AllAllowed(a, TEXT_MASK) && AllAllowed(b, TEXT_MASK)
  {
    hide Allowed;
    var s := a + b;
    if AllAllowed(s, TEXT_MASK) {
      forall i | 0 <= i < |a| ensures Allowed(a[i], TEXT_MASK) { assert a[i] == s[i]; }
      forall i | 0 <= i < |b| ensures Allowed(b[i], TEXT_MASK) { assert b[i] == s[|a| + i]; }
    }
  }

  lemma {:induction false} EscapedSplit(a: bytes, c: byte, t: bytes)
    requires c != PERCENT && HexValue(c) < 0
    ensures WellEscaped(a + ([c] + t)) <==> WellEscaped(a) && WellEscaped(t)
  {
    hide HexValue;
    var s := a + ([c] + t);
    var n := |a| + 1;
    assert forall i :: 0 <= i < |a| ==> s[i] == a[i];
    assert forall i :: 0 <= i < |t| ==> s[n + i] == t[i];
    assert s[|a|] == c;
    if WellEscaped(s) {
      forall i | 0 <= i < |a| && a[i] == PERCENT ensures Escaped(a, i) { assert s[i] == PERCENT && Escaped(s, i); }
      forall i | 0 <= i < |t| && t[i] == PERCENT ensures Escaped(t, i) { assert s[n + i] == PERCENT && Escaped(s, n + i); }
    }
    if WellEscaped(a) && WellEscaped(t) {
      forall i | 0 <= i < |s| && s[i] == PERCENT ensures Escaped(s, i) {
        if i < |a| { assert Escaped(a, i); } else { assert t[i - n] == PERCENT && Escaped(t, i - n); }
      }
    }
  }

  predicate Readable(s: bytes) { AllAllowed(s, TEXT_MASK) && WellEscaped(s) }

  lemma {:induction false} PartIff(s: bytes)
    ensures Part(s).Some? <==> Readable(s)
  {
    hide WellEscaped, AllAllowed;
    DecodedIff(s, true);
  }

  lemma {:induction false} StopsPart(a: bytes, c: byte, t: bytes)
    requires c in {EQUALS, SEMICOLON, AND}
    ensures Readable(a + ([c] + t)) <==> Readable(a) && Readable(t)
  {
    HexMeaning(c);
    QueryMasks(c);
    EscapedParts(a, c, t);
    hide HexValue, AllAllowed, WellEscaped;
  }

  lemma {:induction false} PartsOf(s: bytes, i: nat)
    requires i < |s|
    ensures s == s[..i] + ([s[i]] + s[i + 1..])
  {
  }

  lemma {:induction false} KeyAlone(s: bytes)
    ensures var i := FindFirst(s, KEY_STOPS);
      && (i == |s| ==> (Entries(s).Some? <==> Part(s).Some?))
      && (i < |s| && s[i] != EQUALS ==> (Entries(s).Some? <==> Part(s[..i]).Some? && Entries(s[i + 1..]).Some?))
  {
    hide Part, FindFirst;
    assert s[..|s|] == s;
  }

  lemma {:induction false} KeyAndValue(s: bytes)
    ensures var i := FindFirst(s, KEY_STOPS);
      i < |s| && s[i] == EQUALS ==>
        var t := s[i + 1..];
        var j := FindFirst(t, VAL_STOPS);
        && (j == |t| ==> (Entries(s).Some? <==> Part(s[..i]).Some? && Part(t).Some?))
        && (j < |t| ==>
              (Entries(s).Some? <==> Part(s[..i]).Some? && Part(t[..j]).Some? && Entries(t[j + 1..]).Some?))
  {
    hide Part, FindFirst;
    var i := FindFirst(s, KEY_STOPS);
    if i < |s| { assert s[i + 1..][..|s| - i - 1] == s[i + 1..]; }
  }

  // A text is a query exactly when it holds nothing but characters of queries and complete percent-encoded bytes.
  lemma {:induction false} QueryIff(s: bytes)
    ensures Entries(s).Some? <==> Readable(s)
    decreases |s|, 1
  {
    hide Part, Readable, Entries, FindFirst;
    var i := FindFirst(s, KEY_STOPS);
    PartIff(s[..i]);
    PartIff(s);
    KeyAlone(s);
    if i < |s| {
      var t := s[i + 1..];
      PartsOf(s, i);
      StopsPart(s[..i], s[i], t);
      if s[i] == EQUALS {
        ValueIff(s, i);
      } else {
        QueryIff(t);
      }
    }
  }

  lemma {:induction false} ValueIff(s: bytes, i: nat)
    requires i < |s| && i == FindFirst(s, KEY_STOPS) && s[i] == EQUALS
    ensures Entries(s).Some? <==> Readable(s[..i]) && Readable(s[i + 1..])
    decreases |s|, 0
  {
    hide Part, Readable, Entries, FindFirst;
    var t := s[i + 1..];
    var j := FindFirst(t, VAL_STOPS);
    KeyAndValue(s);
    PartIff(s[..i]);
    PartIff(t);
    if j < |t| {
      PartIff(t[..j]);
      PartsOf(t, j);
      StopsPart(t[..j], t[j], t[j + 1..]);
      QueryIff(t[j + 1..]);
    }
  }

  // ---------------------------------------------------------------------------
  // Semicolons

  function Ands(s: bytes): (t: bytes)
    ensures |t| == |s|
  {
    seq(|s|, i requires 0 <= i < |s| => if s[i] == SEMICOLON then AND else s[i])
  }

  lemma {:induction false} SameStop(s: bytes, stops: set<byte>)
    requires SEMICOLON in stops && AND in stops
    ensures FindFirst(Ands(s), stops) == FindFirst(s, stops)
    ensures Ands(s)[..FindFirst(s, stops)] == s[..FindFirst(s, stops)]
    decreases |s|
  {
    if s != [] && s[0] !in stops {
      SameStop(s[1..], stops);
      assert Ands(s)[1..] == Ands(s[1..]);
    }
  }

  lemma {:induction false} AndsFrom(s: bytes, i: nat)
    requires i < |s|
    ensures |Ands(s)| == |s| && Ands(s)[i + 1..] == Ands(s[i + 1..]) && (Ands(s)[i] == EQUALS <==> s[i] == EQUALS)
  {
  }

  // A semicolon separates entries like an ampersand.
  lemma {:induction false} SemicolonSeparates(s: bytes)
    ensures Entries(Ands(s)) == Entries(s)
    decreases |s|
  {
    hide Part, FindFirst, Ands;
    var i := FindFirst(s, KEY_STOPS);
    SameStop(s, KEY_STOPS);
    if i < |s| {
      var t := s[i + 1..];
      AndsFrom(s, i);
      if s[i] == EQUALS {
        var j := FindFirst(t, VAL_STOPS);
        SameStop(t, VAL_STOPS);
        if j < |t| {
          AndsFrom(t, j);
          SemicolonSeparates(t[j + 1..]);
        }
      } else {
        SemicolonSeparates(t);
      }
    }
  }

  // ---------------------------------------------------------------------------
  // The printed text

  function Count(s: bytes, c: byte): nat { if s == [] then 0 else (if s[0] == c then 1 else 0) + Count(s[1..], c) }

  lemma {:induction false} CountConcat(a: bytes, b: bytes, c: byte)
    ensures Count(a + b, c) == Count(a, c) + Count(b, c)
    decreases |a|
  {
    if a == [] {
      assert a + b == b;
    } else {
      assert (a + b)[1..] == a[1..] + b;
      CountConcat(a[1..], b, c);
    }
  }

  lemma {:induction false} CountNone(s: bytes, c: byte)
    requires forall i :: 0 <= i < |s| ==> s[i] != c
    ensures Count(s, c) == 0
    decreases |s|
  {
    if s != [] { CountNone(s[1..], c); }
  }

  lemma {:induction false} CountOne(c: byte)
    ensures Count([EQUALS], c) == (if c == EQUALS then 1 else 0) && Count([AND], c) == if c == AND then 1 else 0
  {
    assert [EQUALS][1..] == [] && [AND][1..] == [];
  }

  // An entry holds neither separator; a key alone has no equals sign, and with a value one stands in front of that.
  lemma {:induction false} EntryShape(e: Entry)
    ensures Count(EntryText(e), AND) == 0 && Count(EntryText(e), SEMICOLON) == 0
    ensures e.val == [] ==> Count(EntryText(e), EQUALS) == 0
    ensures e.val != [] ==>
      var k := |Encoded(e.key, Key, QUERY_MASK)|;
      k < |EntryText(e)| && EntryText(e)[k] == EQUALS && Count(EntryText(e)[..k], EQUALS) == 0
  {
    hide Encoded, Allowed, Count;
    var a, b := Encoded(e.key, Key, QUERY_MASK), Encoded(e.val, Val, QUERY_MASK);
    EncodedTame(e.key, Key);
    EncodedTame(e.val, Val);
    Untouched(a, b);
    CountNone(a, EQUALS);
    if e.val == [] {
      assert EntryText(e) == a + [] == a;
    } else {
      assert EntryText(e)[..|a|] == a;
      CountConcat(a, [EQUALS] + b, AND);
      CountConcat(a, [EQUALS] + b, SEMICOLON);
      CountConcat([EQUALS], b, AND);
      CountConcat([EQUALS], b, SEMICOLON);
      CountOne(AND);
      CountOne(SEMICOLON);
    }
  }

  lemma {:induction false} Untouched(a: bytes, b: bytes)
    requires Tame(a, Key) && Tame(b, Val)
    ensures Count(a, AND) == 0 && Count(a, SEMICOLON) == 0 && Count(b, AND) == 0 && Count(b, SEMICOLON) == 0
  {
    hide Allowed, Count;
    CountNone(a, AND);
    CountNone(a, SEMICOLON);
    CountNone(b, AND);
    CountNone(b, SEMICOLON);
  }

  lemma {:induction false} MoreShape(q: seq<Entry>)
    ensures Count(MoreText(q), AND) == |q| && Count(MoreText(q), SEMICOLON) == 0
    decreases |q|
  {
    hide EntryText, Count;
    if q == [] {
      CountNone([], AND);
      CountNone([], SEMICOLON);
    } else {
      MoreShape(q[1..]);
      EntryShape(q[0]);
      var e, rest := EntryText(q[0]), MoreText(q[1..]);
      assert MoreText(q) == [AND] + e + rest;
      CountConcat([AND] + e, rest, AND);
      CountConcat([AND] + e, rest, SEMICOLON);
      CountConcat([AND], e, AND);
      CountConcat([AND], e, SEMICOLON);
      CountOne(AND);
      CountOne(SEMICOLON);
    }
  }

  // A printed query has one ampersand between any two entries, and no semicolon.
  lemma {:induction false} TextShape(q: seq<Entry>)
    requires q != [] && AllKeyed(q)
    ensures var s := QueryText(q).value; Count(s, AND) == |q| - 1 && Count(s, SEMICOLON) == 0
  {
    hide EntryText, MoreText, Count;
    EntryShape(q[0]);
    MoreShape(q[1..]);
    CountConcat(EntryText(q[0]), MoreText(q[1..]), AND);
    CountConcat(EntryText(q[0]), MoreText(q[1..]), SEMICOLON);
  }
}
