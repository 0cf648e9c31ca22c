/**
 The strings the Go writer prints. The encoder of `encoding/json`, without HTML escaping, prints a
 string as `JSON.stringify` does, except that it escapes U+2028 and U+2029.
 */
module GoStrings {
  import opened Texts
  import opened Json
  import opened Canonical
  import opened GoCanonical
  import opened GoAgreement

  predicate IsSeparator(u: Unit) { u == 0x2028 || u == 0x2029 }

  function GoEscape(u: Unit): (t: Text)
    ensures t != []
  {
    if IsSeparator(u) then UnicodeEscape(u) else Escape(u)
  }

  /** The two separators are written as escapes, and every other code unit as the core writes it. */
  lemma SeparatorsEscaped(u: Unit)
    ensures GoEscape(0x2028) == Ascii("\\u2028") && GoEscape(0x2029) == Ascii("\\u2029")
    ensures Escape(0x2028) == [0x2028] && Escape(0x2029) == [0x2029]
    ensures u != 0x2028 && u != 0x2029 ==> GoEscape(u) == Escape(u)
  {
    assert GoEscape(0x2028) == Ascii("\\u2028") && GoEscape(0x2029) == Ascii("\\u2029");
  }

  function GoQuoteRest(s: Text): Text {
    if s == [] then [QUOTE]
    else if StartsWithPair(s) then s[..2] + GoQuoteRest(s[2..])
    else GoEscape(s[0]) + GoQuoteRest(s[1..])
  }

  function GoQuote(s: GoString): Text {
    [QUOTE] + GoQuoteRest(CodeUnits(s))
  }

  predicate Separates(t: Text) {
    exists u :: u in t && IsSeparator(u)
  }

  /** Some string or key of the value has a line or paragraph separator. */
  predicate HasSeparator(v: GoValue) {
    match v
    case GoText(s) => Separates(CodeUnits(s))
    case GoSlice(items) => exists x :: x in items && HasSeparator(x)
    case GoMap(entries) => exists e :: e in entries && (Separates(CodeUnits(e.key)) || HasSeparator(e.value))
    case _ => false
  }

  // ----- Without separators both sides print alike -----

  lemma {:induction false} QuotedAlike(s: Text)
    requires !Separates(s)
    ensures GoQuoteRest(s) == QuoteRest(s)
  {
    if s != [] {
      assert s[0] in s && forall u :: u in s[1..] ==> u in s;
      if StartsWithPair(s) {
        assert forall u :: u in s[2..] ==> u in s;
        QuotedAlike(s[2..]);
      } else {
        QuotedAlike(s[1..]);
      }
    }
  }

  lemma {:induction false} PrintersShared(v: GoValue)
    requires !HasSeparator(v)
    ensures SharedPrinter(GoQuote, v)
    decreases v
  {
    match v
    case GoText(s) => QuotedAlike(CodeUnits(s));
    case GoSlice(items) =>
      forall x | x in items ensures SharedPrinter(GoQuote, x) { PrintersShared(x); }
    case GoMap(entries) =>
      forall e | e in entries ensures PrintedAlike(GoQuote, e.key) && SharedPrinter(GoQuote, e.value) {
        QuotedAlike(CodeUnits(e.key));
        PrintersShared(e.value);
      }
    case _ =>
  }

  // ----- Reading the escaped separators back -----

  /** The text begins with the escape of U+2028 or of U+2029. */
  predicate EscapesSeparator(t: Text) {
    |t| >= 6 && t[0] == BACKSLASH && t[1] == 117 && t[2] == 50 && t[3] == 48 && t[4] == 50 && (t[5] == 56 || t[5] == 57)
  }

  /** The text with its escaped separators replaced by separators, all other escapes as they are. */
  function Plain(t: Text): Text {
    if t == [] then []
    else if EscapesSeparator(t) then [if t[5] == 56 then 0x2028 else 0x2029] + Plain(t[6..])
    else if |t| >= 2 && t[0] == BACKSLASH then t[..2] + Plain(t[2..])
    else [t[0]] + Plain(t[1..])
  }

  /** Before `r`, `t` reads as `u`. */
  predicate ReadsBefore(t: Text, u: Text, r: Text) {
    Plain(t + r) == u + Plain(r)
  }

  /** Whatever follows it, `t` reads as `u`. */
  ghost predicate Reads(t: Text, u: Text) {
    forall r: Text :: ReadsBefore(t, u, r)
  }

  lemma ReadsAll(t: Text, u: Text)
    requires Reads(t, u)
    ensures Plain(t) == u
  {
    assert ReadsBefore(t, u, []);
    assert t + [] == t && u + [] == u;
  }

  lemma Associates(a: Text, b: Text, r: Text)
    ensures (a + b) + r == a + (b + r)
  {
  }

  lemma ReadsConcat(a: Text, x: Text, b: Text, y: Text)
    requires Reads(a, x) && Reads(b, y)
    ensures Reads(a + b, x + y)
  {
    forall r: Text ensures ReadsBefore(a + b, x + y, r) {
      assert ReadsBefore(a, x, b + r) && ReadsBefore(b, y, r);
      Associates(a, b, r);
      Associates(x, y, Plain(r));
    }
  }

  lemma ReadsUnit(c: Unit)
    requires c != BACKSLASH
    ensures Reads([c], [c])
  {
    forall r: Text ensures ReadsBefore([c], [c], r) {
      var t := [c] + r;
      assert t[0] == c && t[1..] == r;
    }
  }

  lemma {:induction false} ReadsItself(t: Text)
    requires BACKSLASH !in t
    ensures Reads(t, t)
  {
    if t == [] {
      forall r: Text ensures ReadsBefore([], [], r) {
        assert [] + r == r && [] + Plain(r) == Plain(r);
      }
    } else {
      assert t[0] in t && forall u :: u in t[1..] ==> u in t;
      ReadsUnit(t[0]);
      ReadsItself(t[1..]);
      ReadsConcat([t[0]], [t[0]], t[1..], t[1..]);
      assert [t[0]] + t[1..] == t;
    }
  }

  lemma ReadsSeparator(u: Unit)
    requires IsSeparator(u)
    ensures Reads(UnicodeEscape(u), [u])
  {
    forall r: Text ensures ReadsBefore(UnicodeEscape(u), [u], r) {
      var t := UnicodeEscape(u) + r;
      assert t[..6] == UnicodeEscape(u) && t[6..] == r;
      assert t[5] == UnicodeEscape(u)[5];
    }
  }

  /** An escape that is copied: a backslash, a unit, and what follows. */
  lemma ReadsEscaped(c: Unit, rest: Text)
    requires BACKSLASH !in rest && (c == 117 ==> |rest| == 4 && rest[0] != 50)
    ensures Reads([BACKSLASH, c] + rest, [BACKSLASH, c] + rest)
  {
    ReadsItself(rest);
    forall r: Text ensures ReadsBefore([BACKSLASH, c] + rest, [BACKSLASH, c] + rest, r) {
      var t := [BACKSLASH, c] + (rest + r);
      Associates([BACKSLASH, c], rest, r);
      Associates([BACKSLASH, c], rest, Plain(r));
      assert t[..2] == [BACKSLASH, c] && t[2..] == rest + r;
      assert ReadsBefore(rest, rest, r);
    }
  }

  lemma ReadsEscape(u: Unit)
    ensures Reads(Escape(u), Escape(u))
  {
    var t := Escape(u);
    if |t| == 1 {
      ReadsUnit(u);
    } else {
      assert t == [BACKSLASH, t[1]] + t[2..];
      ReadsEscaped(t[1], t[2..]);
    }
  }

  lemma {:induction false} ReadsQuoteRest(s: Text)
    ensures Reads(GoQuoteRest(s), QuoteRest(s)) && Reads(QuoteRest(s), QuoteRest(s))
  {
    if s == [] {
      ReadsUnit(QUOTE);
    } else if StartsWithPair(s) {
      ReadsItself(s[..2]);
      ReadsQuoteRest(s[2..]);
      ReadsConcat(s[..2], s[..2], GoQuoteRest(s[2..]), QuoteRest(s[2..]));
      ReadsConcat(s[..2], s[..2], QuoteRest(s[2..]), QuoteRest(s[2..]));
    } else {
      var u, go, core := s[0], GoQuoteRest(s[1..]), QuoteRest(s[1..]);
      ReadsQuoteRest(s[1..]);
      ReadsEscape(u);
      ReadsConcat(Escape(u), Escape(u), core, core);
      if IsSeparator(u) { ReadsSeparator(u); }
      ReadsConcat(GoEscape(u), Escape(u), go, core);
    }
  }

  lemma ReadsQuote(s: Text)
    ensures Reads([QUOTE] + GoQuoteRest(s), Quote(s)) && Reads(Quote(s), Quote(s))
  {
    ReadsUnit(QUOTE);
    ReadsQuoteRest(s);
    ReadsConcat([QUOTE], [QUOTE], GoQuoteRest(s), QuoteRest(s));
    ReadsConcat([QUOTE], [QUOTE], QuoteRest(s), QuoteRest(s));
  }

  // ----- What the core prints reads as itself -----

  lemma {:induction false} PrintReads(v: Value)
    ensures Reads(Print(v), Print(v))
    decreases v
  {
    match v
    case Leaf(Str(s)) => ReadsQuote(s);
    case Leaf(_) => ReadsItself(Print(v));
    case Arr(items) =>
      ReadsUnit(OPEN_BRACKET);
      if items == [] {
        ReadsItself(Print(v));
      } else {
        PrintReads(items[0]);
        ItemsRead(items[1..]);
        ReadsTwice(Print(items[0]), PrintItems(items[1..]));
        ReadsTwice([OPEN_BRACKET], Print(items[0]) + PrintItems(items[1..]));
      }
    case Obj(members) =>
      ReadsUnit(OPEN_BRACE);
      if members == [] {
        ReadsItself(Print(v));
      } else {
        MemberReads(members[0]);
        MembersRead(members[1..]);
        ReadsTwice(PrintMember(members[0]), PrintMembers(members[1..]));
        ReadsTwice([OPEN_BRACE], PrintMember(members[0]) + PrintMembers(members[1..]));
      }
  }

  lemma ReadsTwice(a: Text, b: Text)
    requires Reads(a, a) && Reads(b, b)
    ensures Reads(a + b, a + b)
  {
    ReadsConcat(a, a, b, b);
  }

  lemma {:induction false} ItemsRead(items: seq<Value>)
    ensures Reads(PrintItems(items), PrintItems(items))
    decreases items
  {
    if items == [] {
      ReadsUnit(CLOSE_BRACKET);
    } else {
      ReadsUnit(COMMA);
      PrintReads(items[0]);
      ItemsRead(items[1..]);
      ReadsTwice([COMMA], Print(items[0]));
      ReadsTwice([COMMA] + Print(items[0]), PrintItems(items[1..]));
    }
  }

  lemma {:induction false} MemberReads(m: Member)
    ensures Reads(PrintMember(m), PrintMember(m))
    decreases m, 1
  {
    ReadsQuote(m.key);
    ReadsUnit(COLON);
    PrintReads(m.value);
    ReadsTwice(Quote(m.key), [COLON]);
    ReadsTwice(Quote(m.key) + [COLON], Print(m.value));
  }

  lemma {:induction false} MembersRead(ms: seq<Member>)
    ensures Reads(PrintMembers(ms), PrintMembers(ms))
    decreases ms
  {
    if ms == [] {
      ReadsUnit(CLOSE_BRACE);
    } else {
      ReadsUnit(COMMA);
      MemberReads(ms[0]);
      MembersRead(ms[1..]);
      ReadsTwice([COMMA], PrintMember(ms[0]));
      ReadsTwice([COMMA] + PrintMember(ms[0]), PrintMembers(ms[1..]));
    }
  }

  // ----- What Go writes reads as the sorted value printed -----

  predicate KeyAlike(p: Pair, m: Member) {
    CodeUnits(p.key) == m.key
  }

  ghost predicate PairReads(p: Pair, m: Member) {
    KeyAlike(p, m) && Reads(p.text, Print(m.value))
  }

  ghost predicate AllRead(ps: seq<Pair>, ms: seq<Member>) {
    |ps| == |ms| && forall i | 0 <= i < |ps| :: PairReads(ps[i], ms[i])
  }

  lemma {:induction false} InsertReads(p: Pair, ps: seq<Pair>, m: Member, ms: seq<Member>)
    requires PairReads(p, m) && AllRead(ps, ms)
    ensures AllRead(InsertPair(p, ps), InsertByUnits(m, ms))
  {
    if ps != [] {
      assert PairReads(ps[0], ms[0]);
      if KeyLess(ps[0].key, p.key) {
        InsertReads(p, ps[1..], m, ms[1..]);
      }
    }
  }

  lemma {:induction false} JoinReads(ts: seq<Text>, us: seq<Text>, n: nat)
    requires |ts| == |us| && n <= |ts| && forall i | 0 <= i < |ts| :: Reads(ts[i], us[i])
    ensures Reads(JoinFirst(ts, n), JoinFirst(us, n))
    decreases n
  {
    if n == 0 {
      ReadsItself([]);
    } else {
      JoinReads(ts, us, n - 1);
      ReadsItself(Comma(n - 1));
      ReadsConcat(Comma(n - 1), Comma(n - 1), ts[n - 1], us[n - 1]);
      ReadsConcat(JoinFirst(ts, n - 1), JoinFirst(us, n - 1), Comma(n - 1) + ts[n - 1], Comma(n - 1) + us[n - 1]);
    }
  }

  lemma BracketedReads(open: Unit, t: Text, u: Text, close: Unit)
    requires open != BACKSLASH && close != BACKSLASH && Reads(t, u)
    ensures Reads([open] + t + [close], [open] + u + [close])
  {
    ReadsUnit(open);
    ReadsUnit(close);
    ReadsConcat([open], [open], t, u);
    ReadsConcat([open] + t, [open] + u, [close], [close]);
  }

  lemma {:induction false} WrittenReads(v: GoValue)
    ensures Reads(Written(GoQuote, v), Print(GoSorted(v)))
    decreases v
  {
    match v
    case GoText(s) => ReadsQuote(CodeUnits(s));
    case GoSlice(items) =>
      var ts, vs := WrittenItems(GoQuote, items), GoSortedItems(items);
      var us := seq(|vs|, i requires 0 <= i < |vs| => Print(vs[i]));
      SliceReads(items);
      JoinReads(ts, us, |ts|);
      BracketedReads(OPEN_BRACKET, Join(ts), Join(us), CLOSE_BRACKET);
      ArraysAgree(us, vs);
    case GoMap(entries) =>
      var ps, ms := SortPairs(WrittenEntries(GoQuote, entries)), GoSortedMembers(entries);
      MapReads(entries);
      PairsRead(ps, ms);
    case _ => ReadsItself(Written(GoQuote, v));
  }

  lemma PairsRead(ps: seq<Pair>, ms: seq<Member>)
    requires AllRead(ps, ms)
    ensures Reads([OPEN_BRACE] + Join(PairTexts(GoQuote, ps)) + [CLOSE_BRACE], Print(Obj(ms)))
  {
    var ts := PairTexts(GoQuote, ps);
    var us := seq(|ms|, i requires 0 <= i < |ms| => PrintMember(ms[i]));
    forall i | 0 <= i < |ts| ensures Reads(ts[i], us[i]) {
      assert PairReads(ps[i], ms[i]);
      PairTextReads(ps[i], ms[i]);
    }
    JoinReads(ts, us, |ts|);
    BracketedReads(OPEN_BRACE, Join(ts), Join(us), CLOSE_BRACE);
    MembersAgree(us, ms);
  }

  lemma PairTextReads(p: Pair, m: Member)
    requires PairReads(p, m)
    ensures Reads(PairText(GoQuote, p), PrintMember(m))
  {
    ReadsQuote(m.key);
    ReadsUnit(COLON);
    ReadsConcat(GoQuote(p.key), Quote(m.key), [COLON], [COLON]);
    ReadsConcat(GoQuote(p.key) + [COLON], Quote(m.key) + [COLON], p.text, Print(m.value));
  }

  lemma {:induction false} SliceReads(items: seq<GoValue>)
    ensures forall i | 0 <= i < |items| :: Reads(WrittenItems(GoQuote, items)[i], Print(GoSortedItems(items)[i]))
    decreases items
  {
    if items != [] {
      WrittenReads(items[0]);
      SliceReads(items[1..]);
      forall i | 0 <= i < |items| ensures Reads(WrittenItems(GoQuote, items)[i], Print(GoSortedItems(items)[i])) {
        if i > 0 {
          assert WrittenItems(GoQuote, items)[i] == WrittenItems(GoQuote, items[1..])[i - 1];
          assert GoSortedItems(items)[i] == GoSortedItems(items[1..])[i - 1];
        }
      }
    }
  }

  lemma {:induction false} MapReads(es: seq<Entry>)
    ensures AllRead(SortPairs(WrittenEntries(GoQuote, es)), GoSortedMembers(es))
    decreases es
  {
    if es != [] {
      WrittenReads(es[0].value);
      MapReads(es[1..]);
      assert WrittenEntries(GoQuote, es)[1..] == WrittenEntries(GoQuote, es[1..]);
      InsertReads(WrittenEntries(GoQuote, es)[0], SortPairs(WrittenEntries(GoQuote, es[1..])),
                  MemberOf(es[0], GoSorted(es[0].value)), GoSortedMembers(es[1..]));
    }
  }

  // ----- Where separators show -----

  lemma SeparatesConcat(a: Text, b: Text)
    ensures Separates(a + b) <==> Separates(a) || Separates(b)
  {
    forall u ensures u in a + b <==> u in a || u in b {
    }
  }

  lemma EscapeSeparates(u: Unit)
    ensures !Separates(GoEscape(u)) && (Separates(Escape(u)) <==> IsSeparator(u))
  {
    if IsSeparator(u) { assert u in Escape(u); }
  }

  lemma {:induction false} QuoteRestSeparates(s: Text)
    ensures !Separates(GoQuoteRest(s)) && (Separates(QuoteRest(s)) <==> Separates(s))
  {
    if s != [] {
      if StartsWithPair(s) {
        QuoteRestSeparates(s[2..]);
        SeparatesConcat(s[..2], GoQuoteRest(s[2..]));
        SeparatesConcat(s[..2], QuoteRest(s[2..]));
        SeparatesConcat(s[..2], s[2..]);
        assert s == s[..2] + s[2..];
        assert !Separates(s[..2]);
      } else {
        QuoteRestSeparates(s[1..]);
        EscapeSeparates(s[0]);
        SeparatesConcat(GoEscape(s[0]), GoQuoteRest(s[1..]));
        SeparatesConcat(Escape(s[0]), QuoteRest(s[1..]));
        SeparatesConcat([s[0]], s[1..]);
        assert s == [s[0]] + s[1..] && s[0] in [s[0]];
      }
    }
  }

  /** The core prints a separator as it is, and Go never does. */
  lemma QuoteSeparates(s: Text)
    ensures !Separates([QUOTE] + GoQuoteRest(s)) && (Separates(Quote(s)) <==> Separates(s))
  {
    QuoteRestSeparates(s);
    SeparatesConcat([QUOTE], GoQuoteRest(s));
    SeparatesConcat([QUOTE], QuoteRest(s));
  }

  lemma {:induction false} JoinSeparates(ts: seq<Text>, n: nat)
    requires n <= |ts|
    ensures Separates(JoinFirst(ts, n)) <==> exists i :: 0 <= i < n && Separates(ts[i])
  {
    if n > 0 {
      JoinSeparates(ts, n - 1);
      SeparatesConcat(Comma(n - 1), ts[n - 1]);
      SeparatesConcat(JoinFirst(ts, n - 1), Comma(n - 1) + ts[n - 1]);
    }
  }

  lemma BracketedSeparates(open: Unit, t: Text, close: Unit)
    requires !IsSeparator(open) && !IsSeparator(close)
    ensures Separates([open] + t + [close]) <==> Separates(t)
  {
    SeparatesConcat([open], t);
    SeparatesConcat([open] + t, [close]);
  }

  lemma {:induction false} InsertedPairs(p: Pair, ps: seq<Pair>)
    ensures forall x :: x in InsertPair(p, ps) <==> x == p || x in ps
  {
    if ps != [] {
      assert ps == [ps[0]] + ps[1..];
      if KeyLess(ps[0].key, p.key) { InsertedPairs(p, ps[1..]); }
    }
  }

  lemma {:induction false} SortedPairs(ps: seq<Pair>)
    ensures forall x :: x in SortPairs(ps) <==> x in ps
  {
    if ps != [] {
      SortedPairs(ps[1..]);
      InsertedPairs(ps[0], SortPairs(ps[1..]));
      assert ps == [ps[0]] + ps[1..];
    }
  }

  /** Go writes no separator. */
  lemma {:induction false} WrittenHasNoSeparator(v: GoValue)
    ensures !Separates(Written(GoQuote, v))
    decreases v
  {
    match v
    case GoText(s) => QuoteSeparates(CodeUnits(s));
    case GoSlice(items) =>
      var ts := WrittenItems(GoQuote, items);
      forall i | 0 <= i < |ts| ensures !Separates(ts[i]) { WrittenHasNoSeparator(items[i]); }
      JoinSeparates(ts, |ts|);
      BracketedSeparates(OPEN_BRACKET, Join(ts), CLOSE_BRACKET);
    case GoMap(entries) =>
      var pairs := WrittenEntries(GoQuote, entries);
      forall p | p in pairs ensures !Separates(PairText(GoQuote, p)) {
        var i :| 0 <= i < |pairs| && pairs[i] == p;
        WrittenHasNoSeparator(entries[i].value);
        PairTextSeparates(p);
      }
      SortedPairs(pairs);
      var ts := PairTexts(GoQuote, SortPairs(pairs));
      forall i | 0 <= i < |ts| ensures !Separates(ts[i]) { assert SortPairs(pairs)[i] in pairs; }
      JoinSeparates(ts, |ts|);
      BracketedSeparates(OPEN_BRACE, Join(ts), CLOSE_BRACE);
    case _ =>
  }

  lemma PairTextSeparates(p: Pair)
    requires !Separates(p.text)
    ensures !Separates(PairText(GoQuote, p))
  {
    QuoteSeparates(CodeUnits(p.key));
    SeparatesConcat(GoQuote(p.key), [COLON]);
    SeparatesConcat(GoQuote(p.key) + [COLON], p.text);
  }

  lemma {:induction false} MembersSeparate(ms: seq<Member>, m: Member)
    requires m in ms && (Separates(m.key) || Separates(Print(m.value)))
    ensures Separates(Print(Obj(ms)))
  {
    var ts := seq(|ms|, i requires 0 <= i < |ms| => PrintMember(ms[i]));
    MembersAgree(ts, ms);
    var i :| 0 <= i < |ms| && ms[i] == m;
    QuoteSeparates(m.key);
    SeparatesConcat(Quote(m.key), [COLON]);
    SeparatesConcat(Quote(m.key) + [COLON], Print(m.value));
    assert Separates(ts[i]);
    JoinSeparates(ts, |ts|);
    BracketedSeparates(OPEN_BRACE, Join(ts), CLOSE_BRACE);
  }

  lemma ItemsSeparate(vs: seq<Value>, i: nat)
    requires i < |vs| && Separates(Print(vs[i]))
    ensures Separates(Print(Arr(vs)))
  {
    var ts := seq(|vs|, i requires 0 <= i < |vs| => Print(vs[i]));
    ArraysAgree(ts, vs);
    assert Separates(ts[i]);
    JoinSeparates(ts, |ts|);
    BracketedSeparates(OPEN_BRACKET, Join(ts), CLOSE_BRACKET);
  }

  lemma {:induction false} SortedItem(items: seq<GoValue>, i: nat)
    requires i < |items|
    ensures GoSortedItems(items)[i] == GoSorted(items[i])
  {
    if i > 0 { SortedItem(items[1..], i - 1); }
  }

  /** Printing the sorted value shows every separator. */
  lemma {:induction false} PrintedSeparatorShows(v: GoValue)
    requires ValidMaps(v) && HasSeparator(v)
    ensures Separates(Print(GoSorted(v)))
    decreases v
  {
    match v
    case GoText(s) => QuoteSeparates(CodeUnits(s));
    case GoSlice(items) =>
      var x :| x in items && HasSeparator(x);
      var i :| 0 <= i < |items| && items[i] == x;
      PrintedSeparatorShows(x);
      SortedItem(items, i);
      ItemsSeparate(GoSortedItems(items), i);
    case GoMap(entries) =>
      var e :| e in entries && (Separates(CodeUnits(e.key)) || HasSeparator(e.value));
      if HasSeparator(e.value) { PrintedSeparatorShows(e.value); }
      GoSortedMembersAre(entries);
      MembersSeparate(GoSortedMembers(entries), MemberOf(e, GoSorted(e.value)));
  }

  // ----- Exactly when the texts agree -----

  /**
   Go writes the canonical text of the core exactly when no string or key has a line or paragraph
   separator and, in every object, no key is `__proto__` and code-unit order is the enumeration order.
   */
  lemma GoTextIsCoreTextExactly(v: GoValue)
    requires ValidMaps(v)
    ensures Written(GoQuote, v) == CanonText(ToCore(v)) <==> SameOrder(v) && !HasSeparator(v)
  {
    var text := Written(GoQuote, v);
    if !HasSeparator(v) {
      PrintersShared(v);
      WriterAgreesExactly(GoQuote, v);
    } else if text == CanonText(ToCore(v)) {
      WrittenReads(v);
      ReadsAll(text, Print(GoSorted(v)));
      PrintReads(Canon(ToCore(v)));
      ReadsAll(text, text);
      PrintedSeparatorShows(v);
      WrittenHasNoSeparator(v);
    }
  }

  /** A string with a separator is written with an escape that the core does not write. */
  lemma SeparatorDisagrees(s: GoString)
    requires Separates(CodeUnits(s))
    ensures Written(GoQuote, GoText(s)) != CanonText(ToCore(GoText(s)))
  {
    GoTextIsCoreTextExactly(GoText(s));
  }
}
