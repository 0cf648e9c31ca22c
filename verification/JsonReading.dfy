/**
 A reader of JSON, after the grammar of RFC 8259, sections 2 to 7: every printed value is read back.
 And which code units are printed as escapes, as `JSON.stringify` has it.
 */
module JsonReading {
  import opened Texts
  import opened Json
  import opened Canonical

  /** The unit that a two-unit escape stands for. */
  function ShortEscape(letter: Unit): Option<Unit> {
    if letter == 'b' as int then Some(0x08)
    else if letter == 't' as int then Some(0x09)
    else if letter == 'n' as int then Some(0x0A)
    else if letter == 'f' as int then Some(0x0C)
    else if letter == 'r' as int then Some(0x0D)
    else if letter == '"' as int || letter == '\\' as int || letter == '/' as int then Some(letter)
    else None
  }

  function HexValue(digit: Unit): Option<nat> {
    if '0' as int <= digit <= '9' as int then Some(digit - '0' as int)
    else if 'a' as int <= digit <= 'f' as int then Some(10 + digit - 'a' as int)
    else if 'A' as int <= digit <= 'F' as int then Some(10 + digit - 'A' as int)
    else None
  }

  function HexNumber(t: Text): (n: Option<Unit>)
    requires |t| == 4
  {
    var (a, b, c, d) := (HexValue(t[0]), HexValue(t[1]), HexValue(t[2]), HexValue(t[3]));
    if a.None? || b.None? || c.None? || d.None? then None
    else
      var n := a.value * 4096 + b.value * 256 + c.value * 16 + d.value;
      if n < 0x1_0000 then Some(n) else None
  }

  /** Reads one printed unit: the unit and how many units it took. */
  function ReadUnit(t: Text): Option<(Unit, nat)>
    requires t != []
  {
    if t[0] < 0x20 || t[0] == '"' as int then None
    else if t[0] != '\\' as int then Some((t[0], 1))
    else if |t| >= 2 && ShortEscape(t[1]).Some? then Some((ShortEscape(t[1]).value, 2))
    else if |t| >= 6 && t[1] == 'u' as int && HexNumber(t[2..6]).Some? then Some((HexNumber(t[2..6]).value, 6))
    else None
  }

  /** Reads up to the closing quote: the string and what follows it. */
  function ReadString(t: Text): (r: Option<(Text, Text)>)
    ensures r.Some? ==> |r.value.1| < |t|
    decreases |t|
  {
    if t == [] then None
    else if t[0] == '"' as int then Some(([], t[1..]))
    else
      match ReadUnit(t)
      case None => None
      case Some((u, n)) =>
        if n == 0 || n > |t| then None
        else
          match ReadString(t[n..])
          case None => None
          case Some((s, rest)) => Some(([u] + s, rest))
  }

  lemma HexDigitReads(d: nat)
    requires d < 16
    ensures HexValue(HexDigit(d)) == Some(d)
  {
  }

  lemma HexParts(u: Unit)
    ensures u / 4096 < 16
    ensures u == u / 4096 * 4096 + u / 256 % 16 * 256 + u / 16 % 16 * 16 + u % 16
  {
    assert u / 16 == u / 256 * 16 + u / 16 % 16;
    assert u / 256 == u / 4096 * 16 + u / 256 % 16;
  }

  lemma HexNumberReads(u: Unit)
    ensures HexNumber([HexDigit(u / 4096), HexDigit(u / 256 % 16), HexDigit(u / 16 % 16), HexDigit(u % 16)]) == Some(u)
  {
    HexParts(u);
    HexDigitReads(u / 4096);
    HexDigitReads(u / 256 % 16);
    HexDigitReads(u / 16 % 16);
    HexDigitReads(u % 16);
  }

  lemma UnicodeEscapeReads(u: Unit, rest: Text)
    ensures ReadUnit(UnicodeEscape(u) + rest) == Some((u, 6))
  {
    var escape, t := UnicodeEscape(u), UnicodeEscape(u) + rest;
    assert t[0] == escape[0] && t[1] == escape[1];
    assert t[2..6] == escape[2..] == [HexDigit(u / 4096), HexDigit(u / 256 % 16), HexDigit(u / 16 % 16), HexDigit(u % 16)];
    HexNumberReads(u);
  }

  lemma EscapeReads(u: Unit, rest: Text)
    ensures ReadUnit(Escape(u) + rest) == Some((u, |Escape(u)|))
  {
    if (u < 32 && u != 8 && u != 9 && u != 10 && u != 12 && u != 13) || IsHighSurrogate(u) || IsLowSurrogate(u) {
      UnicodeEscapeReads(u, rest);
    }
  }

  lemma ReadStringStep(printed: Text, u: Unit, rest: Text, s: Text, after: Text)
    requires printed != [] && printed[0] != '"' as int && ReadUnit(printed + rest) == Some((u, |printed|))
    requires ReadString(rest) == Some((s, after))
    ensures ReadString(printed + rest) == Some(([u] + s, after))
  {
    assert (printed + rest)[|printed|..] == rest;
  }

  lemma PairReads(high: Unit, low: Unit, tail: Text, s: Text, after: Text)
    requires IsHighSurrogate(high) && IsLowSurrogate(low) && ReadString(tail) == Some((s, after))
    ensures ReadString([high] + ([low] + tail)) == Some(([high] + ([low] + s), after))
  {
    ReadStringStep([low], low, tail, s, after);
    ReadStringStep([high], high, [low] + tail, [low] + s, after);
  }

  lemma QuotedPair(s: Text, after: Text)
    requires StartsWithPair(s)
    ensures QuoteRest(s) + after == [s[0]] + ([s[1]] + (QuoteRest(s[2..]) + after)) && s == [s[0]] + ([s[1]] + s[2..])
  {
    assert s[..2] == [s[0]] + [s[1]];
  }

  lemma QuotedUnit(s: Text, after: Text)
    requires s != [] && !StartsWithPair(s)
    ensures QuoteRest(s) + after == Escape(s[0]) + (QuoteRest(s[1..]) + after) && s == [s[0]] + s[1..]
  {
  }

  /** A printed string is read back, and reading stops where printing did. */
  lemma {:induction false} PrintedStringReads(s: Text, after: Text)
    ensures ReadString(QuoteRest(s) + after) == Some((s, after))
    decreases |s|
  {
    if s == [] {
      assert ([QUOTE] + after)[1..] == after;
    } else if StartsWithPair(s) {
      QuotedPair(s, after);
      PrintedStringReads(s[2..], after);
      PairReads(s[0], s[1], QuoteRest(s[2..]) + after, s[2..], after);
    } else {
      QuotedUnit(s, after);
      PrintedStringReads(s[1..], after);
      EscapeReadsOn(s[0], QuoteRest(s[1..]) + after, s[1..], after);
    }
  }

  lemma EscapeReadsOn(u: Unit, tail: Text, s: Text, after: Text)
    requires ReadString(tail) == Some((s, after))
    ensures ReadString(Escape(u) + tail) == Some(([u] + s, after))
  {
    EscapeReads(u, tail);
    ReadStringStep(Escape(u), u, tail, s, after);
  }

  /** A unit is printed as itself exactly when it is no control character, no quote, no backslash and no lone surrogate. */
  lemma EscapedExactly(u: Unit)
    ensures Escape(u) == [u] <==> u >= 0x20 && u != '"' as int && u != '\\' as int && !(0xD800 <= u < 0xE000)
    ensures |Escape(u)| == 2 <==> u in {0x08, 0x09, 0x0A, 0x0C, 0x0D, 0x22, 0x5C}
    ensures |Escape(u)| == 6 ==> forall i | 2 <= i < 6 :: !('A' as int <= Escape(u)[i] <= 'F' as int)
  {
  }

  // ----- Values -----

  function ReadDigits(t: Text): (n: nat)
    ensures n <= |t| && forall i | 0 <= i < n :: IsNumberUnit(t[i])
  {
    if t == [] || !IsNumberUnit(t[0]) then 0 else 1 + ReadDigits(t[1..])
  }

  /** null, true, false or a number. */
  function ReadWord(t: Text): (r: Option<(Value, Text)>)
    ensures r.Some? ==> |r.value.1| < |t|
  {
    if Ascii("null") <= t then Some((Leaf(Null), t[4..]))
    else if Ascii("true") <= t then Some((Leaf(Bool(true)), t[4..]))
    else if Ascii("false") <= t then Some((Leaf(Bool(false)), t[5..]))
    else
      var n := ReadDigits(t);
      if n > 0 && (IsDigit(t[0]) || t[0] == '-' as int) then Some((Leaf(Num(t[..n])), t[n..])) else None
  }

  function ReadValue(t: Text): (r: Option<(Value, Text)>)
    ensures r.Some? ==> |r.value.1| < |t|
    decreases |t|, 0
  {
    if t == [] then None
    else if t[0] == '"' as int then
      match ReadString(t[1..]) case None => None case Some((s, rest)) => Some((Leaf(Str(s)), rest))
    else if t[0] == '[' as int then
      if |t| >= 2 && t[1] == ']' as int then Some((Arr([]), t[2..]))
      else match ReadItems(t[1..]) case None => None case Some((items, rest)) => Some((Arr(items), rest))
    else if t[0] == '{' as int then
      if |t| >= 2 && t[1] == '}' as int then Some((Obj([]), t[2..]))
      else match ReadMembers(t[1..]) case None => None case Some((members, rest)) => Some((Obj(members), rest))
    else ReadWord(t)
  }

  function ReadItems(t: Text): (r: Option<(seq<Value>, Text)>)
    ensures r.Some? ==> |r.value.1| < |t|
    decreases |t|, 1
  {
    match ReadValue(t)
    case None => None
    case Some((v, rest)) =>
      if rest != [] && rest[0] == ']' as int then Some(([v], rest[1..]))
      else if rest != [] && rest[0] == ',' as int then
        match ReadItems(rest[1..]) case None => None case Some((vs, after)) => Some(([v] + vs, after))
      else None
  }

  function ReadMember(t: Text): (r: Option<(Member, Text)>)
    ensures r.Some? ==> |r.value.1| < |t|
    decreases |t|, 0
  {
    if t == [] || t[0] != '"' as int then None
    else
      match ReadString(t[1..])
      case None => None
      case Some((key, rest)) =>
        if rest == [] || rest[0] != ':' as int then None
        else match ReadValue(rest[1..]) case None => None case Some((v, after)) => Some((Member(key, v), after))
  }

  function ReadMembers(t: Text): (r: Option<(seq<Member>, Text)>)
    ensures r.Some? ==> |r.value.1| < |t|
    decreases |t|, 1
  {
    match ReadMember(t)
    case None => None
    case Some((m, rest)) =>
      if rest != [] && rest[0] == '}' as int then Some(([m], rest[1..]))
      else if rest != [] && rest[0] == ',' as int then
        match ReadMembers(rest[1..]) case None => None case Some((ms, after)) => Some(([m] + ms, after))
      else None
  }

  /** A number ends here. */
  predicate EndsNumber(after: Text) {
    after == [] || !IsNumberUnit(after[0])
  }

  lemma {:induction false} DigitsRead(literal: Text, after: Text)
    requires (forall i | 0 <= i < |literal| :: IsNumberUnit(literal[i])) && EndsNumber(after)
    ensures ReadDigits(literal + after) == |literal|
  {
    if literal == [] {
      assert literal + after == after;
    } else {
      assert (literal + after)[1..] == literal[1..] + after;
      DigitsRead(literal[1..], after);
    }
  }

  lemma NumberReads(literal: NumberLiteral, after: Text)
    requires EndsNumber(after)
    ensures ReadValue(literal + after) == Some((Leaf(Num(literal)), after))
  {
    var t := literal + after;
    DigitsRead(literal, after);
    assert t[0] == literal[0] && t[..|literal|] == literal && t[|literal|..] == after;
    assert Ascii("null")[0] == 110 && Ascii("true")[0] == 116 && Ascii("false")[0] == 102;
  }

  lemma WordReads(word: string, after: Text)
    requires word in {"null", "true", "false"}
    ensures ReadValue(Ascii(word) + after) ==
      Some((Leaf(if word == "null" then Null else Bool(word == "true")), after))
  {
    var t := Ascii(word) + after;
    assert t[..|word|] == Ascii(word) && t[|word|..] == after && t[0] == word[0] as int;
    assert Ascii("null")[0] == 110 && Ascii("true")[0] == 116 && Ascii("false")[0] == 102;
  }

  lemma ScalarReads(s: Scalar, after: Text)
    requires EndsNumber(after)
    ensures ReadValue(PrintScalar(s) + after) == Some((Leaf(s), after))
  {
    match s
    case Null =>
      WordReads("null", after);
      assert NULL == Ascii("null");
    case Bool(b) =>
      WordReads(if b then "true" else "false", after);
      assert TRUE == Ascii("true") && FALSE == Ascii("false");
    case Num(literal) => NumberReads(literal, after);
    case Str(t) => QuotedReads(t, after);
  }

  lemma QuotedReads(t: Text, after: Text)
    ensures ReadValue(Quote(t) + after) == Some((Leaf(Str(t)), after))
  {
    PrintedStringReads(t, after);
    var printed := Quote(t) + after;
    assert printed[0] == '"' as int && printed[1..] == QuoteRest(t) + after;
  }

  /** Whatever follows it, every value is read back from its printed text, with its members in their order. */
  lemma {:induction false} PrintReads(v: Value, after: Text)
    requires EndsNumber(after)
    ensures ReadValue(Print(v) + after) == Some((v, after))
    decreases v, 0
  {
    match v
    case Leaf(s) => ScalarReads(s, after);
    case Arr(items) => ArrayReads(items, after);
    case Obj(members) => ObjectReads(members, after);
  }

  lemma {:induction false} ArrayReads(items: seq<Value>, after: Text)
    ensures ReadValue(Print(Arr(items)) + after) == Some((Arr(items), after))
    decreases items, 2
  {
    var t := Print(Arr(items)) + after;
    if items == [] {
      assert t == [OPEN_BRACKET, CLOSE_BRACKET] + after;
    } else {
      ItemsRead(items, after);
      assert t[1..] == Print(items[0]) + PrintItems(items[1..]) + after;
      PrintStarts(items[0]);
    }
  }

  lemma LastItemReads(v: Value, printed: Text, after: Text)
    requires ReadValue(printed + ([CLOSE_BRACKET] + after)) == Some((v, [CLOSE_BRACKET] + after))
    ensures ReadItems(printed + ([CLOSE_BRACKET] + after)) == Some(([v], after))
  {
    assert ([CLOSE_BRACKET] + after)[1..] == after;
  }

  lemma NextItemReads(v: Value, printed: Text, more: Text, items: seq<Value>, after: Text)
    requires ReadValue(printed + ([COMMA] + more)) == Some((v, [COMMA] + more)) && ReadItems(more) == Some((items, after))
    ensures ReadItems(printed + ([COMMA] + more)) == Some(([v] + items, after))
  {
    assert ([COMMA] + more)[1..] == more;
  }

  lemma PrintedItems(items: seq<Value>, after: Text)
    requires |items| > 1
    ensures Print(items[0]) + PrintItems(items[1..]) + after ==
      Print(items[0]) + ([COMMA] + (Print(items[1..][0]) + PrintItems(items[1..][1..]) + after))
  {
  }

  lemma OnlyItem(items: seq<Value>, after: Text)
    requires |items| == 1
    ensures Print(items[0]) + PrintItems(items[1..]) + after == Print(items[0]) + ([CLOSE_BRACKET] + after)
    ensures items == [items[0]]
  {
    assert PrintItems(items[1..]) == [CLOSE_BRACKET];
  }

  lemma {:induction false} ItemsRead(items: seq<Value>, after: Text)
    requires items != []
    ensures ReadItems(Print(items[0]) + PrintItems(items[1..]) + after) == Some((items, after))
    decreases items, 1
  {
    if |items| == 1 {
      PrintReads(items[0], [CLOSE_BRACKET] + after);
      LastItemReads(items[0], Print(items[0]), after);
      OnlyItem(items, after);
    } else {
      var more := Print(items[1..][0]) + PrintItems(items[1..][1..]) + after;
      PrintedItems(items, after);
      PrintReads(items[0], [COMMA] + more);
      ItemsRead(items[1..], after);
      NextItemReads(items[0], Print(items[0]), more, items[1..], after);
      assert items == [items[0]] + items[1..];
    }
  }

  /** No value is printed with a closing bracket or brace in front. */
  lemma PrintStarts(v: Value)
    ensures Print(v) != [] && Print(v)[0] != CLOSE_BRACKET && Print(v)[0] != CLOSE_BRACE
  {
  }

  lemma {:induction false} ObjectReads(members: seq<Member>, after: Text)
    ensures ReadValue(Print(Obj(members)) + after) == Some((Obj(members), after))
    decreases members, 3
  {
    var t := Print(Obj(members)) + after;
    if members == [] {
      assert t == [OPEN_BRACE, CLOSE_BRACE] + after;
    } else {
      MembersRead(members, after);
      assert t[1..] == PrintMember(members[0]) + PrintMembers(members[1..]) + after;
    }
  }

  lemma KeyAndValueRead(body: Text, key: Text, printed: Text, v: Value, after: Text)
    requires ReadString(body) == Some((key, [COLON] + printed)) && ReadValue(printed) == Some((v, after))
    ensures ReadMember([QUOTE] + body) == Some((Member(key, v), after))
  {
    assert ([QUOTE] + body)[1..] == body && ([COLON] + printed)[1..] == printed;
  }

  lemma PrintedMember(m: Member, after: Text)
    ensures PrintMember(m) + after == [QUOTE] + (QuoteRest(m.key) + ([COLON] + (Print(m.value) + after)))
  {
    Regrouped([QUOTE], QuoteRest(m.key), [COLON], Print(m.value), after);
  }

  lemma Regrouped(a: Text, b: Text, c: Text, d: Text, e: Text)
    ensures a + b + c + d + e == a + (b + (c + (d + e)))
  {
  }

  lemma {:induction false} MemberReads(m: Member, after: Text)
    requires EndsNumber(after)
    ensures ReadMember(PrintMember(m) + after) == Some((m, after))
    decreases m, 1
  {
    var printed := Print(m.value) + after;
    PrintReads(m.value, after);
    PrintedStringReads(m.key, [COLON] + printed);
    PrintedMember(m, after);
    KeyAndValueRead(QuoteRest(m.key) + ([COLON] + printed), m.key, printed, m.value, after);
  }

  lemma OnlyMember(members: seq<Member>, after: Text)
    requires |members| == 1
    ensures PrintMember(members[0]) + PrintMembers(members[1..]) + after == PrintMember(members[0]) + ([CLOSE_BRACE] + after)
    ensures members == [members[0]]
  {
    assert PrintMembers(members[1..]) == [CLOSE_BRACE];
  }

  lemma LastMemberReads(m: Member, printed: Text, after: Text)
    requires ReadMember(printed + ([CLOSE_BRACE] + after)) == Some((m, [CLOSE_BRACE] + after))
    ensures ReadMembers(printed + ([CLOSE_BRACE] + after)) == Some(([m], after))
  {
    assert ([CLOSE_BRACE] + after)[1..] == after;
  }

  lemma NextMemberReads(m: Member, printed: Text, more: Text, members: seq<Member>, after: Text)
    requires ReadMember(printed + ([COMMA] + more)) == Some((m, [COMMA] + more)) && ReadMembers(more) == Some((members, after))
    ensures ReadMembers(printed + ([COMMA] + more)) == Some(([m] + members, after))
  {
    assert ([COMMA] + more)[1..] == more;
  }

  lemma PrintedMembers(members: seq<Member>, after: Text)
    requires |members| > 1
    ensures PrintMember(members[0]) + PrintMembers(members[1..]) + after ==
      PrintMember(members[0]) + ([COMMA] + (PrintMember(members[1..][0]) + PrintMembers(members[1..][1..]) + after))
  {
  }

  lemma {:induction false} MembersRead(members: seq<Member>, after: Text)
    requires members != []
    ensures ReadMembers(PrintMember(members[0]) + PrintMembers(members[1..]) + after) == Some((members, after))
    decreases members, 2
  {
    if |members| == 1 {
      MemberReads(members[0], [CLOSE_BRACE] + after);
      LastMemberReads(members[0], PrintMember(members[0]), after);
      OnlyMember(members, after);
    } else {
      var more := PrintMember(members[1..][0]) + PrintMembers(members[1..][1..]) + after;
      PrintedMembers(members, after);
      MemberReads(members[0], [COMMA] + more);
      MembersRead(members[1..], after);
      NextMemberReads(members[0], PrintMember(members[0]), more, members[1..], after);
      assert members == [members[0]] + members[1..];
    }
  }

  /**
   A canonical text reads back as a value with its members in canonical order, which is the original
   up to order exactly without `__proto__`.
   */
  lemma CanonicalTextReads(v: Value)
    requires WellFormed(v)
    ensures ReadValue(CanonText(v)) == Some((Canon(v), []))
    ensures IsCanonical(Canon(v)) && (SameUpToOrder(Canon(v), v) <==> NoProto(v))
  {
    PrintReads(Canon(v), []);
    assert CanonText(v) + [] == CanonText(v);
    CanonIsCanonical(v);
    CanonLosesOnlyProto(v);
  }
}
