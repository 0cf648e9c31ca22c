/**
 JSON values as the protocol sees them, and the text `JSON.stringify` prints for them.

 An object is the sequence of its members in its own enumeration order, so that "the same
 object up to key order" is a statement and not built in. A number is identified with the
 literal ECMAScript prints for it.
 */
module Json {
  import opened Texts

  predicate IsNumberUnit(u: Unit) {
    IsDigit(u) || u == 43 || u == 45 || u == 46 || u == 69 || u == 101  // + - . E e
  }

  type NumberLiteral = t: Text |
    t != [] && (IsDigit(t[0]) || t[0] == 45) && forall i :: 0 <= i < |t| ==> IsNumberUnit(t[i])
    witness [48]

  datatype Scalar = Null | Bool(b: bool) | Num(literal: NumberLiteral) | Str(s: Text)

  datatype Value = Leaf(scalar: Scalar) | Arr(items: seq<Value>) | Obj(members: seq<Member>)

  datatype Member = Member(key: Text, value: Value)

  function KeySet(ms: seq<Member>): set<Text> {
    set m | m in ms :: m.key
  }

  function Lookup(ms: seq<Member>, k: Text): Option<Value> {
    if ms == [] then None else if ms[0].key == k then Some(ms[0].value) else Lookup(ms[1..], k)
  }

  lemma {:induction false} LookupFinds(ms: seq<Member>, k: Text)
    ensures Lookup(ms, k).Some? <==> k in KeySet(ms)
    ensures Lookup(ms, k).Some? ==> Member(k, Lookup(ms, k).value) in ms
  {
    if ms != [] {
      LookupFinds(ms[1..], k);
      assert ms == [ms[0]] + ms[1..];
      if ms[0].key == k {
        assert ms[0] == Member(k, ms[0].value);
      }
    }
  }

  /** No object has two members of the same name. */
  predicate WellFormed(v: Value) {
    match v
    case Leaf(_) => true
    case Arr(items) => forall x | x in items :: WellFormed(x)
    case Obj(members) => WellFormedMembers(members)
  }

  predicate WellFormedMembers(ms: seq<Member>) {
    ms == [] || (ms[0].key !in KeySet(ms[1..]) && WellFormed(ms[0].value) && WellFormedMembers(ms[1..]))
  }

  /** JavaScript falsiness of a member that may be absent. */
  predicate Falsy(v: Option<Value>) {
    match v
    case None => true
    case Some(Leaf(Null)) => true
    case Some(Leaf(Bool(b))) => !b
    case Some(Leaf(Num(literal))) => literal == [48]
    case Some(Leaf(Str(s))) => s == []
    case _ => false
  }

  // ----- Printing -----

  const COMMA: Unit := 44
  const COLON: Unit := 58
  const QUOTE: Unit := 34
  const BACKSLASH: Unit := 92
  const OPEN_BRACKET: Unit := 91
  const CLOSE_BRACKET: Unit := 93
  const OPEN_BRACE: Unit := 123
  const CLOSE_BRACE: Unit := 125

  function HexDigit(d: nat): Unit
    requires d < 16
  {
    if d < 10 then 48 + d else 87 + d
  }

  /** The six-unit escape \uXXXX. */
  function UnicodeEscape(u: Unit): (t: Text)
    ensures |t| == 6
  {
    [BACKSLASH, 117, HexDigit(u / 4096), HexDigit(u / 256 % 16), HexDigit(u / 16 % 16), HexDigit(u % 16)]
  }

  /** The printed form of one code unit that is not half of a surrogate pair. */
  function Escape(u: Unit): (t: Text)
    ensures t != []
  {
    if u == 8 then [BACKSLASH, 98]
    else if u == 9 then [BACKSLASH, 116]
    else if u == 10 then [BACKSLASH, 110]
    else if u == 12 then [BACKSLASH, 102]
    else if u == 13 then [BACKSLASH, 114]
    else if u == QUOTE || u == BACKSLASH then [BACKSLASH, u]
    else if u < 32 || IsHighSurrogate(u) || IsLowSurrogate(u) then UnicodeEscape(u)
    else [u]
  }

  /** The escaped body of a string followed by its closing quote. */
  function QuoteRest(s: Text): Text {
    if s == [] then [QUOTE]
    else if StartsWithPair(s) then s[..2] + QuoteRest(s[2..])
    else Escape(s[0]) + QuoteRest(s[1..])
  }

  function Quote(s: Text): Text {
    [QUOTE] + QuoteRest(s)
  }

  const NULL: Text := [110, 117, 108, 108]
  const TRUE: Text := [116, 114, 117, 101]
  const FALSE: Text := [102, 97, 108, 115, 101]

  function PrintScalar(s: Scalar): Text {
    match s
    case Null => NULL
    case Bool(b) => if b then TRUE else FALSE
    case Num(literal) => literal
    case Str(t) => Quote(t)
  }

  function Print(v: Value): Text {
    match v
    case Leaf(s) => PrintScalar(s)
    case Arr(items) => [OPEN_BRACKET] + if items == [] then [CLOSE_BRACKET] else Print(items[0]) + PrintItems(items[1..])
    case Obj(members) => [OPEN_BRACE] + if members == [] then [CLOSE_BRACE] else PrintMember(members[0]) + PrintMembers(members[1..])
  }

  /** The items after the first one, and the closing bracket. */
  function PrintItems(items: seq<Value>): Text {
    if items == [] then [CLOSE_BRACKET] else [COMMA] + Print(items[0]) + PrintItems(items[1..])
  }

  function PrintMember(m: Member): Text {
    Quote(m.key) + [COLON] + Print(m.value)
  }

  /** The members after the first one, and the closing brace. */
  function PrintMembers(ms: seq<Member>): Text {
    if ms == [] then [CLOSE_BRACE] else [COMMA] + PrintMember(ms[0]) + PrintMembers(ms[1..])
  }

  // ----- A reader of quoted strings, to show that quoting loses nothing -----

  function HexValue(u: Unit): nat {
    if 48 <= u <= 57 then u - 48 else if 97 <= u <= 102 then u - 87 else 0
  }

  function Unescape(u: Unit): Unit {
    if u == 98 then 8 else if u == 116 then 9 else if u == 110 then 10 else if u == 102 then 12
    else if u == 114 then 13 else u
  }

  /** The first unit an escaped body stands for, and how many printed units it takes. */
  function ReadUnit(x: Text): (Unit, nat)
    requires x != []
  {
    if x[0] != BACKSLASH || |x| == 1 then (x[0], 1)
    else if |x| >= 6 && x[1] == 117 then
      (HexValue(x[2]) * 4096 + HexValue(x[3]) * 256 + HexValue(x[4]) * 16 + HexValue(x[5]), 6)
    else (Unescape(x[1]), 2)
  }

  /** Reads an escaped body up to its closing quote: the string, and what follows it. */
  function Unquote(x: Text): (Text, Text) {
    if x == [] then ([], [])
    else if x[0] == QUOTE then ([], x[1..])
    else
      var (u, width) := ReadUnit(x);
      var (s, rest) := Unquote(x[width..]);
      ([u] + s, rest)
  }

  lemma HexRoundTrip(u: Unit)
    ensures HexValue(HexDigit(u / 4096)) * 4096 + HexValue(HexDigit(u / 256 % 16)) * 256
            + HexValue(HexDigit(u / 16 % 16)) * 16 + HexValue(HexDigit(u % 16)) == u
  {
    assert u / 256 == u / 16 / 16 && u / 4096 == u / 256 / 16;
  }

  lemma ReadEscape(u: Unit, rest: Text)
    ensures ReadUnit(Escape(u) + rest) == (u, |Escape(u)|)
    ensures (Escape(u) + rest)[0] != QUOTE
  {
    var x := Escape(u) + rest;
    assert forall i :: 0 <= i < |Escape(u)| ==> x[i] == Escape(u)[i];
    HexRoundTrip(u);
  }

  lemma UnquoteEnd(rest: Text)
    ensures Unquote([QUOTE] + rest) == ([], rest)
  {
    assert ([QUOTE] + rest)[1..] == rest;
  }

  lemma UnquotePlain(u: Unit, tail: Text)
    requires u != QUOTE && u != BACKSLASH
    ensures Unquote([u] + tail) == ([u] + Unquote(tail).0, Unquote(tail).1)
  {
    assert ([u] + tail)[1..] == tail;
  }

  lemma UnquoteEscape(u: Unit, tail: Text)
    ensures Unquote(Escape(u) + tail) == ([u] + Unquote(tail).0, Unquote(tail).1)
  {
    ReadEscape(u, tail);
    assert (Escape(u) + tail)[|Escape(u)|..] == tail;
  }

  lemma QuoteRestPair(s: Text, rest: Text)
    requires StartsWithPair(s)
    ensures QuoteRest(s) + rest == [s[0]] + ([s[1]] + (QuoteRest(s[2..]) + rest))
  {
    assert s[..2] == [s[0]] + [s[1]];
  }

  lemma QuoteRestUnit(s: Text, rest: Text)
    requires s != [] && !StartsWithPair(s)
    ensures QuoteRest(s) + rest == Escape(s[0]) + (QuoteRest(s[1..]) + rest)
  {
  }

  lemma UnquotePair(high: Unit, low: Unit, tail: Text)
    requires IsHighSurrogate(high) && IsLowSurrogate(low)
    ensures Unquote([high] + ([low] + tail)) == ([high] + ([low] + Unquote(tail).0), Unquote(tail).1)
  {
    UnquotePlain(low, tail);
    UnquotePlain(high, [low] + tail);
  }

  lemma {:induction false} UnquoteQuote(s: Text, rest: Text)
    ensures Unquote(QuoteRest(s) + rest) == (s, rest)
  {
    if s == [] {
      UnquoteEnd(rest);
    } else if StartsWithPair(s) {
      UnquoteQuote(s[2..], rest);
      QuoteRestPair(s, rest);
      UnquotePair(s[0], s[1], QuoteRest(s[2..]) + rest);
      assert s == [s[0]] + ([s[1]] + s[2..]);
    } else {
      UnquoteQuote(s[1..], rest);
      QuoteRestUnit(s, rest);
      UnquoteEscape(s[0], QuoteRest(s[1..]) + rest);
      assert s == [s[0]] + s[1..];
    }
  }

  // ----- Printing is uniquely readable -----

  /** What may follow a printed value inside a larger text. */
  predicate Delimited(r: Text) {
    r != [] ==> r[0] == COMMA || r[0] == COLON || r[0] == CLOSE_BRACKET || r[0] == CLOSE_BRACE
  }

  lemma ConcatCancel(p: Text, r: Text, s: Text)
    requires p + r == p + s
    ensures r == s
  {
    assert (p + r)[|p|..] == r && (p + s)[|p|..] == s;
  }

  lemma QuoteReadable(a: Text, b: Text, r: Text, s: Text)
    requires Quote(a) + r == Quote(b) + s
    ensures a == b && r == s
  {
    assert (Quote(a) + r)[1..] == QuoteRest(a) + r;
    assert (Quote(b) + s)[1..] == QuoteRest(b) + s;
    UnquoteQuote(a, r);
    UnquoteQuote(b, s);
  }

  /** How far a number literal reaches into a text. */
  function NumberEnd(z: Text): nat {
    if z == [] || !IsNumberUnit(z[0]) then 0 else 1 + NumberEnd(z[1..])
  }

  lemma {:induction false} NumberEndsAtDelimiter(a: Text, r: Text)
    requires Delimited(r) && forall i :: 0 <= i < |a| ==> IsNumberUnit(a[i])
    ensures NumberEnd(a + r) == |a|
  {
    if a == [] {
      assert a + r == r;
    } else {
      NumberEndsAtDelimiter(a[1..], r);
      assert (a + r)[1..] == a[1..] + r;
    }
  }

  lemma NumberReadable(a: NumberLiteral, b: NumberLiteral, r: Text, s: Text)
    requires Delimited(r) && Delimited(s) && a + r == b + s
    ensures a == b && r == s
  {
    NumberEndsAtDelimiter(a, r);
    NumberEndsAtDelimiter(b, s);
    assert a == (a + r)[..|a|] && b == (b + s)[..|b|];
    ConcatCancel(a, r, s);
  }

  lemma PrintStarts(v: Value)
    ensures Print(v) != []
    ensures match v
            case Leaf(Null) => Print(v)[0] == 110
            case Leaf(Bool(b)) => Print(v)[0] == if b then 116 else 102
            case Leaf(Num(_)) => IsDigit(Print(v)[0]) || Print(v)[0] == 45
            case Leaf(Str(_)) => Print(v)[0] == QUOTE
            case Arr(_) => Print(v)[0] == OPEN_BRACKET
            case Obj(_) => Print(v)[0] == OPEN_BRACE
  {
  }

  lemma ScalarReadable(a: Scalar, b: Scalar, r: Text, s: Text)
    requires Delimited(r) && Delimited(s) && PrintScalar(a) + r == PrintScalar(b) + s
    ensures a == b && r == s
  {
    PrintStarts(Leaf(a));
    PrintStarts(Leaf(b));
    assert (PrintScalar(a) + r)[0] == PrintScalar(a)[0] == PrintScalar(b)[0];
    match (a, b)
    case (Num(x), Num(y)) => NumberReadable(x, y, r, s);
    case (Str(x), Str(y)) => QuoteReadable(x, y, r, s);
    case (Null, Null) => ConcatCancel(NULL, r, s);
    case (Bool(x), Bool(y)) => ConcatCancel(if x then TRUE else FALSE, r, s);
    case _ => assert false;
  }

  /** A printed value can be told apart from every other one, whatever delimiter follows. */
  lemma {:induction false} PrintReadable(a: Value, b: Value, r: Text, s: Text)
    requires Delimited(r) && Delimited(s) && Print(a) + r == Print(b) + s
    ensures a == b && r == s
    decreases a
  {
    PrintStarts(a);
    PrintStarts(b);
    assert (Print(a) + r)[0] == Print(a)[0] && (Print(b) + s)[0] == Print(b)[0];
    match (a, b)
    case (Leaf(x), Leaf(y)) => ScalarReadable(x, y, r, s);
    case (Arr(xs), Arr(ys)) =>
      assert (Print(a) + r)[1..] == Print(a)[1..] + r;
      assert (Print(b) + s)[1..] == Print(b)[1..] + s;
      ArrayReadable(xs, ys, r, s);
    case (Obj(xs), Obj(ys)) =>
      assert (Print(a) + r)[1..] == Print(a)[1..] + r;
      assert (Print(b) + s)[1..] == Print(b)[1..] + s;
      ObjectReadable(xs, ys, r, s);
    case _ => assert false;
  }

  lemma ItemsText(xs: seq<Value>, r: Text)
    requires xs != []
    ensures Print(Arr(xs))[1..] + r == Print(xs[0]) + (PrintItems(xs[1..]) + r)
    ensures PrintItems(xs) + r == [COMMA] + (Print(xs[0]) + (PrintItems(xs[1..]) + r))
  {
  }

  lemma NoItemsText(r: Text)
    ensures Print(Arr([]))[1..] + r == [CLOSE_BRACKET] + r && PrintItems([]) + r == [CLOSE_BRACKET] + r
  {
  }

  lemma {:induction false} ArrayReadable(xs: seq<Value>, ys: seq<Value>, r: Text, s: Text)
    requires Delimited(r) && Delimited(s) && Print(Arr(xs))[1..] + r == Print(Arr(ys))[1..] + s
    ensures xs == ys && r == s
    decreases xs, 1
  {
    if xs == [] && ys == [] {
      ConcatCancel([CLOSE_BRACKET], r, s);
    } else if xs == [] {
      EmptyIsNotItems(ys, s, r);
    } else if ys == [] {
      EmptyIsNotItems(xs, r, s);
    } else {
      ItemsText(xs, r);
      ItemsText(ys, s);
      PrintReadable(xs[0], ys[0], PrintItems(xs[1..]) + r, PrintItems(ys[1..]) + s);
      ItemsReadable(xs[1..], ys[1..], r, s);
      assert xs == [xs[0]] + xs[1..] && ys == [ys[0]] + ys[1..];
    }
  }

  lemma EmptyIsNotItems(xs: seq<Value>, r: Text, s: Text)
    requires xs != []
    ensures Print(Arr(xs))[1..] + r != Print(Arr([]))[1..] + s
  {
    PrintStarts(xs[0]);
    ItemsText(xs, r);
    NoItemsText(s);
    assert (Print(xs[0]) + (PrintItems(xs[1..]) + r))[0] == Print(xs[0])[0];
    assert ([CLOSE_BRACKET] + s)[0] == CLOSE_BRACKET;
  }

  lemma {:induction false} ItemsReadable(xs: seq<Value>, ys: seq<Value>, r: Text, s: Text)
    requires Delimited(r) && Delimited(s) && PrintItems(xs) + r == PrintItems(ys) + s
    ensures xs == ys && r == s
    decreases xs, 0
  {
    assert (PrintItems(xs) + r)[0] == (PrintItems(ys) + s)[0];
    if xs == [] || ys == [] {
      ConcatCancel([CLOSE_BRACKET], r, s);
    } else {
      var tx, ty := PrintItems(xs[1..]) + r, PrintItems(ys[1..]) + s;
      ItemsText(xs, r);
      ItemsText(ys, s);
      ConcatCancel([COMMA], Print(xs[0]) + tx, Print(ys[0]) + ty);
      PrintReadable(xs[0], ys[0], tx, ty);
      ItemsReadable(xs[1..], ys[1..], r, s);
      assert xs == [xs[0]] + xs[1..] && ys == [ys[0]] + ys[1..];
    }
  }

  lemma {:induction false} MemberReadable(a: Member, b: Member, r: Text, s: Text)
    requires Delimited(r) && Delimited(s) && PrintMember(a) + r == PrintMember(b) + s
    ensures a == b && r == s
    decreases a
  {
    var va, vb := Print(a.value) + r, Print(b.value) + s;
    assert PrintMember(a) + r == Quote(a.key) + ([COLON] + va);
    assert PrintMember(b) + s == Quote(b.key) + ([COLON] + vb);
    QuoteReadable(a.key, b.key, [COLON] + va, [COLON] + vb);
    ConcatCancel([COLON], va, vb);
    PrintReadable(a.value, b.value, r, s);
  }

  lemma {:induction false} ObjectReadable(xs: seq<Member>, ys: seq<Member>, r: Text, s: Text)
    requires Delimited(r) && Delimited(s) && Print(Obj(xs))[1..] + r == Print(Obj(ys))[1..] + s
    ensures xs == ys && r == s
    decreases xs, 1
  {
    if xs == [] || ys == [] {
      assert (Print(Obj(xs))[1..] + r)[0] == (Print(Obj(ys))[1..] + s)[0];
      ConcatCancel([CLOSE_BRACE], r, s);
    } else {
      var tx, ty := PrintMembers(xs[1..]) + r, PrintMembers(ys[1..]) + s;
      assert Print(Obj(xs))[1..] + r == PrintMember(xs[0]) + tx;
      assert Print(Obj(ys))[1..] + s == PrintMember(ys[0]) + ty;
      MemberReadable(xs[0], ys[0], tx, ty);
      MembersReadable(xs[1..], ys[1..], r, s);
      assert xs == [xs[0]] + xs[1..] && ys == [ys[0]] + ys[1..];
    }
  }

  lemma PrintMembersSplit(xs: seq<Member>, r: Text)
    requires xs != []
    ensures (PrintMembers(xs) + r)[1..] == PrintMember(xs[0]) + (PrintMembers(xs[1..]) + r)
  {
    var m, rest := PrintMember(xs[0]), PrintMembers(xs[1..]);
    assert PrintMembers(xs) == [COMMA] + m + rest;
    assert ([COMMA] + m + rest + r)[1..] == m + (rest + r);
  }

  lemma {:induction false} MembersReadable(xs: seq<Member>, ys: seq<Member>, r: Text, s: Text)
    requires Delimited(r) && Delimited(s) && PrintMembers(xs) + r == PrintMembers(ys) + s
    ensures xs == ys && r == s
    decreases xs, 0
  {
    assert (PrintMembers(xs) + r)[0] == (PrintMembers(ys) + s)[0];
    if xs == [] || ys == [] {
      ConcatCancel([CLOSE_BRACE], r, s);
    } else {
      var tx, ty := PrintMembers(xs[1..]) + r, PrintMembers(ys[1..]) + s;
      PrintMembersSplit(xs, r);
      PrintMembersSplit(ys, s);
      MemberReadable(xs[0], ys[0], tx, ty);
      MembersReadable(xs[1..], ys[1..], r, s);
      assert xs == [xs[0]] + xs[1..] && ys == [ys[0]] + ys[1..];
    }
  }

  /** `JSON.stringify` prints two values alike only when they are the same value. */
  lemma PrintInjective(a: Value, b: Value)
    requires Print(a) == Print(b)
    ensures a == b
  {
    assert Print(a) + [] == Print(b) + [];
    PrintReadable(a, b, [], []);
  }
}
