/**
 The one-pass canonical writer of the Go SDK (RFC 8785, section 3.2.3), and its agreement with the
 two-phase form of the TypeScript core. The buffer holds the text written, not its UTF-8 bytes.
 */
module GoCanonical {
  import opened Texts
  import opened Json
  import opened Canonical
  import opened Utf16
  import opened GoSanitizer

  type GoString = seq<Rune>

  datatype Float = Zero(negative: bool) | Finite(literal: NumberLiteral) | NaN | Infinity(negative: bool)

  /** A decoded value; a map lists its entries in the order in which the runtime ranges over them. */
  datatype GoValue =
    | GoNil
    | GoBool(b: bool)
    | GoText(s: GoString)
    | GoFloat(f: Float)
    | GoSlice(items: seq<GoValue>)
    | GoMap(entries: seq<Entry>)

  datatype Entry = Entry(key: GoString, value: GoValue)

  // ----- The order of keys -----

  function CodeUnits(s: GoString): Text {
    Encode(seq(|s|, i requires 0 <= i < |s| => s[i] as CodePoint))
  }

  lemma Utf16Injective(a: GoString, b: GoString)
    requires CodeUnits(a) == CodeUnits(b)
    ensures a == b
  {
    var x, y := seq(|a|, i requires 0 <= i < |a| => a[i] as CodePoint), seq(|b|, i requires 0 <= i < |b| => b[i] as CodePoint);
    DecodeEncode(x);
    DecodeEncode(y);
    assert |a| == |x| == |y| == |b|;
    forall i | 0 <= i < |a| ensures a[i] == b[i] {
      assert x[i] == y[i];
    }
  }

  /** `utf16Less`: compares code unit by code unit. */
  method CompareUtf16(a: GoString, b: GoString) returns (less: bool)
    ensures less == Less(CodeUnits(a), CodeUnits(b))
  {
    var ua, ub := CodeUnits(a), CodeUnits(b);
    var i := 0;
    assert ua[0..] == ua && ub[0..] == ub;
    while i < |ua| && i < |ub|
      invariant 0 <= i <= |ua| && i <= |ub|
      invariant Less(ua, ub) == Less(ua[i..], ub[i..])
    {
      if ua[i] != ub[i] {
        return ua[i] < ub[i];
      }
      assert ua[i..][1..] == ua[i + 1..] && ub[i..][1..] == ub[i + 1..];
      i := i + 1;
    }
    return |ua| < |ub|;
  }

  predicate KeyLess(a: GoString, b: GoString) {
    Less(CodeUnits(a), CodeUnits(b))
  }

  /** A strict total order on valid strings. */
  lemma KeyLessIsStrictTotal(a: GoString, b: GoString, c: GoString)
    ensures !KeyLess(a, a)
    ensures KeyLess(a, b) && KeyLess(b, c) ==> KeyLess(a, c)
    ensures a == b || KeyLess(a, b) || KeyLess(b, a)
  {
    LessIrreflexive(CodeUnits(a));
    LessTotal(CodeUnits(a), CodeUnits(b));
    if CodeUnits(a) == CodeUnits(b) {
      Utf16Injective(a, b);
    }
    if KeyLess(a, b) && KeyLess(b, c) {
      LessTransitive(CodeUnits(a), CodeUnits(b), CodeUnits(c));
    }
  }

  /** It is not the order of code points: every character above U+FFFF comes before U+E000 to U+FFFF. */
  lemma AstralSortsBelow(r: Rune, q: Rune)
    requires r >= 0x1_0000 && 0xE000 <= q < 0x1_0000
    ensures KeyLess([r], [q]) && q < r
  {
    assert CodeUnits([r]) == Units(r) + [] && CodeUnits([q]) == [q];
    assert Units(r)[0] < 0xE000;
  }

  // ----- What is written -----

  predicate AllFinite(v: GoValue) {
    match v
    case GoFloat(f) => f.Zero? || f.Finite?
    case GoSlice(items) => forall x | x in items :: AllFinite(x)
    case GoMap(entries) => forall e | e in entries :: AllFinite(e.value)
    case _ => true
  }

  datatype Pair = Pair(key: GoString, text: Text)

  function InsertPair(p: Pair, ps: seq<Pair>): seq<Pair> {
    if ps != [] && KeyLess(ps[0].key, p.key) then [ps[0]] + InsertPair(p, ps[1..]) else [p] + ps
  }

  function SortPairs(ps: seq<Pair>): seq<Pair> {
    if ps == [] then [] else InsertPair(ps[0], SortPairs(ps[1..]))
  }

  function InsertGoKey(k: GoString, ks: seq<GoString>): seq<GoString> {
    if ks != [] && KeyLess(ks[0], k) then [ks[0]] + InsertGoKey(k, ks[1..]) else [k] + ks
  }

  /** The keys in the order of their code units. */
  function SortGoKeys(ks: seq<GoString>): seq<GoString> {
    if ks == [] then [] else InsertGoKey(ks[0], SortGoKeys(ks[1..]))
  }

  function Comma(i: nat): Text {
    if i > 0 then [COMMA] else []
  }

  function PairText(quote: GoString -> Text, p: Pair): Text {
    quote(p.key) + [COLON] + p.text
  }

  function PairTexts(quote: GoString -> Text, ps: seq<Pair>): (ts: seq<Text>)
    ensures |ts| == |ps| && forall i | 0 <= i < |ps| :: ts[i] == PairText(quote, ps[i])
  {
    seq(|ps|, i requires 0 <= i < |ps| => PairText(quote, ps[i]))
  }

  /** The first `n` texts with commas between them. */
  function JoinFirst(ts: seq<Text>, n: nat): Text
    requires n <= |ts|
  {
    if n == 0 then [] else JoinFirst(ts, n - 1) + (Comma(n - 1) + ts[n - 1])
  }

  function Join(ts: seq<Text>): Text {
    JoinFirst(ts, |ts|)
  }

  /** The canonical text of a value, given how strings are quoted. */
  function Written(quote: GoString -> Text, v: GoValue): Text {
    match v
    case GoNil => NULL
    case GoBool(b) => if b then TRUE else FALSE
    case GoText(s) => quote(s)
    case GoFloat(Finite(literal)) => literal
    case GoFloat(_) => [48]
    case GoSlice(items) => [OPEN_BRACKET] + Join(WrittenItems(quote, items)) + [CLOSE_BRACKET]
    case GoMap(entries) => [OPEN_BRACE] + Join(PairTexts(quote, SortPairs(WrittenEntries(quote, entries)))) + [CLOSE_BRACE]
  }

  function WrittenItems(quote: GoString -> Text, items: seq<GoValue>): (ts: seq<Text>)
    ensures |ts| == |items|
    ensures forall i | 0 <= i < |items| :: ts[i] == Written(quote, items[i])
  {
    if items == [] then [] else [Written(quote, items[0])] + WrittenItems(quote, items[1..])
  }

  function WrittenEntries(quote: GoString -> Text, es: seq<Entry>): (ps: seq<Pair>)
    ensures |ps| == |es|
    ensures forall i | 0 <= i < |es| :: ps[i] == Pair(es[i].key, Written(quote, es[i].value))
  {
    if es == [] then [] else [Pair(es[0].key, Written(quote, es[0].value))] + WrittenEntries(quote, es[1..])
  }

  /** The keys of a map are distinct. */
  predicate DistinctEntries(es: seq<Entry>) {
    forall i, j :: 0 <= i < j < |es| ==> es[i].key != es[j].key
  }

  predicate ValidMaps(v: GoValue) {
    match v
    case GoSlice(items) => forall x | x in items :: ValidMaps(x)
    case GoMap(entries) => DistinctEntries(entries) && forall e | e in entries :: ValidMaps(e.value)
    case _ => true
  }

  // ----- The writer -----

  class Buffer {
    var text: Text

    constructor ()
      ensures text == []
    {
      text := [];
    }

    method Write(t: Text)
      modifies this
      ensures text == old(text) + t
    {
      text := text + t;
    }
  }

  function KeysOf(es: seq<Entry>): seq<GoString> {
    seq(|es|, i requires 0 <= i < |es| => es[i].key)
  }

  function PairKeys(ps: seq<Pair>): (ks: seq<GoString>)
    ensures |ks| == |ps| && forall i | 0 <= i < |ps| :: ks[i] == ps[i].key
  {
    seq(|ps|, i requires 0 <= i < |ps| => ps[i].key)
  }

  lemma {:induction false} InsertedKeys(p: Pair, ps: seq<Pair>)
    ensures PairKeys(InsertPair(p, ps)) == InsertGoKey(p.key, PairKeys(ps))
  {
    if ps != [] {
      assert PairKeys(ps)[1..] == PairKeys(ps[1..]);
      InsertedKeys(p, ps[1..]);
    }
  }

  lemma {:induction false} SortedPairKeys(ps: seq<Pair>)
    ensures PairKeys(SortPairs(ps)) == SortGoKeys(PairKeys(ps))
  {
    if ps != [] {
      assert PairKeys(ps)[1..] == PairKeys(ps[1..]);
      SortedPairKeys(ps[1..]);
      InsertedKeys(ps[0], SortPairs(ps[1..]));
    }
  }

  lemma {:induction false} InsertPairMembers(p: Pair, ps: seq<Pair>)
    ensures forall x :: x in InsertPair(p, ps) <==> x == p || x in ps
  {
    if ps != [] {
      InsertPairMembers(p, ps[1..]);
      assert ps == [ps[0]] + ps[1..];
    }
  }

  lemma {:induction false} SortPairMembers(ps: seq<Pair>)
    ensures forall x :: x in SortPairs(ps) <==> x in ps
  {
    if ps != [] {
      SortPairMembers(ps[1..]);
      InsertPairMembers(ps[0], SortPairs(ps[1..]));
      assert ps == [ps[0]] + ps[1..];
    }
  }

  /** Where the map holds a key. */
  function Index(es: seq<Entry>, k: GoString): (i: nat)
    ensures i <= |es| && (i < |es| ==> es[i].key == k) && forall j | 0 <= j < i :: es[j].key != k
  {
    if es == [] || es[0].key == k then 0 else 1 + Index(es[1..], k)
  }

  /** The i-th sorted key belongs to an entry, and the i-th sorted pair is that entry as written. */
  lemma SortedEntry(quote: GoString -> Text, es: seq<Entry>, i: nat)
    requires DistinctEntries(es) && i < |SortGoKeys(KeysOf(es))|
    ensures var ps := SortPairs(WrittenEntries(quote, es)); var k := SortGoKeys(KeysOf(es))[i];
      |ps| == |SortGoKeys(KeysOf(es))| && Index(es, k) < |es| &&
      ps[i] == Pair(k, Written(quote, es[Index(es, k)].value))
  {
    var written := WrittenEntries(quote, es);
    var ps := SortPairs(written);
    assert PairKeys(written) == KeysOf(es);
    SortedPairKeys(written);
    SortPairMembers(written);
    assert ps[i] in written;
    var j :| 0 <= j < |es| && written[j] == ps[i];
    var n := Index(es, ps[i].key);
    assert n == j;
  }

  /** `appendCanonical`: fails on a number that is not finite, and writes the canonical text otherwise. */
  method AppendCanonical(quote: GoString -> Text, buf: Buffer, v: GoValue) returns (ok: bool)
    requires ValidMaps(v)
    modifies buf
    ensures ok <==> AllFinite(v)
    ensures ok ==> buf.text == old(buf.text) + Written(quote, v)
    decreases v
  {
    ok := true;
    match v
    case GoNil => buf.Write(NULL);
    case GoBool(b) => buf.Write(if b then TRUE else FALSE);
    case GoText(s) => buf.Write(quote(s));
    case GoFloat(f) =>
      if f.Zero? {
        buf.Write([48]);
      } else if f.NaN? || f.Infinity? {
        ok := false;
      } else {
        buf.Write(f.literal);
      }
    case GoSlice(items) =>
      Wrapped(buf.text, OPEN_BRACKET, Join(WrittenItems(quote, items)), CLOSE_BRACKET);
      buf.Write([OPEN_BRACKET]);
      FiniteUpToIs(items, |items|);
      ok := AppendItems(quote, buf, items);
      if ok { buf.Write([CLOSE_BRACKET]); }
    case GoMap(entries) =>
      Wrapped(buf.text, OPEN_BRACE, Join(PairTexts(quote, SortPairs(WrittenEntries(quote, entries)))), CLOSE_BRACE);
      buf.Write([OPEN_BRACE]);
      ok := AppendEntries(quote, buf, entries);
      if ok { buf.Write([CLOSE_BRACE]); }
  }

  method AppendItem(quote: GoString -> Text, buf: Buffer, items: seq<GoValue>, i: nat) returns (ok: bool)
    requires i < |items| && ValidMaps(items[i])
    modifies buf
    ensures ok <==> AllFinite(items[i])
    ensures ok ==> buf.text == old(buf.text) + (Comma(i) + Written(quote, items[i]))
    decreases items, 0
  {
    if i > 0 {
      buf.Write([COMMA]);
    }
    ok := AppendCanonical(quote, buf, items[i]);
  }

  /** Writing the next text after the first `n`. */
  lemma JoinStep(start: Text, ts: seq<Text>, n: nat)
    requires n < |ts|
    ensures start + JoinFirst(ts, n + 1) == start + JoinFirst(ts, n) + (Comma(n) + ts[n])
  {
    var a, b := JoinFirst(ts, n), Comma(n) + ts[n];
    assert start + (a + b) == start + a + b;
  }

  /** The first `n` values are finite. */
  predicate FiniteUpTo(vs: seq<GoValue>, n: nat)
    requires n <= |vs|
  {
    n == 0 || (FiniteUpTo(vs, n - 1) && AllFinite(vs[n - 1]))
  }

  lemma {:induction false} FiniteUpToIs(vs: seq<GoValue>, n: nat)
    requires n <= |vs|
    ensures FiniteUpTo(vs, n) <==> forall j | 0 <= j < n :: AllFinite(vs[j])
  {
    if n > 0 {
      FiniteUpToIs(vs, n - 1);
    }
  }

  lemma {:induction false} NotFiniteBeyond(vs: seq<GoValue>, n: nat, m: nat)
    requires n <= m <= |vs| && !FiniteUpTo(vs, n)
    ensures !FiniteUpTo(vs, m)
    decreases m - n
  {
    if n < m {
      NotFiniteBeyond(vs, n, m - 1);
    }
  }

  method AppendItems(quote: GoString -> Text, buf: Buffer, items: seq<GoValue>) returns (ok: bool)
    requires forall x | x in items :: ValidMaps(x)
    modifies buf
    ensures ok <==> FiniteUpTo(items, |items|)
    ensures ok ==> buf.text == old(buf.text) + Join(WrittenItems(quote, items))
    decreases items, 1
  {
    ghost var texts := WrittenItems(quote, items);
    for i := 0 to |items|
      invariant FiniteUpTo(items, i)
      invariant buf.text == old(buf.text) + JoinFirst(texts, i)
    {
      JoinStep(old(buf.text), texts, i);
      ok := AppendItem(quote, buf, items, i);
      if !ok {
        NotFiniteBeyond(items, i + 1, |items|);
        return;
      }
    }
    ok := true;
  }

  method AppendEntry(quote: GoString -> Text, buf: Buffer, entries: seq<Entry>, k: GoString, i: nat) returns (ok: bool)
    requires Index(entries, k) < |entries| && ValidMaps(entries[Index(entries, k)].value)
    modifies buf
    ensures ok <==> AllFinite(entries[Index(entries, k)].value)
    ensures ok ==>
      buf.text == old(buf.text) + (Comma(i) + PairText(quote, Pair(k, Written(quote, entries[Index(entries, k)].value))))
    decreases entries, 0
  {
    if i > 0 {
      buf.Write([COMMA]);
    }
    buf.Write(quote(k));
    buf.Write([COLON]);
    ok := AppendCanonical(quote, buf, entries[Index(entries, k)].value);
  }

  /** The pairs are the entries of these keys, as written. */
  predicate WrittenAs(quote: GoString -> Text, es: seq<Entry>, ks: seq<GoString>, ps: seq<Pair>) {
    |ps| == |ks| &&
    forall i | 0 <= i < |ks| :: Index(es, ks[i]) < |es| && ps[i] == Pair(ks[i], Written(quote, es[Index(es, ks[i])].value))
  }

  /** The values of the keys, in their order. */
  function ValuesAt(es: seq<Entry>, ks: seq<GoString>): (vs: seq<GoValue>)
    requires forall i | 0 <= i < |ks| :: Index(es, ks[i]) < |es|
    ensures |vs| == |ks| && forall i | 0 <= i < |ks| :: vs[i] == es[Index(es, ks[i])].value
  {
    seq(|ks|, i requires 0 <= i < |ks| => es[Index(es, ks[i])].value)
  }

  method AppendKeys(quote: GoString -> Text, buf: Buffer, entries: seq<Entry>, keys: seq<GoString>, ghost pairs: seq<Pair>)
    returns (ok: bool)
    requires WrittenAs(quote, entries, keys, pairs) && forall e | e in entries :: ValidMaps(e.value)
    modifies buf
    ensures ok <==> FiniteUpTo(ValuesAt(entries, keys), |keys|)
    ensures ok ==> buf.text == old(buf.text) + Join(PairTexts(quote, pairs))
    decreases entries, 1
  {
    ghost var texts, values := PairTexts(quote, pairs), ValuesAt(entries, keys);
    for i := 0 to |keys|
      invariant FiniteUpTo(values, i)
      invariant buf.text == old(buf.text) + JoinFirst(texts, i)
    {
      JoinStep(old(buf.text), texts, i);
      ok := AppendEntry(quote, buf, entries, keys[i], i);
      if !ok {
        NotFiniteBeyond(values, i + 1, |keys|);
        return;
      }
    }
    ok := true;
  }

  method AppendEntries(quote: GoString -> Text, buf: Buffer, entries: seq<Entry>) returns (ok: bool)
    requires DistinctEntries(entries) && forall e | e in entries :: ValidMaps(e.value)
    modifies buf
    ensures ok <==> forall e | e in entries :: AllFinite(e.value)
    ensures ok ==> buf.text == old(buf.text) + Join(PairTexts(quote, SortPairs(WrittenEntries(quote, entries))))
    decreases entries, 2
  {
    var keys := SortGoKeys(KeysOf(entries));
    SortedAll(quote, entries);
    AllVisited(entries);
    FiniteUpToIs(ValuesAt(entries, keys), |keys|);
    ok := AppendKeys(quote, buf, entries, keys, SortPairs(WrittenEntries(quote, entries)));
  }

  lemma Wrapped(before: Text, opening: Unit, body: Text, closing: Unit)
    ensures before + [opening] + body + [closing] == before + ([opening] + body + [closing])
  {
  }

  lemma SortedAll(quote: GoString -> Text, es: seq<Entry>)
    requires DistinctEntries(es)
    ensures WrittenAs(quote, es, SortGoKeys(KeysOf(es)), SortPairs(WrittenEntries(quote, es)))
  {
    var written := WrittenEntries(quote, es);
    assert PairKeys(written) == KeysOf(es);
    SortedPairKeys(written);
    forall i | 0 <= i < |SortGoKeys(KeysOf(es))| {
      SortedEntry(quote, es, i);
    }
  }

  /** Some sorted key indexes the entry. */
  predicate Visited(es: seq<Entry>, e: Entry) {
    exists i :: 0 <= i < |SortGoKeys(KeysOf(es))| &&
      var n := Index(es, SortGoKeys(KeysOf(es))[i]); n < |es| && es[n] == e
  }

  /** Every entry is visited under its sorted key. */
  lemma AllVisited(es: seq<Entry>)
    requires DistinctEntries(es)
    ensures forall e | e in es :: Visited(es, e)
  {
    var quote := (s: GoString) => [];
    var written := WrittenEntries(quote, es);
    assert PairKeys(written) == KeysOf(es);
    SortedPairKeys(written);
    SortPairMembers(written);
    forall e | e in es ensures Visited(es, e) {
      var j :| 0 <= j < |es| && es[j] == e;
      assert written[j] in SortPairs(written);
      var i :| 0 <= i < |SortPairs(written)| && SortPairs(written)[i] == written[j];
      assert PairKeys(SortPairs(written))[i] == e.key;
      assert Index(es, e.key) == j;
    }
  }

  /** `CanonicalBytes` */
  method CanonicalBytes(quote: GoString -> Text, v: GoValue) returns (r: Result<Text, ()>)
    requires ValidMaps(v)
    ensures r == if AllFinite(v) then Ok(Written(quote, v)) else Err(())
  {
    var buf := new Buffer();
    var ok := AppendCanonical(quote, buf, v);
    if !ok {
      return Err(());
    }
    assert [] + Written(quote, v) == Written(quote, v);
    return Ok(buf.text);
  }
}
