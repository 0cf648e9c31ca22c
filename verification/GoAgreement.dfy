/** The one-pass Go writer and the two-phase TypeScript form write the same canonical text. */
module GoAgreement {
  import opened Texts
  import opened Json
  import opened Canonical
  import opened GoSanitizer
  import Utf16
  import opened GoCanonical

  // ----- The same value on the other side -----

  function ToCore(v: GoValue): Value {
    match v
    case GoNil => Leaf(Null)
    case GoBool(b) => Leaf(Bool(b))
    case GoText(s) => Leaf(Str(CodeUnits(s)))
    case GoFloat(Finite(literal)) => Leaf(Num(literal))
    case GoFloat(_) => Leaf(Num([48]))
    case GoSlice(items) => Arr(ToCoreItems(items))
    case GoMap(entries) => Obj(ToCoreMembers(entries))
  }

  function ToCoreItems(items: seq<GoValue>): (r: seq<Value>)
    ensures |r| == |items|
  {
    if items == [] then [] else [ToCore(items[0])] + ToCoreItems(items[1..])
  }

  function ToCoreMembers(es: seq<Entry>): (r: seq<Member>)
    ensures |r| == |es|
  {
    if es == [] then [] else [Member(CodeUnits(es[0].key), ToCore(es[0].value))] + ToCoreMembers(es[1..])
  }

  /** Both sides print a string alike. */
  predicate PrintedAlike(quote: GoString -> Text, s: GoString) {
    quote(s) == Quote(CodeUnits(s))
  }

  /** Both sides print the strings and keys of the value alike; this is all that is asked of the two scalar printers. */
  predicate SharedPrinter(quote: GoString -> Text, v: GoValue) {
    match v
    case GoText(s) => PrintedAlike(quote, s)
    case GoSlice(items) => forall x | x in items :: SharedPrinter(quote, x)
    case GoMap(entries) => forall e | e in entries :: PrintedAlike(quote, e.key) && SharedPrinter(quote, e.value)
    case _ => true
  }

  // ----- Joining from the left and from the right -----

  /** The texts from `n` on, each after a comma. */
  function JoinFrom(ts: seq<Text>, n: nat): Text
    requires n <= |ts|
    decreases |ts| - n
  {
    if n == |ts| then [] else [COMMA] + ts[n] + JoinFrom(ts, n + 1)
  }

  lemma {:induction false} JoinSplits(ts: seq<Text>, n: nat)
    requires 1 <= n <= |ts|
    ensures Join(ts) == JoinFirst(ts, n) + JoinFrom(ts, n)
    decreases |ts| - n
  {
    if n < |ts| {
      JoinSplits(ts, n + 1);
      var a, b, c := JoinFirst(ts, n), [COMMA] + ts[n], JoinFrom(ts, n + 1);
      assert JoinFirst(ts, n + 1) == a + b;
      assert (a + b) + c == a + (b + c);
    }
  }

  lemma {:induction false} PrintItemsJoins(vs: seq<Value>, ts: seq<Text>, n: nat)
    requires |vs| == |ts| && n <= |vs| && forall i | 0 <= i < |vs| :: ts[i] == Print(vs[i])
    ensures PrintItems(vs[n..]) == JoinFrom(ts, n) + [CLOSE_BRACKET]
    decreases |ts| - n
  {
    if n < |vs| {
      PrintItemsJoins(vs, ts, n + 1);
      assert vs[n..][0] == vs[n] && vs[n..][1..] == vs[n + 1..];
    }
  }

  lemma {:induction false} PrintMembersJoins(ms: seq<Member>, ts: seq<Text>, n: nat)
    requires |ms| == |ts| && n <= |ms| && forall i | 0 <= i < |ms| :: ts[i] == PrintMember(ms[i])
    ensures PrintMembers(ms[n..]) == JoinFrom(ts, n) + [CLOSE_BRACE]
    decreases |ts| - n
  {
    if n < |ms| {
      PrintMembersJoins(ms, ts, n + 1);
      assert ms[n..][0] == ms[n] && ms[n..][1..] == ms[n + 1..];
    }
  }

  // ----- What Go writes is the printed form of a value sorted its way -----

  /** Inserts a member where the order of UTF-16 code units puts its key. */
  function InsertByUnits(m: Member, ms: seq<Member>): seq<Member> {
    if ms != [] && Less(ms[0].key, m.key) then [ms[0]] + InsertByUnits(m, ms[1..]) else [m] + ms
  }

  /** The value with all keys kept, and sorted by their code units at every depth. */
  function GoSorted(v: GoValue): Value {
    match v
    case GoSlice(items) => Arr(GoSortedItems(items))
    case GoMap(entries) => Obj(GoSortedMembers(entries))
    case _ => ToCore(v)
  }

  function GoSortedItems(items: seq<GoValue>): (r: seq<Value>)
    ensures |r| == |items|
  {
    if items == [] then [] else [GoSorted(items[0])] + GoSortedItems(items[1..])
  }

  function GoSortedMembers(es: seq<Entry>): seq<Member> {
    if es == [] then [] else InsertByUnits(Member(CodeUnits(es[0].key), GoSorted(es[0].value)), GoSortedMembers(es[1..]))
  }

  predicate Alike(quote: GoString -> Text, p: Pair, m: Member) {
    PrintedAlike(quote, p.key) && CodeUnits(p.key) == m.key && p.text == Print(m.value)
  }

  predicate AllAlike(quote: GoString -> Text, ps: seq<Pair>, ms: seq<Member>) {
    |ps| == |ms| && forall i | 0 <= i < |ps| :: Alike(quote, ps[i], ms[i])
  }

  lemma {:induction false} InsertAlike(quote: GoString -> Text, p: Pair, ps: seq<Pair>, m: Member, ms: seq<Member>)
    requires Alike(quote, p, m) && AllAlike(quote, ps, ms)
    ensures AllAlike(quote, InsertPair(p, ps), InsertByUnits(m, ms))
  {
    if ps != [] {
      assert Alike(quote, ps[0], ms[0]);
      if KeyLess(ps[0].key, p.key) {
        InsertAlike(quote, p, ps[1..], m, ms[1..]);
      }
    }
  }

  /** Under a shared printer of strings, the one-pass writer emits what printing the sorted value gives. */
  lemma {:induction false} WrittenIsPrinted(quote: GoString -> Text, v: GoValue)
    requires SharedPrinter(quote, v)
    ensures Written(quote, v) == Print(GoSorted(v))
    decreases v
  {
    match v
    case GoSlice(items) =>
      ItemsPrinted(quote, items);
      ArraysAgree(WrittenItems(quote, items), GoSortedItems(items));
    case GoMap(entries) =>
      EntriesPrinted(quote, entries);
      ObjectsAgree(quote, SortPairs(WrittenEntries(quote, entries)), GoSortedMembers(entries));
    case _ =>
  }

  lemma JoinedFirst(ts: seq<Text>)
    requires ts != []
    ensures Join(ts) == ts[0] + JoinFrom(ts, 1)
  {
    JoinSplits(ts, 1);
    assert JoinFirst(ts, 1) == [] + ([] + ts[0]) == ts[0];
  }

  lemma ArraysAgree(ts: seq<Text>, vs: seq<Value>)
    requires |vs| == |ts| && forall i | 0 <= i < |vs| :: ts[i] == Print(vs[i])
    ensures [OPEN_BRACKET] + Join(ts) + [CLOSE_BRACKET] == Print(Arr(vs))
  {
    if ts != [] {
      JoinedFirst(ts);
      PrintItemsJoins(vs, ts, 1);
    }
  }

  lemma MembersAgree(ts: seq<Text>, ms: seq<Member>)
    requires |ms| == |ts| && forall i | 0 <= i < |ms| :: ts[i] == PrintMember(ms[i])
    ensures [OPEN_BRACE] + Join(ts) + [CLOSE_BRACE] == Print(Obj(ms))
  {
    if ts != [] {
      JoinedFirst(ts);
      PrintMembersJoins(ms, ts, 1);
    }
  }

  lemma ObjectsAgree(quote: GoString -> Text, ps: seq<Pair>, ms: seq<Member>)
    requires AllAlike(quote, ps, ms)
    ensures [OPEN_BRACE] + Join(PairTexts(quote, ps)) + [CLOSE_BRACE] == Print(Obj(ms))
  {
    var ts := PairTexts(quote, ps);
    forall i | 0 <= i < |ts| ensures ts[i] == PrintMember(ms[i]) {
      assert Alike(quote, ps[i], ms[i]);
    }
    MembersAgree(ts, ms);
  }

  lemma {:induction false} ItemsPrinted(quote: GoString -> Text, items: seq<GoValue>)
    requires forall x | x in items :: SharedPrinter(quote, x)
    ensures forall i | 0 <= i < |items| :: WrittenItems(quote, items)[i] == Print(GoSortedItems(items)[i])
    decreases items
  {
    if items != [] {
      WrittenIsPrinted(quote, items[0]);
      ItemsPrinted(quote, items[1..]);
      forall i | 0 <= i < |items| ensures WrittenItems(quote, items)[i] == Print(GoSortedItems(items)[i]) {
        if i > 0 {
          assert WrittenItems(quote, items[1..])[i - 1] == Print(GoSortedItems(items[1..])[i - 1]);
        }
      }
    }
  }

  lemma {:induction false} EntriesPrinted(quote: GoString -> Text, es: seq<Entry>)
    requires forall e | e in es :: PrintedAlike(quote, e.key) && SharedPrinter(quote, e.value)
    ensures AllAlike(quote, SortPairs(WrittenEntries(quote, es)), GoSortedMembers(es))
    decreases es
  {
    if es != [] {
      WrittenIsPrinted(quote, es[0].value);
      EntriesPrinted(quote, es[1..]);
      assert WrittenEntries(quote, es)[1..] == WrittenEntries(quote, es[1..]);
      InsertAlike(quote, WrittenEntries(quote, es)[0], SortPairs(WrittenEntries(quote, es[1..])),
                  Member(CodeUnits(es[0].key), GoSorted(es[0].value)), GoSortedMembers(es[1..]));
    }
  }

  // ----- The members on both sides -----

  /** The member an entry becomes, with its value as `value` gives it. */
  function MemberOf(e: Entry, value: Value): Member {
    Member(CodeUnits(e.key), value)
  }

  predicate ByUnits(ms: seq<Member>) {
    forall i, j :: 0 <= i < j < |ms| ==> Less(ms[i].key, ms[j].key)
  }

  lemma LeastFirst(m: Member, ms: seq<Member>)
    requires ByUnits(ms) && forall x | x in ms :: Less(m.key, x.key)
    ensures ByUnits([m] + ms)
  {
    var all := [m] + ms;
    forall i, j | 0 <= i < j < |all| ensures Less(all[i].key, all[j].key) {
      assert all[j] == ms[j - 1] && (i > 0 ==> all[i] == ms[i - 1]);
    }
  }

  lemma {:induction false} InsertByUnitsSorts(m: Member, ms: seq<Member>)
    requires ByUnits(ms) && forall x | x in ms :: x.key != m.key
    ensures ByUnits(InsertByUnits(m, ms)) && forall x :: x in InsertByUnits(m, ms) <==> x == m || x in ms
  {
    if ms != [] {
      assert ms == [ms[0]] + ms[1..];
      if Less(ms[0].key, m.key) {
        var rest := InsertByUnits(m, ms[1..]);
        InsertByUnitsSorts(m, ms[1..]);
        forall x | x in rest ensures Less(ms[0].key, x.key) {
          if x != m {
            var i :| 0 <= i < |ms[1..]| && ms[1..][i] == x;
            assert ms[i + 1] == x;
          }
        }
        LeastFirst(ms[0], rest);
      } else {
        LessTotal(ms[0].key, m.key);
        forall x | x in ms ensures Less(m.key, x.key) {
          if x != ms[0] { LessTransitive(m.key, ms[0].key, x.key); }
        }
        LeastFirst(m, ms);
      }
    }
  }

  lemma DistinctRest(es: seq<Entry>)
    requires DistinctEntries(es) && es != []
    ensures DistinctEntries(es[1..]) && forall e | e in es[1..] :: CodeUnits(e.key) != CodeUnits(es[0].key)
    ensures forall e :: e in es <==> e == es[0] || e in es[1..]
  {
    assert es == [es[0]] + es[1..];
    forall e | e in es[1..] ensures CodeUnits(e.key) != CodeUnits(es[0].key) {
      if CodeUnits(e.key) == CodeUnits(es[0].key) { Utf16Injective(e.key, es[0].key); }
    }
  }

  lemma {:induction false} GoSortedMembersAre(es: seq<Entry>)
    requires DistinctEntries(es)
    ensures ByUnits(GoSortedMembers(es))
    ensures forall m :: m in GoSortedMembers(es) <==> exists e :: e in es && m == MemberOf(e, GoSorted(e.value))
  {
    if es != [] {
      DistinctRest(es);
      GoSortedMembersAre(es[1..]);
      var first := MemberOf(es[0], GoSorted(es[0].value));
      InsertByUnitsSorts(first, GoSortedMembers(es[1..]));
      forall m ensures m in GoSortedMembers(es) <==> exists e :: e in es && m == MemberOf(e, GoSorted(e.value)) {
        if m == first { assert es[0] in es; }
        if e :| e in es && m == MemberOf(e, GoSorted(e.value)) {
          assert e == es[0] || e in es[1..];
        }
      }
    }
  }

  lemma {:induction false} CoreLookup(es: seq<Entry>, e: Entry)
    requires DistinctEntries(es) && e in es
    ensures Lookup(ToCoreMembers(es), CodeUnits(e.key)) == Some(ToCore(e.value))
  {
    DistinctRest(es);
    if e != es[0] {
      CoreLookup(es[1..], e);
      assert ToCoreMembers(es)[1..] == ToCoreMembers(es[1..]);
    }
  }

  lemma {:induction false} CoreKeys(es: seq<Entry>, k: Text)
    requires k in KeySet(ToCoreMembers(es))
    ensures exists e :: e in es && CodeUnits(e.key) == k
  {
    var ms := ToCoreMembers(es);
    KeySetCons(ms);
    assert es[0] in es;
    if ms[0].key != k {
      assert ms[1..] == ToCoreMembers(es[1..]);
      CoreKeys(es[1..], k);
      var e :| e in es[1..] && CodeUnits(e.key) == k;
      assert e in es;
    }
  }

  lemma {:induction false} CoreWellFormed(v: GoValue)
    requires ValidMaps(v)
    ensures WellFormed(ToCore(v))
    decreases v
  {
    match v
    case GoSlice(items) => CoreItemsWellFormed(items);
    case GoMap(entries) => CoreMembersWellFormed(entries);
    case _ =>
  }

  lemma {:induction false} CoreItemsWellFormed(items: seq<GoValue>)
    requires forall x | x in items :: ValidMaps(x)
    ensures forall x | x in ToCoreItems(items) :: WellFormed(x)
    decreases items
  {
    if items != [] {
      CoreWellFormed(items[0]);
      CoreItemsWellFormed(items[1..]);
    }
  }

  lemma {:induction false} CoreMembersWellFormed(es: seq<Entry>)
    requires DistinctEntries(es) && forall e | e in es :: ValidMaps(e.value)
    ensures WellFormedMembers(ToCoreMembers(es))
    decreases es
  {
    if es != [] {
      DistinctRest(es);
      CoreWellFormed(es[0].value);
      CoreMembersWellFormed(es[1..]);
      assert ToCoreMembers(es)[1..] == ToCoreMembers(es[1..]);
      if CodeUnits(es[0].key) in KeySet(ToCoreMembers(es[1..])) {
        CoreKeys(es[1..], CodeUnits(es[0].key));
      }
    }
  }

  lemma CoreMembersAre(es: seq<Entry>, m: Member)
    requires DistinctEntries(es) && WellFormedMembers(ToCoreMembers(es))
    ensures m in CanonMembers(ToCoreMembers(es)) <==>
      m.key != PROTO && exists e :: e in es && m == MemberOf(e, Canon(ToCore(e.value)))
  {
    var ms := ToCoreMembers(es);
    CanonMembersAre(ms, m);
    LookupFinds(ms, m.key);
    if Lookup(ms, m.key).Some? {
      CoreKeys(es, m.key);
      var e :| e in es && CodeUnits(e.key) == m.key;
      CoreLookup(es, e);
    }
    forall e | e in es && m == MemberOf(e, Canon(ToCore(e.value))) ensures Lookup(ms, m.key) == Some(ToCore(e.value)) {
      CoreLookup(es, e);
    }
  }

  // ----- Exactly when both sides agree -----

  /** Code-unit order and enumeration order put the two keys alike. */
  predicate OrderedAlike(a: GoString, b: GoString) {
    KeyLess(a, b) == EnumLess(CodeUnits(a), CodeUnits(b))
  }

  /** In every object no key is `__proto__`, and both orders put every two keys alike. */
  predicate SameOrder(v: GoValue) {
    match v
    case GoSlice(items) => forall x | x in items :: SameOrder(x)
    case GoMap(entries) =>
      (forall e | e in entries :: CodeUnits(e.key) != PROTO && SameOrder(e.value)) &&
      (forall e, f | e in entries && f in entries :: OrderedAlike(e.key, f.key))
    case _ => true
  }

  lemma {:induction false} SortedAlikeExactly(v: GoValue)
    requires ValidMaps(v)
    ensures GoSorted(v) == Canon(ToCore(v)) <==> SameOrder(v)
    decreases v
  {
    match v
    case GoSlice(items) => ItemsAlikeExactly(items);
    case GoMap(entries) =>
      CoreMembersWellFormed(entries);
      forall e | e in entries ensures GoSorted(e.value) == Canon(ToCore(e.value)) <==> SameOrder(e.value) {
        SortedAlikeExactly(e.value);
      }
      if SameOrder(v) { AlikeMembersEqual(entries); }
      if GoSortedMembers(entries) == CanonMembers(ToCoreMembers(entries)) { EqualMembersAlike(entries); }
    case _ =>
  }

  lemma {:induction false} ItemsAlikeExactly(items: seq<GoValue>)
    requires forall x | x in items :: ValidMaps(x)
    ensures GoSortedItems(items) == CanonItems(ToCoreItems(items)) <==> forall x | x in items :: SameOrder(x)
    decreases items
  {
    if items != [] {
      SortedAlikeExactly(items[0]);
      ItemsAlikeExactly(items[1..]);
      assert items == [items[0]] + items[1..];
      assert ToCoreItems(items)[1..] == ToCoreItems(items[1..]);
      assert CanonItems(ToCoreItems(items)) == [Canon(ToCore(items[0]))] + CanonItems(ToCoreItems(items[1..]));
      HeadAndTail(GoSorted(items[0]), GoSortedItems(items[1..]), Canon(ToCore(items[0])), CanonItems(ToCoreItems(items[1..])));
    }
  }

  lemma HeadAndTail(a: Value, xs: seq<Value>, b: Value, ys: seq<Value>)
    ensures [a] + xs == [b] + ys <==> a == b && xs == ys
  {
    var x, y := [a] + xs, [b] + ys;
    assert x[0] == a && y[0] == b && x[1..] == xs && y[1..] == ys;
  }

  lemma AlikeMembersEqual(es: seq<Entry>)
    requires DistinctEntries(es) && WellFormedMembers(ToCoreMembers(es)) && SameOrder(GoMap(es))
    requires forall e | e in es :: GoSorted(e.value) == Canon(ToCore(e.value))
    ensures GoSortedMembers(es) == CanonMembers(ToCoreMembers(es))
  {
    var xs, ys := GoSortedMembers(es), CanonMembers(ToCoreMembers(es));
    GoSortedMembersAre(es);
    CanonMembersSorted(ToCoreMembers(es));
    forall m ensures m in xs <==> m in ys {
      CoreMembersAre(es, m);
    }
    forall i, j | 0 <= i < j < |xs| ensures EnumLess(xs[i].key, xs[j].key) {
      assert xs[i] in xs && xs[j] in xs;
      var e :| e in es && xs[i] == MemberOf(e, GoSorted(e.value));
      var f :| f in es && xs[j] == MemberOf(f, GoSorted(f.value));
      assert OrderedAlike(e.key, f.key);
    }
    SortedUnique(xs, ys);
  }

  lemma EqualMembersAlike(es: seq<Entry>)
    requires DistinctEntries(es) && WellFormedMembers(ToCoreMembers(es))
    requires GoSortedMembers(es) == CanonMembers(ToCoreMembers(es))
    ensures forall e | e in es :: CodeUnits(e.key) != PROTO && GoSorted(e.value) == Canon(ToCore(e.value))
    ensures forall e, f | e in es && f in es :: OrderedAlike(e.key, f.key)
  {
    var xs := GoSortedMembers(es);
    GoSortedMembersAre(es);
    CanonMembersSorted(ToCoreMembers(es));
    forall e | e in es ensures CodeUnits(e.key) != PROTO && GoSorted(e.value) == Canon(ToCore(e.value)) {
      EqualMemberAlike(es, e);
    }
    forall e, f | e in es && f in es ensures OrderedAlike(e.key, f.key) {
      var m, n := MemberOf(e, GoSorted(e.value)), MemberOf(f, GoSorted(f.value));
      assert m in xs && n in xs;
      var i :| 0 <= i < |xs| && xs[i] == m;
      var j :| 0 <= j < |xs| && xs[j] == n;
      BothOrders(xs, i, j);
    }
  }

  lemma EqualMemberAlike(es: seq<Entry>, e: Entry)
    requires DistinctEntries(es) && WellFormedMembers(ToCoreMembers(es)) && e in es
    requires MemberOf(e, GoSorted(e.value)) in CanonMembers(ToCoreMembers(es))
    ensures CodeUnits(e.key) != PROTO && GoSorted(e.value) == Canon(ToCore(e.value))
  {
    var m := MemberOf(e, GoSorted(e.value));
    CoreMembersAre(es, m);
    var f :| f in es && m == MemberOf(f, Canon(ToCore(f.value)));
    Utf16Injective(e.key, f.key);
    assert e == f;
  }

  lemma BothOrders(ms: seq<Member>, i: nat, j: nat)
    requires ByUnits(ms) && Sorted(ms) && i < |ms| && j < |ms|
    ensures Less(ms[i].key, ms[j].key) == EnumLess(ms[i].key, ms[j].key)
  {
    var a, b := ms[i].key, ms[j].key;
    LessIrreflexive(a);
    EnumLessIsStrictTotal(a, b, a);
    if i > j {
      if Less(a, b) { LessTransitive(a, b, a); }
    }
  }

  /**
   Under a shared printer of strings, Go writes what the core prints after sorting exactly when, in
   every object, no key is `__proto__` and code-unit order is the enumeration order.
   */
  lemma WriterAgreesExactly(quote: GoString -> Text, v: GoValue)
    requires SharedPrinter(quote, v) && ValidMaps(v)
    ensures Written(quote, v) == CanonText(ToCore(v)) <==> SameOrder(v)
  {
    WrittenIsPrinted(quote, v);
    SortedAlikeExactly(v);
    if Written(quote, v) == CanonText(ToCore(v)) {
      PrintInjective(GoSorted(v), Canon(ToCore(v)));
    }
  }

  // ----- Two families -----

  /** A key that a JavaScript object enumerates where it was created. */
  predicate PlainKey(k: GoString) {
    ArrayIndex(CodeUnits(k)).None? && CodeUnits(k) != PROTO
  }

  predicate PlainKeys(v: GoValue) {
    match v
    case GoSlice(items) => forall x | x in items :: PlainKeys(x)
    case GoMap(entries) => forall e | e in entries :: PlainKey(e.key) && PlainKeys(e.value)
    case _ => true
  }

  lemma {:induction false} PlainKeysSameOrder(v: GoValue)
    requires PlainKeys(v)
    ensures SameOrder(v)
    decreases v
  {
    match v
    case GoSlice(items) =>
      forall x | x in items ensures SameOrder(x) { PlainKeysSameOrder(x); }
    case GoMap(entries) =>
      forall e | e in entries ensures SameOrder(e.value) { PlainKeysSameOrder(e.value); }
    case _ =>
  }

  /** So they agree on every value without array-index and `__proto__` keys. */
  lemma WriterAgreesWithCore(quote: GoString -> Text, v: GoValue)
    requires SharedPrinter(quote, v) && ValidMaps(v) && PlainKeys(v)
    ensures Written(quote, v) == CanonText(ToCore(v))
  {
    PlainKeysSameOrder(v);
    WriterAgreesExactly(quote, v);
  }

  /** They disagree on every object with a `__proto__` key: Go writes it, the core loses it. */
  lemma ProtoKeyDisagrees(quote: GoString -> Text, es: seq<Entry>, e: Entry)
    requires SharedPrinter(quote, GoMap(es)) && ValidMaps(GoMap(es)) && e in es && CodeUnits(e.key) == PROTO
    ensures Written(quote, GoMap(es)) != CanonText(ToCore(GoMap(es)))
  {
    WriterAgreesExactly(quote, GoMap(es));
  }

  const NINE: Text := [57]
  const TEN: Text := [49, 48]

  lemma {:induction false} BmpUnits(cs: seq<Utf16.CodePoint>)
    requires forall i | 0 <= i < |cs| :: cs[i] < 0x1_0000
    ensures Utf16.Encode(cs) == cs
  {
    if cs != [] {
      BmpUnits(cs[1..]);
    }
  }

  lemma NineAndTen(nine: GoString, ten: GoString)
    requires nine == [57] && ten == [49, 48]
    ensures CodeUnits(nine) == NINE && CodeUnits(ten) == TEN && KeyLess(ten, nine) && EnumLess(NINE, TEN)
  {
    BmpUnits(seq(|nine|, i requires 0 <= i < |nine| => nine[i] as Utf16.CodePoint));
    BmpUnits(seq(|ten|, i requires 0 <= i < |ten| => ten[i] as Utf16.CodePoint));
    assert Decimal(9) == NINE && Decimal(1) == [49] && Decimal(10) == TEN;
    DecimalIsNumeral(9);
    DecimalIsNumeral(10);
  }

  /** Of the array-index keys "9" and "10" the core enumerates "9" first, and Go writes "10" first. */
  lemma NineAndTenDisagree(quote: GoString -> Text, nine: GoString, ten: GoString)
    requires nine == [57] && ten == [49, 48] && PrintedAlike(quote, nine) && PrintedAlike(quote, ten)
    ensures var v := GoMap([Entry(nine, GoNil), Entry(ten, GoNil)]); Written(quote, v) != CanonText(ToCore(v))
  {
    var e, f := Entry(nine, GoNil), Entry(ten, GoNil);
    NineAndTen(nine, ten);
    EnumLessIsStrictTotal(NINE, TEN, NINE);
    assert e in [e, f] && f in [e, f] && !OrderedAlike(f.key, e.key);
    assert ValidMaps(GoMap([e, f]));
    WriterAgreesExactly(quote, GoMap([e, f]));
  }
}
