/**
 The canonical form of a JSON value: keys sorted recursively, then printed.

 The source builds every sorted object by assigning to a fresh `{}`. Two habits of JavaScript
 objects are therefore part of the result: keys that are array indices are enumerated first and
 numerically, and an assignment to `__proto__` creates no property.
 */
module Canonical {
  import opened Texts
  import opened Json

  /** The key "__proto__". */
  const PROTO: Text := Ascii("__proto__")

  // ----- The order in which an object enumerates sorted keys -----

  predicate EnumLess(a: Text, b: Text) {
    match (ArrayIndex(a), ArrayIndex(b))
    case (Some(i), Some(j)) => i < j
    case (Some(_), None) => true
    case (None, Some(_)) => false
    case (None, None) => Less(a, b)
  }

  lemma EnumLessIsStrictTotal(a: Text, b: Text, c: Text)
    ensures !EnumLess(a, a)
    ensures a == b || EnumLess(a, b) || EnumLess(b, a)
    ensures EnumLess(a, b) && EnumLess(b, c) ==> EnumLess(a, c)
  {
    LessIrreflexive(a);
    LessTotal(a, b);
    if ArrayIndex(a).Some? && ArrayIndex(a) == ArrayIndex(b) {
      ArrayIndexInjective(a, b);
    }
    if Less(a, b) && Less(b, c) {
      LessTransitive(a, b, c);
    }
  }

  /** Array indices come first, in numeric order; the other keys follow in the order of their code units. */
  lemma IndicesFirst(i: nat, j: nat, a: Text, b: Text)
    requires i < 4_294_967_295 && j < 4_294_967_295
    requires (forall n: nat | n < 4_294_967_295 :: a != Decimal(n)) && forall n: nat | n < 4_294_967_295 :: b != Decimal(n)
    ensures EnumLess(Decimal(i), Decimal(j)) <==> i < j
    ensures EnumLess(Decimal(i), a) && !EnumLess(a, Decimal(i))
    ensures EnumLess(a, b) <==> exists d: nat :: FirstDifference(a, b, d)
  {
    ArrayIndexExactly(Decimal(i), i);
    ArrayIndexExactly(Decimal(j), j);
    if ArrayIndex(a).Some? { ArrayIndexExactly(a, ArrayIndex(a).value); }
    if ArrayIndex(b).Some? { ArrayIndexExactly(b, ArrayIndex(b).value); }
    LessExactly(a, b);
  }

  /** Assigning a property of a plain object: where the member ends up in the enumeration order. */
  function SetOwn(ms: seq<Member>, k: Text, v: Value): seq<Member> {
    if k == PROTO then ms
    else if k in KeySet(ms) then Replace(ms, k, v)
    else if ArrayIndex(k).Some? then InsertIndex(ms, k, v)
    else ms + [Member(k, v)]
  }

  function Replace(ms: seq<Member>, k: Text, v: Value): seq<Member> {
    if ms == [] then [] else if ms[0].key == k then [Member(k, v)] + ms[1..] else [ms[0]] + Replace(ms[1..], k, v)
  }

  function InsertIndex(ms: seq<Member>, k: Text, v: Value): seq<Member>
    requires ArrayIndex(k).Some?
  {
    if ms != [] && ArrayIndex(ms[0].key).Some? && ArrayIndex(ms[0].key).value < ArrayIndex(k).value
    then [ms[0]] + InsertIndex(ms[1..], k, v)
    else [Member(k, v)] + ms
  }

  // ----- The canonical form -----

  function Insert(m: Member, ms: seq<Member>): seq<Member> {
    if ms != [] && EnumLess(ms[0].key, m.key) then [ms[0]] + Insert(m, ms[1..]) else [m] + ms
  }

  function Canon(v: Value): Value {
    match v
    case Leaf(_) => v
    case Arr(items) => Arr(CanonItems(items))
    case Obj(members) => Obj(CanonMembers(members))
  }

  function CanonItems(items: seq<Value>): (r: seq<Value>)
    ensures |r| == |items|
  {
    if items == [] then [] else [Canon(items[0])] + CanonItems(items[1..])
  }

  function CanonMembers(ms: seq<Member>): seq<Member> {
    if ms == [] then []
    else if ms[0].key == PROTO then CanonMembers(ms[1..])
    else Insert(Member(ms[0].key, Canon(ms[0].value)), CanonMembers(ms[1..]))
  }

  function CanonText(v: Value): Text {
    Print(Canon(v))
  }

  // ----- What a value is once the order of its keys is forgotten -----

  datatype Tree = Atom(scalar: Scalar) | List(items: seq<Tree>) | Dict(entries: map<Text, Tree>)

  /** The value without the order of its keys, and without `__proto__` members. */
  function Forget(v: Value): Tree {
    match v
    case Leaf(s) => Atom(s)
    case Arr(items) => List(ForgetItems(items))
    case Obj(members) => Dict(ForgetMembers(members))
  }

  function ForgetItems(items: seq<Value>): (r: seq<Tree>)
    ensures |r| == |items|
  {
    if items == [] then [] else [Forget(items[0])] + ForgetItems(items[1..])
  }

  function ForgetMembers(ms: seq<Member>): map<Text, Tree> {
    if ms == [] then map[]
    else if ms[0].key == PROTO then ForgetMembers(ms[1..])
    else ForgetMembers(ms[1..])[ms[0].key := Forget(ms[0].value)]
  }

  lemma {:induction false} ForgetMembersKeys(ms: seq<Member>)
    ensures ForgetMembers(ms).Keys == KeySet(ms) - {PROTO}
  {
    if ms != [] {
      ForgetMembersKeys(ms[1..]);
      KeySetCons(ms);
    }
  }

  lemma KeySetCons(ms: seq<Member>)
    requires ms != []
    ensures KeySet(ms) == {ms[0].key} + KeySet(ms[1..])
  {
    assert ms == [ms[0]] + ms[1..];
    assert ms[0] in ms;
  }

  // ----- Canonical values -----

  predicate Sorted(ms: seq<Member>) {
    forall i, j :: 0 <= i < j < |ms| ==> EnumLess(ms[i].key, ms[j].key)
  }

  predicate IsCanonical(v: Value) {
    match v
    case Leaf(_) => true
    case Arr(items) => forall x | x in items :: IsCanonical(x)
    case Obj(members) => Sorted(members) && PROTO !in KeySet(members) && forall m | m in members :: IsCanonical(m.value)
  }

  lemma {:induction false} InsertKeepsSorted(m: Member, ms: seq<Member>)
    requires Sorted(ms) && m.key !in KeySet(ms)
    ensures Sorted(Insert(m, ms))
    ensures forall x :: x in Insert(m, ms) <==> x == m || x in ms
  {
    if ms != [] {
      KeySetCons(ms);
      EnumLessIsStrictTotal(ms[0].key, m.key, m.key);
      if EnumLess(ms[0].key, m.key) {
        var rest := Insert(m, ms[1..]);
        InsertKeepsSorted(m, ms[1..]);
        forall j | 0 <= j < |rest| ensures EnumLess(ms[0].key, rest[j].key) {
          assert rest[j] in rest;
          if rest[j] != m {
            var i :| 0 <= i < |ms[1..]| && ms[1..][i] == rest[j];
            assert ms[i + 1] == rest[j];
          }
        }
        assert ms == [ms[0]] + ms[1..];
      } else {
        forall j | 0 <= j < |ms| ensures EnumLess(m.key, ms[j].key) {
          EnumLessIsStrictTotal(m.key, ms[0].key, ms[j].key);
        }
      }
    }
  }

  lemma {:induction false} CanonIsCanonical(v: Value)
    requires WellFormed(v)
    ensures IsCanonical(Canon(v))
    decreases v
  {
    match v
    case Leaf(_) =>
    case Arr(items) => CanonItemsCanonical(items);
    case Obj(members) => CanonMembersSorted(members);
  }

  lemma {:induction false} CanonItemsCanonical(items: seq<Value>)
    requires forall x | x in items :: WellFormed(x)
    ensures forall x | x in CanonItems(items) :: IsCanonical(x)
    decreases items
  {
    if items != [] {
      CanonIsCanonical(items[0]);
      CanonItemsCanonical(items[1..]);
    }
  }

  lemma {:induction false} CanonMembersSorted(ms: seq<Member>)
    requires WellFormedMembers(ms)
    ensures Sorted(CanonMembers(ms)) && KeySet(CanonMembers(ms)) == KeySet(ms) - {PROTO}
    ensures forall m | m in CanonMembers(ms) :: IsCanonical(m.value)
    decreases ms
  {
    if ms != [] {
      KeySetCons(ms);
      CanonMembersSorted(ms[1..]);
      if ms[0].key != PROTO {
        CanonIsCanonical(ms[0].value);
        var m, rest := Member(ms[0].key, Canon(ms[0].value)), CanonMembers(ms[1..]);
        InsertKeepsSorted(m, rest);
        assert KeySet(Insert(m, rest)) == {m.key} + KeySet(rest);
      }
    }
  }

  lemma {:induction false} ForgetInsert(m: Member, ms: seq<Member>)
    requires m.key !in KeySet(ms) && m.key != PROTO
    ensures ForgetMembers(Insert(m, ms)) == ForgetMembers(ms)[m.key := Forget(m.value)]
  {
    if ms != [] && EnumLess(ms[0].key, m.key) {
      KeySetCons(ms);
      ForgetInsert(m, ms[1..]);
      assert ([ms[0]] + Insert(m, ms[1..]))[1..] == Insert(m, ms[1..]);
    } else {
      assert ([m] + ms)[1..] == ms;
    }
  }

  /** Canonicalizing changes nothing but the order of keys (and drops `__proto__`). */
  lemma {:induction false} CanonPreserves(v: Value)
    requires WellFormed(v)
    ensures Forget(Canon(v)) == Forget(v)
    decreases v
  {
    match v
    case Leaf(_) =>
    case Arr(items) => CanonItemsPreserves(items);
    case Obj(members) => CanonMembersPreserves(members);
  }

  lemma {:induction false} CanonItemsPreserves(items: seq<Value>)
    requires forall x | x in items :: WellFormed(x)
    ensures ForgetItems(CanonItems(items)) == ForgetItems(items)
    decreases items
  {
    if items != [] {
      CanonPreserves(items[0]);
      CanonItemsPreserves(items[1..]);
      assert CanonItems(items)[1..] == CanonItems(items[1..]);
    }
  }

  lemma {:induction false} CanonMembersPreserves(ms: seq<Member>)
    requires WellFormedMembers(ms)
    ensures ForgetMembers(CanonMembers(ms)) == ForgetMembers(ms)
    decreases ms
  {
    if ms != [] {
      CanonMembersPreserves(ms[1..]);
      if ms[0].key != PROTO {
        CanonPreserves(ms[0].value);
        CanonMembersSorted(ms[1..]);
        ForgetInsert(Member(ms[0].key, Canon(ms[0].value)), CanonMembers(ms[1..]));
      }
    }
  }

  /** A canonical value is determined by what it is up to key order. */
  lemma {:induction false} CanonicalUnique(a: Value, b: Value)
    requires IsCanonical(a) && IsCanonical(b) && Forget(a) == Forget(b)
    ensures a == b
    decreases a
  {
    match (a, b)
    case (Leaf(_), Leaf(_)) =>
    case (Arr(xs), Arr(ys)) => CanonicalItemsUnique(xs, ys);
    case (Obj(xs), Obj(ys)) => CanonicalMembersUnique(xs, ys);
    case _ => assert false;
  }

  lemma {:induction false} CanonicalItemsUnique(xs: seq<Value>, ys: seq<Value>)
    requires forall x | x in xs :: IsCanonical(x)
    requires forall y | y in ys :: IsCanonical(y)
    requires ForgetItems(xs) == ForgetItems(ys)
    ensures xs == ys
    decreases xs
  {
    if xs != [] {
      assert ForgetItems(xs)[0] == ForgetItems(ys)[0];
      assert ForgetItems(xs)[1..] == ForgetItems(xs[1..]);
      assert ForgetItems(ys)[1..] == ForgetItems(ys[1..]);
      CanonicalUnique(xs[0], ys[0]);
      CanonicalItemsUnique(xs[1..], ys[1..]);
      assert xs == [xs[0]] + xs[1..] && ys == [ys[0]] + ys[1..];
    }
  }

  lemma SortedHeadIsLeast(ms: seq<Member>)
    requires Sorted(ms) && ms != []
    ensures Sorted(ms[1..]) && ms[0].key !in KeySet(ms[1..])
    ensures forall k | k in KeySet(ms) :: k == ms[0].key || EnumLess(ms[0].key, k)
  {
    EnumLessIsStrictTotal(ms[0].key, ms[0].key, ms[0].key);
    forall m | m in ms[1..] ensures EnumLess(ms[0].key, m.key) {
      var i :| 0 <= i < |ms[1..]| && ms[1..][i] == m;
      assert ms[i + 1] == m;
    }
    KeySetCons(ms);
  }

  lemma ForgetMembersHead(ms: seq<Member>)
    requires ms != [] && ms[0].key != PROTO && ms[0].key !in KeySet(ms[1..])
    ensures ForgetMembers(ms).Keys == KeySet(ms) - {PROTO}
    ensures ForgetMembers(ms)[ms[0].key] == Forget(ms[0].value)
    ensures ForgetMembers(ms) - {ms[0].key} == ForgetMembers(ms[1..])
  {
    KeySetCons(ms);
    ForgetMembersKeys(ms);
    ForgetMembersKeys(ms[1..]);
  }

  lemma {:induction false} CanonicalMembersUnique(xs: seq<Member>, ys: seq<Member>)
    requires Sorted(xs) && PROTO !in KeySet(xs) && forall m | m in xs :: IsCanonical(m.value)
    requires Sorted(ys) && PROTO !in KeySet(ys) && forall m | m in ys :: IsCanonical(m.value)
    requires ForgetMembers(xs) == ForgetMembers(ys)
    ensures xs == ys
    decreases xs
  {
    ForgetMembersKeys(xs);
    ForgetMembersKeys(ys);
    assert KeySet(xs) == KeySet(ys) by {
      assert KeySet(xs) == KeySet(xs) - {PROTO} == KeySet(ys) - {PROTO} == KeySet(ys);
    }
    assert xs != [] ==> xs[0].key in KeySet(xs);
    assert ys != [] ==> ys[0].key in KeySet(ys);
    if xs != [] {
      KeySetCons(xs);
      KeySetCons(ys);
      SortedHeadIsLeast(xs);
      SortedHeadIsLeast(ys);
      EnumLessIsStrictTotal(xs[0].key, ys[0].key, xs[0].key);
      var k := xs[0].key;
      assert k == ys[0].key;
      ForgetMembersHead(xs);
      ForgetMembersHead(ys);
      CanonicalUnique(xs[0].value, ys[0].value);
      CanonicalMembersUnique(xs[1..], ys[1..]);
      assert xs == [xs[0]] + xs[1..] && ys == [ys[0]] + ys[1..];
    }
  }

  // ----- Main results -----

  /**
   The canonical text determines a value up to key order, and does not depend on key order:
   the text is equal exactly when the values agree after forgetting the order of keys.
   */
  lemma CanonTextCharacterizes(a: Value, b: Value)
    requires WellFormed(a) && WellFormed(b)
    ensures CanonText(a) == CanonText(b) <==> Forget(a) == Forget(b)
  {
    CanonPreserves(a);
    CanonPreserves(b);
    if CanonText(a) == CanonText(b) {
      PrintInjective(Canon(a), Canon(b));
    }
    if Forget(a) == Forget(b) {
      CanonIsCanonical(a);
      CanonIsCanonical(b);
      CanonicalUnique(Canon(a), Canon(b));
    }
  }

  lemma CanonIdempotent(v: Value)
    requires WellFormed(v)
    ensures Canon(Canon(v)) == Canon(v)
  {
    CanonIsCanonical(v);
    CanonFixed(Canon(v));
  }

  /** A canonical value is its own canonical form. */
  lemma {:induction false} CanonFixed(v: Value)
    requires IsCanonical(v)
    ensures Canon(v) == v
    decreases v
  {
    match v
    case Leaf(_) =>
    case Arr(items) => CanonFixedItems(items);
    case Obj(members) => CanonFixedMembers(members);
  }

  lemma {:induction false} CanonFixedItems(items: seq<Value>)
    requires forall x | x in items :: IsCanonical(x)
    ensures CanonItems(items) == items
    decreases items
  {
    if items != [] {
      CanonFixed(items[0]);
      CanonFixedItems(items[1..]);
    }
  }

  lemma {:induction false} CanonFixedMembers(ms: seq<Member>)
    requires Sorted(ms) && PROTO !in KeySet(ms) && forall m | m in ms :: IsCanonical(m.value)
    ensures CanonMembers(ms) == ms
    decreases ms
  {
    if ms != [] {
      KeySetCons(ms);
      CanonFixed(ms[0].value);
      CanonFixedMembers(ms[1..]);
      SortedHeadIsLeast(ms);
      if |ms| > 1 {
        EnumLessIsStrictTotal(ms[0].key, ms[1].key, ms[0].key);
      }
      assert ms == [Member(ms[0].key, ms[0].value)] + ms[1..];
    }
  }

  // ----- The same facts against an independent notion of "equal up to key order" -----

  /** No `__proto__` member occurs anywhere in the value. */
  predicate NoProto(v: Value) {
    match v
    case Leaf(_) => true
    case Arr(items) => forall x | x in items :: NoProto(x)
    case Obj(members) => forall m | m in members :: m.key != PROTO && NoProto(m.value)
  }

  /** Equal when the keys of objects, at any depth, may be listed in another order. */
  predicate SameUpToOrder(a: Value, b: Value) {
    match (a, b)
    case (Leaf(s), Leaf(t)) => s == t
    case (Arr(xs), Arr(ys)) => |xs| == |ys| && forall i | 0 <= i < |xs| :: SameUpToOrder(xs[i], ys[i])
    case (Obj(xs), Obj(ys)) =>
      KeySet(xs) == KeySet(ys) &&
      forall m | m in xs :: Lookup(ys, m.key).Some? && SameUpToOrder(m.value, Lookup(ys, m.key).value)
    case _ => false
  }

  lemma {:induction false} ForgetItemAt(items: seq<Value>, i: nat)
    requires i < |items|
    ensures ForgetItems(items)[i] == Forget(items[i])
  {
    if i > 0 {
      ForgetItemAt(items[1..], i - 1);
    }
  }

  lemma {:induction false} ForgetMemberAt(ms: seq<Member>, k: Text)
    requires WellFormedMembers(ms) && k in KeySet(ms) && k != PROTO
    ensures k in ForgetMembers(ms) && Lookup(ms, k).Some? && WellFormed(Lookup(ms, k).value)
    ensures ForgetMembers(ms)[k] == Forget(Lookup(ms, k).value)
  {
    KeySetCons(ms);
    if ms[0].key != k {
      ForgetMemberAt(ms[1..], k);
    }
  }

  lemma {:induction false} MemberLookup(ms: seq<Member>, m: Member)
    requires WellFormedMembers(ms) && m in ms
    ensures Lookup(ms, m.key) == Some(m.value) && WellFormed(m.value)
  {
    assert ms == [ms[0]] + ms[1..];
    if m != ms[0] {
      assert m.key in KeySet(ms[1..]);
      MemberLookup(ms[1..], m);
    }
  }

  lemma {:induction false} ForgetIsOrderBlind(a: Value, b: Value)
    requires WellFormed(a) && WellFormed(b) && NoProto(a) && NoProto(b)
    ensures Forget(a) == Forget(b) <==> SameUpToOrder(a, b)
    decreases a
  {
    match (a, b)
    case (Arr(xs), Arr(ys)) =>
      if |xs| == |ys| {
        forall i | 0 <= i < |xs|
          ensures ForgetItems(xs)[i] == ForgetItems(ys)[i] <==> SameUpToOrder(xs[i], ys[i])
        {
          ForgetItemAt(xs, i);
          ForgetItemAt(ys, i);
          ForgetIsOrderBlind(xs[i], ys[i]);
        }
      }
    case (Obj(xs), Obj(ys)) =>
      ForgetMembersKeys(xs);
      ForgetMembersKeys(ys);
      assert PROTO !in KeySet(xs) && PROTO !in KeySet(ys);
      assert KeySet(xs) - {PROTO} == KeySet(xs) && KeySet(ys) - {PROTO} == KeySet(ys);
      if KeySet(xs) == KeySet(ys) {
        forall m | m in xs
          ensures Lookup(ys, m.key).Some? && m.key in ForgetMembers(xs) && m.key in ForgetMembers(ys)
          ensures ForgetMembers(xs)[m.key] == ForgetMembers(ys)[m.key] <==> SameUpToOrder(m.value, Lookup(ys, m.key).value)
        {
          assert m.key in KeySet(xs);
          MemberLookup(xs, m);
          ForgetMemberAt(xs, m.key);
          ForgetMemberAt(ys, m.key);
          LookupFinds(ys, m.key);
          ForgetIsOrderBlind(m.value, Lookup(ys, m.key).value);
        }
        if SameUpToOrder(a, b) {
          forall k | k in ForgetMembers(xs) ensures ForgetMembers(xs)[k] == ForgetMembers(ys)[k] {
            LookupFinds(xs, k);
          }
          assert ForgetMembers(xs) == ForgetMembers(ys);
        }
        if Forget(a) == Forget(b) {
          assert ForgetMembers(xs) == ForgetMembers(ys);
        }
      }
    case _ =>
  }

  /**
   Canonical texts of values without `__proto__` members are equal exactly when the values are
   the same up to the order of their keys.
   */
  lemma CanonTextEqualIffSame(a: Value, b: Value)
    requires WellFormed(a) && WellFormed(b) && NoProto(a) && NoProto(b)
    ensures CanonText(a) == CanonText(b) <==> SameUpToOrder(a, b)
  {
    CanonTextCharacterizes(a, b);
    ForgetIsOrderBlind(a, b);
  }

  /** Without the condition the claim fails: an object with a `__proto__` member prints as `{}`. */
  lemma ProtoMemberIsLost()
    ensures var a, b := Obj([Member(Ascii("__proto__"), Obj([]))]), Obj([]);
      WellFormed(a) && WellFormed(b) && CanonText(a) == CanonText(b) && !SameUpToOrder(a, b)
  {
    var a: seq<Member>, b: seq<Member> := [Member(Ascii("__proto__"), Obj([]))], [];
    assert a[0].key in KeySet(a);
    assert CanonMembers(a) == [];
  }

  lemma {:induction false} CanonicalHasNoProto(v: Value)
    requires IsCanonical(v)
    ensures NoProto(v) && WellFormed(v)
    decreases v
  {
    match v
    case Leaf(_) =>
    case Arr(items) =>
      forall x | x in items ensures NoProto(x) && WellFormed(x) { CanonicalHasNoProto(x); }
    case Obj(members) =>
      forall m | m in members ensures m.key != PROTO && NoProto(m.value) {
        assert m.key in KeySet(members);
        CanonicalHasNoProto(m.value);
      }
      CanonicalMembersWellFormed(members);
  }

  lemma {:induction false} CanonicalMembersWellFormed(ms: seq<Member>)
    requires Sorted(ms) && PROTO !in KeySet(ms) && forall m | m in ms :: IsCanonical(m.value)
    ensures WellFormedMembers(ms)
    decreases ms
  {
    if ms != [] {
      SortedHeadIsLeast(ms);
      KeySetCons(ms);
      CanonicalHasNoProto(ms[0].value);
      CanonicalMembersWellFormed(ms[1..]);
    }
  }

  lemma {:induction false} SameKeepsNoProto(a: Value, b: Value)
    requires WellFormed(b) && SameUpToOrder(a, b) && NoProto(a)
    ensures NoProto(b)
    decreases a
  {
    match (a, b)
    case (Arr(xs), Arr(ys)) =>
      forall y | y in ys ensures NoProto(y) {
        var i :| 0 <= i < |ys| && ys[i] == y;
        SameKeepsNoProto(xs[i], y);
      }
    case (Obj(xs), Obj(ys)) =>
      forall n | n in ys ensures n.key != PROTO && NoProto(n.value) {
        assert n.key in KeySet(xs);
        var m :| m in xs && m.key == n.key;
        MemberLookup(ys, n);
        SameKeepsNoProto(m.value, n.value);
      }
    case _ =>
  }

  /** Exactly the values without `__proto__` members survive canonicalization, up to key order. */
  lemma CanonLosesOnlyProto(v: Value)
    requires WellFormed(v)
    ensures SameUpToOrder(Canon(v), v) <==> NoProto(v)
  {
    CanonIsCanonical(v);
    CanonicalHasNoProto(Canon(v));
    if NoProto(v) {
      CanonPreserves(v);
      ForgetIsOrderBlind(Canon(v), v);
    } else if SameUpToOrder(Canon(v), v) {
      SameKeepsNoProto(Canon(v), v);
    }
  }

  // ----- The source's loop -----

  function Keys(ms: seq<Member>): seq<Text> {
    seq(|ms|, i requires 0 <= i < |ms| => ms[i].key)
  }

  function InsertKey(k: Text, ks: seq<Text>): seq<Text> {
    if ks != [] && Less(ks[0], k) then [ks[0]] + InsertKey(k, ks[1..]) else [k] + ks
  }

  /** Sorting without a comparison function, so in the default order of strings. */
  function SortKeys(ks: seq<Text>): seq<Text> {
    if ks == [] then [] else InsertKey(ks[0], SortKeys(ks[1..]))
  }

  predicate Ascending(ks: seq<Text>) {
    forall i, j :: 0 <= i < j < |ks| ==> ks[i] == ks[j] || Less(ks[i], ks[j])
  }

  predicate DistinctKeys(ks: seq<Text>) {
    forall i, j :: 0 <= i < j < |ks| ==> ks[i] != ks[j]
  }

  lemma {:induction false} InsertKeySorts(k: Text, ks: seq<Text>)
    requires Ascending(ks)
    ensures Ascending(InsertKey(k, ks)) && multiset(InsertKey(k, ks)) == multiset(ks) + multiset{k}
  {
    if ks != [] {
      var rest, out := ks[1..], InsertKey(k, ks);
      assert ks == [ks[0]] + rest;
      if Less(ks[0], k) {
        var tail := InsertKey(k, rest);
        InsertKeySorts(k, rest);
        forall j | 0 <= j < |tail| ensures ks[0] == tail[j] || Less(ks[0], tail[j]) {
          assert tail[j] in multiset(rest) + multiset{k};
          if tail[j] != k {
            assert tail[j] in rest;
          }
        }
      } else {
        LessTotal(ks[0], k);
        forall j | 0 <= j < |ks| ensures k == ks[j] || Less(k, ks[j]) {
          if Less(k, ks[0]) && Less(ks[0], ks[j]) {
            LessTransitive(k, ks[0], ks[j]);
          }
        }
      }
    }
  }

  lemma {:induction false} SortKeysSorts(ks: seq<Text>)
    ensures Ascending(SortKeys(ks)) && multiset(SortKeys(ks)) == multiset(ks)
  {
    if ks != [] {
      SortKeysSorts(ks[1..]);
      InsertKeySorts(ks[0], SortKeys(ks[1..]));
      assert ks == [ks[0]] + ks[1..];
    }
  }

  lemma DistinctMultiset(ks: seq<Text>)
    requires forall k :: multiset(ks)[k] <= 1
    ensures DistinctKeys(ks)
  {
    forall i, j | 0 <= i < j < |ks| ensures ks[i] != ks[j] {
      var head, tail := ks[..i + 1], ks[i + 1..];
      assert ks == head + tail;
      assert head[i] == ks[i] && tail[j - i - 1] == ks[j];
      assert multiset(ks) == multiset(head) + multiset(tail);
      assert ks[i] in multiset(head) && ks[j] in multiset(tail);
      assert multiset(ks)[ks[i]] == multiset(head)[ks[i]] + multiset(tail)[ks[i]];
    }
  }

  lemma {:induction false} KeysOfWellFormed(ms: seq<Member>)
    requires WellFormedMembers(ms)
    ensures forall k :: multiset(Keys(ms))[k] <= 1
    ensures forall k :: k in Keys(ms) <==> k in KeySet(ms)
  {
    if ms != [] {
      KeysOfWellFormed(ms[1..]);
      KeySetCons(ms);
      assert Keys(ms) == [ms[0].key] + Keys(ms[1..]);
    }
  }

  lemma {:induction false} SortedUnique(xs: seq<Member>, ys: seq<Member>)
    requires Sorted(xs) && Sorted(ys) && forall m :: m in xs <==> m in ys
    ensures xs == ys
  {
    if xs != [] || ys != [] {
      assert xs != [] ==> xs[0] in ys;
      assert ys != [] ==> ys[0] in xs;
      SortedHeadIsLeast(xs);
      SortedHeadIsLeast(ys);
      assert xs[0].key in KeySet(ys) && ys[0].key in KeySet(xs);
      EnumLessIsStrictTotal(xs[0].key, ys[0].key, xs[0].key);
      assert xs == [xs[0]] + xs[1..] && ys == [ys[0]] + ys[1..];
      assert xs[0] == ys[0] by {
        var i :| 0 <= i < |ys| && ys[i] == xs[0];
        assert i == 0;
      }
      forall m ensures m in xs[1..] <==> m in ys[1..] {
        assert m in xs[1..] ==> m.key in KeySet(xs[1..]) && m in xs && m in ys;
        assert m in ys[1..] ==> m.key in KeySet(ys[1..]) && m in ys && m in xs;
      }
      SortedUnique(xs[1..], ys[1..]);
    }
  }

  lemma {:induction false} CanonMembersAre(ms: seq<Member>, m: Member)
    requires WellFormedMembers(ms)
    ensures m in CanonMembers(ms) <==>
            m.key != PROTO && Lookup(ms, m.key).Some? && m.value == Canon(Lookup(ms, m.key).value)
  {
    if ms != [] {
      KeySetCons(ms);
      CanonMembersSorted(ms[1..]);
      CanonMembersAre(ms[1..], m);
      LookupFinds(ms[1..], ms[0].key);
      if ms[0].key != PROTO {
        InsertKeepsSorted(Member(ms[0].key, Canon(ms[0].value)), CanonMembers(ms[1..]));
      }
    }
  }

  /** Assigning keys in ascending order to a fresh object enumerates them in `EnumLess` order. */
  lemma {:induction false} SetOwnAscending(ms: seq<Member>, k: Text, v: Value)
    requires Sorted(ms) && k !in KeySet(ms) && k != PROTO
    requires forall m | m in ms :: Less(m.key, k)
    ensures SetOwn(ms, k, v) == Insert(Member(k, v), ms)
  {
    if ms != [] {
      KeySetCons(ms);
      SetOwnAscending(ms[1..], k, v);
      EnumLessIsStrictTotal(ms[0].key, k, k);
      assert Less(ms[0].key, k);
      assert ms + [Member(k, v)] == [ms[0]] + (ms[1..] + [Member(k, v)]);
      if ArrayIndex(k).Some? && !EnumLess(ms[0].key, k) {
        assert SetOwn(ms, k, v) == [Member(k, v)] + ms;
      }
    }
  }

  /** The object built so far holds the canonical forms of the members named by `done`. */
  ghost predicate Collected(ms: seq<Member>, done: seq<Text>, out: seq<Member>) {
    Sorted(out) &&
    forall m :: m in out <==> m.key != PROTO && m.key in done && Lookup(ms, m.key).Some? &&
                              m.value == Canon(Lookup(ms, m.key).value)
  }

  lemma CollectedStep(ms: seq<Member>, keys: seq<Text>, i: nat, out: seq<Member>)
    requires Ascending(keys) && DistinctKeys(keys) && i < |keys| && Collected(ms, keys[..i], out)
    requires Lookup(ms, keys[i]).Some?
    ensures Collected(ms, keys[..i + 1], SetOwn(out, keys[i], Canon(Lookup(ms, keys[i]).value)))
  {
    var k, c := keys[i], Canon(Lookup(ms, keys[i]).value);
    assert keys[..i + 1] == keys[..i] + [k];
    assert k !in keys[..i];
    if k != PROTO {
      forall m | m in out ensures Less(m.key, k) {
        var j :| 0 <= j < i && keys[j] == m.key;
      }
      SetOwnAscending(out, k, c);
      InsertKeepsSorted(Member(k, c), out);
    }
  }

  lemma CollectedAll(ms: seq<Member>, keys: seq<Text>, out: seq<Member>)
    requires WellFormedMembers(ms) && Collected(ms, keys, out)
    requires forall k :: k in keys <==> k in KeySet(ms)
    ensures out == CanonMembers(ms)
  {
    forall m ensures m in out <==> m in CanonMembers(ms) {
      CanonMembersAre(ms, m);
      LookupFinds(ms, m.key);
    }
    CanonMembersSorted(ms);
    SortedUnique(out, CanonMembers(ms));
  }

  lemma SortedKeysOf(ms: seq<Member>)
    requires WellFormedMembers(ms)
    ensures var keys := SortKeys(Keys(ms));
      Ascending(keys) && DistinctKeys(keys) && forall k :: k in keys <==> k in KeySet(ms)
  {
    var keys := SortKeys(Keys(ms));
    SortKeysSorts(Keys(ms));
    KeysOfWellFormed(ms);
    DistinctMultiset(keys);
    forall k ensures k in keys <==> k in KeySet(ms) {
      assert k in keys <==> k in multiset(keys);
      assert k in Keys(ms) <==> k in multiset(Keys(ms));
    }
  }

  /** The source's `canonicalize`: map over arrays, assign the sorted keys of objects to a fresh one. */
  method Canonicalize(v: Value) returns (r: Value)
    requires WellFormed(v)
    ensures r == Canon(v)
    decreases v
  {
    match v
    case Leaf(_) => r := v;
    case Arr(items) =>
      var out := [];
      for i := 0 to |items|
        invariant out == CanonItems(items[..i])
      {
        var x := Canonicalize(items[i]);
        CanonItemsSnoc(items[..i], items[i]);
        assert items[..i] + [items[i]] == items[..i + 1];
        out := out + [x];
      }
      assert items[..|items|] == items;
      r := Arr(out);
    case Obj(members) =>
      var keys := SortKeys(Keys(members));
      SortedKeysOf(members);
      var sorted := [];
      for i := 0 to |keys|
        invariant Collected(members, keys[..i], sorted)
      {
        var k := keys[i];
        LookupFinds(members, k);
        var x := Lookup(members, k).value;
        MemberLookup(members, Member(k, x));
        var c := Canonicalize(x);
        CollectedStep(members, keys, i, sorted);
        sorted := SetOwn(sorted, k, c);
      }
      assert keys[..|keys|] == keys;
      CollectedAll(members, keys, sorted);
      r := Obj(sorted);
  }

  lemma {:induction false} CanonItemsSnoc(items: seq<Value>, x: Value)
    ensures CanonItems(items + [x]) == CanonItems(items) + [Canon(x)]
  {
    if items == [] {
      assert [x][1..] == [];
    } else {
      CanonItemsSnoc(items[1..], x);
      assert (items + [x])[1..] == items[1..] + [x];
    }
  }
}
