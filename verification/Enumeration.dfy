/**
 The enumeration order of plain objects: array-index keys first, in numeric order, then the other
 keys as they were created. Copying an object key by key into a fresh `{}` keeps that order.
 */
module Enumeration {
  import opened Texts
  import opened Json
  import opened Canonical

  /** Key `a` may be enumerated before key `b`. */
  predicate Before(a: Text, b: Text) {
    a != b && (ArrayIndex(b).Some? ==> ArrayIndex(a).Some? && ArrayIndex(a).value < ArrayIndex(b).value)
  }

  predicate Enumerable(ms: seq<Member>) {
    forall i, j :: 0 <= i < j < |ms| ==> Before(ms[i].key, ms[j].key)
  }

  /** Every object in the value enumerates its keys as a JavaScript object does. */
  predicate InOwnOrder(v: Value) {
    match v
    case Leaf(_) => true
    case Arr(items) => forall x | x in items :: InOwnOrder(x)
    case Obj(members) => Enumerable(members) && forall m | m in members :: InOwnOrder(m.value)
  }

  lemma {:induction false} InsertIndexLast(out: seq<Member>, k: Text, v: Value)
    requires ArrayIndex(k).Some? && forall x | x in out :: Before(x.key, k)
    ensures InsertIndex(out, k, v) == out + [Member(k, v)]
  {
    if out != [] {
      InsertIndexLast(out[1..], k, v);
      assert out[0] in out;
      assert out + [Member(k, v)] == [out[0]] + (out[1..] + [Member(k, v)]);
    }
  }

  /** Assigning a key that comes last appends it, except for `__proto__`. */
  lemma SetOwnLast(out: seq<Member>, k: Text, v: Value)
    requires forall x | x in out :: Before(x.key, k)
    ensures SetOwn(out, k, v) == if k == PROTO then out else out + [Member(k, v)]
  {
    if k != PROTO && ArrayIndex(k).Some? {
      InsertIndexLast(out, k, v);
    }
  }

  /** The keys of `out` are among those of the first `i` members. */
  lemma KeysComeBefore(out: seq<Member>, ms: seq<Member>, i: nat)
    requires i < |ms| && Enumerable(ms) && KeySet(out) <= KeySet(ms[..i])
    ensures forall x | x in out :: Before(x.key, ms[i].key)
  {
    forall x | x in out ensures Before(x.key, ms[i].key) {
      assert x.key in KeySet(ms[..i]);
      var j :| 0 <= j < i && ms[j].key == x.key;
    }
  }
}
