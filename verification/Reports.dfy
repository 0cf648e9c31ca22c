/**
 The sanitizer's walk over a JSON value and its report. Both implementations walk alike, whatever
 they do to one string, so the string part is a parameter here.
 */
module Reports {
  import opened Texts
  import opened Json
  import opened Canonical
  import opened Pointers
  import opened Stripping

  datatype Finding = Finding(path: Text, kind: Kind, count: nat)

  /** What a sanitizer does to one string, and what it reports about it. */
  datatype Cleaner = Cleaner(clean: Text -> Text, tallies: Text -> seq<Tally>)

  ghost predicate OneTallyPerKind(c: Cleaner) {
    forall t :: DistinctKinds(c.tallies(t))
  }

  // ----- Findings in the order of the walk -----

  function Located(path: Text, tallies: seq<Tally>): (fs: seq<Finding>)
    ensures |fs| == |tallies|
    ensures forall i :: 0 <= i < |fs| ==> fs[i] == Finding(path, tallies[i].kind, tallies[i].count)
  {
    if tallies == [] then [] else [Finding(path, tallies[0].kind, tallies[0].count)] + Located(path, tallies[1..])
  }

  function Findings(c: Cleaner, v: Value, keys: seq<Text>): seq<Finding>
    decreases v
  {
    match v
    case Leaf(Str(s)) => Located(PathOf(keys), c.tallies(s))
    case Leaf(_) => []
    case Arr(items) => FindingsFrom(c, items, keys, 0)
    case Obj(members) => FindingsOf(c, members, keys)
  }

  function FindingsFrom(c: Cleaner, items: seq<Value>, keys: seq<Text>, i: nat): seq<Finding>
    requires i <= |items|
    decreases items, |items| - i
  {
    if i == |items| then [] else Findings(c, items[i], keys + [Decimal(i)]) + FindingsFrom(c, items, keys, i + 1)
  }

  function FindingsOf(c: Cleaner, ms: seq<Member>, keys: seq<Text>): seq<Finding>
    decreases ms
  {
    if ms == [] then [] else Findings(c, ms[0].value, keys + [ms[0].key]) + FindingsOf(c, ms[1..], keys)
  }

  lemma FindingsStep(c: Cleaner, members: seq<Member>, i: nat, keys: seq<Text>, found: seq<Finding>)
    requires i < |members|
    ensures found + FindingsOf(c, members[i..], keys) ==
      found + Findings(c, members[i].value, keys + [members[i].key]) + FindingsOf(c, members[i + 1..], keys)
  {
    var a, b := Findings(c, members[i].value, keys + [members[i].key]), FindingsOf(c, members[i + 1..], keys);
    assert members[i..][0] == members[i] && members[i..][1..] == members[i + 1..];
    assert FindingsOf(c, members[i..], keys) == a + b;
    assert found + (a + b) == found + a + b;
  }

  // ----- The sorted report -----

  predicate FindingLess(a: Finding, b: Finding) {
    Less(a.path, b.path) || (a.path == b.path && Less(KindText(a.kind), KindText(b.kind)))
  }

  lemma FindingOrder(a: Finding, b: Finding, c: Finding)
    ensures !FindingLess(a, a)
    ensures FindingLess(a, b) && FindingLess(b, c) ==> FindingLess(a, c)
    ensures FindingLess(a, b) || FindingLess(b, a) || (a.path == b.path && a.kind == b.kind)
  {
    LessIrreflexive(a.path);
    LessIrreflexive(KindText(a.kind));
    LessTotal(a.path, b.path);
    LessTotal(KindText(a.kind), KindText(b.kind));
    KindTextInjective(a.kind, b.kind);
    if Less(a.path, b.path) && Less(b.path, c.path) { LessTransitive(a.path, b.path, c.path); }
    if Less(KindText(a.kind), KindText(b.kind)) && Less(KindText(b.kind), KindText(c.kind)) {
      LessTransitive(KindText(a.kind), KindText(b.kind), KindText(c.kind));
    }
  }

  function InsertFinding(f: Finding, fs: seq<Finding>): (sorted: seq<Finding>)
    ensures |sorted| == |fs| + 1
  {
    if fs != [] && FindingLess(fs[0], f) then [fs[0]] + InsertFinding(f, fs[1..]) else [f] + fs
  }

  function SortFindings(fs: seq<Finding>): (sorted: seq<Finding>)
    ensures |sorted| == |fs|
  {
    if fs == [] then [] else InsertFinding(fs[0], SortFindings(fs[1..]))
  }

  function Report(c: Cleaner, v: Value): seq<Finding> {
    SortFindings(Findings(c, v, []))
  }

  predicate Increasing(fs: seq<Finding>) {
    forall i, j :: 0 <= i < j < |fs| ==> FindingLess(fs[i], fs[j])
  }

  /** No two findings share both path and kind. */
  predicate PairsDistinct(fs: seq<Finding>) {
    forall i, j :: 0 <= i < j < |fs| ==> fs[i].path != fs[j].path || fs[i].kind != fs[j].kind
  }

  lemma {:induction false} InsertIncreasing(f: Finding, fs: seq<Finding>)
    requires Increasing(fs) && forall x | x in fs :: x.path != f.path || x.kind != f.kind
    ensures Increasing(InsertFinding(f, fs))
    ensures forall x :: x in InsertFinding(f, fs) <==> x == f || x in fs
  {
    if fs != [] {
      assert fs == [fs[0]] + fs[1..];
      if FindingLess(fs[0], f) {
        InsertIncreasing(f, fs[1..]);
        forall x | x in InsertFinding(f, fs[1..]) ensures FindingLess(fs[0], x) {
        }
      } else {
        FindingOrder(fs[0], f, f);
        assert FindingLess(f, fs[0]);
        forall x | x in fs ensures FindingLess(f, x) {
          FindingOrder(f, fs[0], x);
        }
      }
    }
  }

  lemma {:induction false} SortIncreasing(fs: seq<Finding>)
    requires PairsDistinct(fs)
    ensures Increasing(SortFindings(fs)) && forall x :: x in SortFindings(fs) <==> x in fs
  {
    if fs != [] {
      SortIncreasing(fs[1..]);
      InsertIncreasing(fs[0], SortFindings(fs[1..]));
      assert fs == [fs[0]] + fs[1..];
    }
  }

  lemma TailHasNoHead(a: seq<Finding>)
    requires Increasing(a) && a != []
    ensures forall x :: x in a[1..] <==> x in a && x != a[0]
  {
    assert a == [a[0]] + a[1..];
    FindingOrder(a[0], a[0], a[0]);
    forall x | x in a[1..] ensures x != a[0] {
      var i :| 0 <= i < |a| - 1 && a[1..][i] == x;
      assert FindingLess(a[0], a[i + 1]);
    }
  }

  /** Increasing lists with the same findings are the same list. */
  lemma {:induction false} IncreasingUnique(a: seq<Finding>, b: seq<Finding>)
    requires Increasing(a) && Increasing(b) && forall x :: x in a <==> x in b
    ensures a == b
  {
    assert b != [] ==> b[0] in b;
    if a != [] {
      assert a[0] in b;
      assert b[0] in a;
      FindingOrder(a[0], b[0], a[0]);
      assert a[0] == b[0];
      TailHasNoHead(a);
      TailHasNoHead(b);
      IncreasingUnique(a[1..], b[1..]);
    }
  }

  // ----- Where a finding points -----

  /** The finding is about a string that `keys` reach. */
  ghost predicate PointsAt(c: Cleaner, v: Value, prefix: seq<Text>, f: Finding, keys: seq<Text>, s: Text) {
    Reach(v, keys) == Some(Leaf(Str(s))) && f in Located(PathOf(prefix + keys), c.tallies(s))
  }

  lemma ReachCons(v: Value, key: Text, keys: seq<Text>)
    requires Child(v, key).Some?
    ensures Reach(v, [key] + keys) == Reach(Child(v, key).value, keys)
  {
    assert ([key] + keys)[1..] == keys;
  }

  lemma PrefixSnoc(prefix: seq<Text>, key: Text, keys: seq<Text>)
    ensures prefix + [key] + keys == prefix + ([key] + keys)
  {
  }

  lemma {:induction false} FindingPointsAt(c: Cleaner, v: Value, prefix: seq<Text>, f: Finding) returns (keys: seq<Text>, s: Text)
    requires WellFormed(v) && f in Findings(c, v, prefix)
    ensures PointsAt(c, v, prefix, f, keys, s)
    decreases v
  {
    match v
    case Leaf(Str(t)) =>
      keys, s := [], t;
      assert prefix + [] == prefix;
    case Arr(items) =>
      var i: nat;
      i, keys, s := ItemFinding(c, items, prefix, 0, f);
      DecimalIsNumeral(i);
      ReachCons(v, Decimal(i), keys);
      PrefixSnoc(prefix, Decimal(i), keys);
      keys := [Decimal(i)] + keys;
    case Obj(members) =>
      var m: Member;
      m, keys, s := MemberFinding(c, members, prefix, f);
      MemberLookup(members, m);
      ReachCons(v, m.key, keys);
      PrefixSnoc(prefix, m.key, keys);
      keys := [m.key] + keys;
  }

  lemma {:induction false} ItemFinding(c: Cleaner, items: seq<Value>, prefix: seq<Text>, from: nat, f: Finding)
    returns (i: nat, keys: seq<Text>, s: Text)
    requires from <= |items| && f in FindingsFrom(c, items, prefix, from) && forall x | x in items :: WellFormed(x)
    ensures from <= i < |items| && PointsAt(c, items[i], prefix + [Decimal(i)], f, keys, s)
    decreases items, |items| - from
  {
    if f in Findings(c, items[from], prefix + [Decimal(from)]) {
      i := from;
      keys, s := FindingPointsAt(c, items[from], prefix + [Decimal(from)], f);
    } else {
      i, keys, s := ItemFinding(c, items, prefix, from + 1, f);
    }
  }

  lemma {:induction false} MemberFinding(c: Cleaner, ms: seq<Member>, prefix: seq<Text>, f: Finding)
    returns (m: Member, keys: seq<Text>, s: Text)
    requires WellFormedMembers(ms) && f in FindingsOf(c, ms, prefix)
    ensures m in ms && PointsAt(c, m.value, prefix + [m.key], f, keys, s)
    decreases ms
  {
    if f in Findings(c, ms[0].value, prefix + [ms[0].key]) {
      m := ms[0];
      keys, s := FindingPointsAt(c, m.value, prefix + [m.key], f);
    } else {
      m, keys, s := MemberFinding(c, ms[1..], prefix, f);
    }
  }

  lemma {:induction false} ReachedIsReported(c: Cleaner, v: Value, prefix: seq<Text>, f: Finding, keys: seq<Text>, s: Text)
    requires PointsAt(c, v, prefix, f, keys, s)
    ensures f in Findings(c, v, prefix)
    decreases |keys|
  {
    if keys == [] {
      assert prefix + [] == prefix;
    } else {
      var key, rest := keys[0], keys[1..];
      assert keys == [key] + rest;
      PrefixSnoc(prefix, key, rest);
      ReachedIsReported(c, Child(v, key).value, prefix + [key], f, rest, s);
      match v
      case Arr(items) =>
        if IsNumeral(key) && Parse(key) < |items| {
          NumeralRoundTrip(key);
          ItemReported(c, items, prefix, 0, Parse(key), f);
        }
      case Obj(members) => MemberReported(c, members, prefix, key, f);
    }
  }

  lemma {:induction false} ItemReported(c: Cleaner, items: seq<Value>, prefix: seq<Text>, from: nat, i: nat, f: Finding)
    requires from <= i < |items| && f in Findings(c, items[i], prefix + [Decimal(i)])
    ensures f in FindingsFrom(c, items, prefix, from)
    decreases i - from
  {
    if from < i {
      ItemReported(c, items, prefix, from + 1, i, f);
    }
  }

  lemma {:induction false} MemberReported(c: Cleaner, ms: seq<Member>, prefix: seq<Text>, key: Text, f: Finding)
    requires Lookup(ms, key).Some? && f in Findings(c, Lookup(ms, key).value, prefix + [key])
    ensures f in FindingsOf(c, ms, prefix)
  {
    if ms[0].key != key {
      MemberReported(c, ms[1..], prefix, key, f);
    }
  }

  // ----- Findings differ in path or kind -----

  ghost predicate Under(prefix: seq<Text>, path: Text) {
    exists keys :: path == PathOf(prefix + keys)
  }

  lemma UnderDisjoint(prefix: seq<Text>, a: Text, b: Text, path: Text)
    requires a != b && Under(prefix + [a], path)
    ensures !Under(prefix + [b], path)
  {
    var xs :| path == PathOf(prefix + [a] + xs);
    forall ys ensures path != PathOf(prefix + [b] + ys) {
      var p, q := prefix + [a] + xs, prefix + [b] + ys;
      assert p[|prefix|] == a && q[|prefix|] == b;
      if path == PathOf(q) {
        PathInjective(p, q);
      }
    }
  }

  lemma FindingUnder(c: Cleaner, v: Value, prefix: seq<Text>, f: Finding)
    requires WellFormed(v) && f in Findings(c, v, prefix)
    ensures Under(prefix, f.path)
  {
    var keys, s := FindingPointsAt(c, v, prefix, f);
  }

  lemma PairsConcat(a: seq<Finding>, b: seq<Finding>)
    requires PairsDistinct(a) && PairsDistinct(b) && forall x, y | x in a && y in b :: x.path != y.path
    ensures PairsDistinct(a + b)
  {
    forall i, j | 0 <= i < |a| <= j < |a + b| ensures (a + b)[i].path != (a + b)[j].path {
      assert a[i] in a && b[j - |a|] in b;
    }
  }

  lemma {:induction false} FindingsDistinct(c: Cleaner, v: Value, prefix: seq<Text>)
    requires WellFormed(v) && OneTallyPerKind(c)
    ensures PairsDistinct(Findings(c, v, prefix))
    decreases v
  {
    match v
    case Leaf(Str(s)) => assert DistinctKinds(c.tallies(s));
    case Leaf(_) =>
    case Arr(items) => ItemsDistinct(c, items, prefix, 0);
    case Obj(members) => MembersDistinct(c, members, prefix);
  }

  lemma {:induction false} ItemsDistinct(c: Cleaner, items: seq<Value>, prefix: seq<Text>, from: nat)
    requires from <= |items| && OneTallyPerKind(c) && forall x | x in items :: WellFormed(x)
    ensures PairsDistinct(FindingsFrom(c, items, prefix, from))
    decreases items, |items| - from
  {
    if from < |items| {
      FindingsDistinct(c, items[from], prefix + [Decimal(from)]);
      ItemsDistinct(c, items, prefix, from + 1);
      var a, b := Findings(c, items[from], prefix + [Decimal(from)]), FindingsFrom(c, items, prefix, from + 1);
      forall x, y | x in a && y in b ensures x.path != y.path {
        FindingUnder(c, items[from], prefix + [Decimal(from)], x);
        var i, keys, s := ItemFinding(c, items, prefix, from + 1, y);
        assert Under(prefix + [Decimal(i)], y.path);
        if Decimal(i) == Decimal(from) { DecimalInjective(i, from); }
        UnderDisjoint(prefix, Decimal(from), Decimal(i), x.path);
      }
      PairsConcat(a, b);
    }
  }

  lemma {:induction false} MembersDistinct(c: Cleaner, ms: seq<Member>, prefix: seq<Text>)
    requires WellFormedMembers(ms) && OneTallyPerKind(c)
    ensures PairsDistinct(FindingsOf(c, ms, prefix))
    decreases ms
  {
    if ms != [] {
      FindingsDistinct(c, ms[0].value, prefix + [ms[0].key]);
      MembersDistinct(c, ms[1..], prefix);
      var a, b := Findings(c, ms[0].value, prefix + [ms[0].key]), FindingsOf(c, ms[1..], prefix);
      forall x, y | x in a && y in b ensures x.path != y.path {
        FindingUnder(c, ms[0].value, prefix + [ms[0].key], x);
        var m, keys, s := MemberFinding(c, ms[1..], prefix, y);
        assert Under(prefix + [m.key], y.path);
        assert m.key in KeySet(ms[1..]);
        UnderDisjoint(prefix, ms[0].key, m.key, x.path);
      }
      PairsConcat(a, b);
    }
  }

  // ----- Main results -----

  /** The report is strictly increasing in path and kind, and holds the findings of the walk. */
  lemma ReportStrictlyIncreasing(c: Cleaner, v: Value)
    requires WellFormed(v) && OneTallyPerKind(c)
    ensures Increasing(Report(c, v)) && forall f :: f in Report(c, v) <==> f in Findings(c, v, [])
  {
    FindingsDistinct(c, v, []);
    SortIncreasing(Findings(c, v, []));
  }

  /** In other words: by path, and under one path by the name of the kind, each by code units. */
  lemma ReportInOrder(c: Cleaner, v: Value, i: nat, j: nat)
    requires WellFormed(v) && OneTallyPerKind(c) && i < j < |Report(c, v)|
    ensures var a, b := Report(c, v)[i], Report(c, v)[j];
      Less(a.path, b.path) || (a.path == b.path && Less(KindText(a.kind), KindText(b.kind)))
  {
    ReportStrictlyIncreasing(c, v);
  }

  /** A finding is in the report exactly when its path is built from keys that reach a string about which it is reported. */
  lemma ReportIsWhatKeysReach(c: Cleaner, v: Value, f: Finding)
    requires WellFormed(v) && OneTallyPerKind(c)
    ensures f in Report(c, v) <==> exists keys, s :: PointsAt(c, v, [], f, keys, s)
  {
    ReportStrictlyIncreasing(c, v);
    if f in Report(c, v) {
      var keys, s := FindingPointsAt(c, v, [], f);
    }
    forall keys, s | PointsAt(c, v, [], f, keys, s) ensures f in Report(c, v) {
      ReachedIsReported(c, v, [], f, keys, s);
    }
  }

  /** The finding is about a string that its path reaches. */
  ghost predicate ReadsTo(c: Cleaner, v: Value, f: Finding, s: Text) {
    ReadBack(v, f.path) == Some(Leaf(Str(s))) && Tally(f.kind, f.count) in c.tallies(s)
  }

  lemma KeysReadTo(c: Cleaner, v: Value, f: Finding, keys: seq<Text>, s: Text)
    requires PathOf(keys) == f.path
    ensures PointsAt(c, v, [], f, keys, s) <==> ReadsTo(c, v, f, s)
  {
    assert [] + keys == keys;
    if keys != [] {
      FollowPath(v, keys);
      SplitPath(keys);
    }
    var tallies := c.tallies(s);
    var all := Located(f.path, tallies);
    if f in all {
      var i :| 0 <= i < |all| && all[i] == f;
      assert tallies[i] == Tally(f.kind, f.count);
    }
    if Tally(f.kind, f.count) in tallies {
      var i :| 0 <= i < |tallies| && tallies[i] == Tally(f.kind, f.count);
      assert all[i] == f;
    }
  }

  /**
   A finding is in the report exactly when its path has the syntax of RFC 6901 and, read back as a
   JSON Pointer from the root, reaches a string about which just that kind and count are reported.
   */
  lemma ReportPointsAtStrings(c: Cleaner, v: Value, f: Finding)
    requires WellFormed(v) && OneTallyPerKind(c)
    ensures f in Report(c, v) <==> IsPointer(f.path) && exists s :: ReadsTo(c, v, f, s)
  {
    ReportIsWhatKeysReach(c, v, f);
    if f in Report(c, v) {
      var keys, s :| PointsAt(c, v, [], f, keys, s);
      PathOfFinding(c, v, f, keys, s);
    }
    if s :| IsPointer(f.path) && ReadsTo(c, v, f, s) {
      var keys := PointerKeys(f.path);
      KeysReadTo(c, v, f, keys, s);
    }
  }

  lemma PathOfFinding(c: Cleaner, v: Value, f: Finding, keys: seq<Text>, s: Text)
    requires PointsAt(c, v, [], f, keys, s)
    ensures IsPointer(f.path) && ReadsTo(c, v, f, s)
  {
    assert [] + keys == keys;
    assert f.path == PathOf(keys);
    PathIsPointer(keys);
    KeysReadTo(c, v, f, keys, s);
  }

  lemma SameChild(a: Value, b: Value, key: Text)
    requires WellFormed(a) && WellFormed(b) && SameUpToOrder(a, b)
    ensures Child(a, key).Some? <==> Child(b, key).Some?
    ensures Child(a, key).Some? ==> SameUpToOrder(Child(a, key).value, Child(b, key).value)
    ensures Child(a, key).Some? ==> WellFormed(Child(a, key).value) && WellFormed(Child(b, key).value)
  {
    match (a, b)
    case (Leaf(_), Leaf(_)) =>
    case (Arr(xs), Arr(ys)) =>
    case (Obj(xs), Obj(ys)) =>
      LookupFinds(xs, key);
      LookupFinds(ys, key);
      if Lookup(xs, key).Some? {
        MemberIsWellFormed(xs, Member(key, Lookup(xs, key).value));
        MemberIsWellFormed(ys, Member(key, Lookup(ys, key).value));
      }
  }

  lemma {:induction false} MemberIsWellFormed(ms: seq<Member>, m: Member)
    requires WellFormedMembers(ms) && m in ms
    ensures WellFormed(m.value)
  {
    if m != ms[0] {
      MemberIsWellFormed(ms[1..], m);
    }
  }

  lemma {:induction false} SameReach(a: Value, b: Value, keys: seq<Text>)
    requires WellFormed(a) && WellFormed(b) && SameUpToOrder(a, b)
    ensures Reach(a, keys).Some? <==> Reach(b, keys).Some?
    ensures Reach(a, keys).Some? ==> SameUpToOrder(Reach(a, keys).value, Reach(b, keys).value)
    decreases |keys|
  {
    if keys != [] {
      SameChild(a, b, keys[0]);
      if Child(a, keys[0]).Some? {
        SameReach(Child(a, keys[0]).value, Child(b, keys[0]).value, keys[1..]);
      }
    }
  }

  /** The report does not depend on the order in which the keys of any object are enumerated. */
  lemma ReportIgnoresKeyOrder(c: Cleaner, a: Value, b: Value)
    requires WellFormed(a) && WellFormed(b) && OneTallyPerKind(c) && SameUpToOrder(a, b)
    ensures Report(c, a) == Report(c, b)
  {
    ReportStrictlyIncreasing(c, a);
    ReportStrictlyIncreasing(c, b);
    forall f ensures f in Report(c, a) <==> f in Report(c, b) {
      ReportIsWhatKeysReach(c, a, f);
      ReportIsWhatKeysReach(c, b, f);
      forall keys, s ensures PointsAt(c, a, [], f, keys, s) <==> PointsAt(c, b, [], f, keys, s) {
        SameReach(a, b, keys);
      }
    }
    IncreasingUnique(Report(c, a), Report(c, b));
  }
}
