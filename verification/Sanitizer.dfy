/** The sanitizer of the TypeScript core: its loops, and how often it has to run. */
module Sanitizer {
  import opened Texts
  import opened Json
  import opened Canonical
  import opened Enumeration
  import opened Utf16
  import opened Pointers
  import opened Stripping
  import opened Reports

  /** The string part of the core's sanitizer, for a given normalization. */
  function CoreCleaner(nfkc: Text -> Text): Cleaner {
    Cleaner(t => CleanString(nfkc, t), t => StringTallies(nfkc, t))
  }

  lemma CoreCleanerTallies(nfkc: Text -> Text)
    ensures OneTallyPerKind(CoreCleaner(nfkc))
  {
    forall t ensures DistinctKinds(CoreCleaner(nfkc).tallies(t)) {
      StringTalliesDistinct(nfkc, t);
    }
  }

  // ----- The cleaned value -----

  /** Strings are cleaned; keys are kept as they are, but copying an object loses `__proto__`. */
  function CleanValue(c: Cleaner, v: Value): Value {
    match v
    case Leaf(Str(s)) => Leaf(Str(c.clean(s)))
    case Leaf(_) => v
    case Arr(items) => Arr(CleanItems(c, items))
    case Obj(members) => Obj(CleanMembers(c, members))
  }

  function CleanItems(c: Cleaner, items: seq<Value>): (r: seq<Value>)
    ensures |r| == |items|
  {
    if items == [] then [] else [CleanValue(c, items[0])] + CleanItems(c, items[1..])
  }

  function CleanMembers(c: Cleaner, ms: seq<Member>): seq<Member> {
    if ms == [] then []
    else if ms[0].key == PROTO then CleanMembers(c, ms[1..])
    else [Member(ms[0].key, CleanValue(c, ms[0].value))] + CleanMembers(c, ms[1..])
  }

  lemma {:induction false} CleanedMember(c: Cleaner, ms: seq<Member>, k: Text)
    requires k != PROTO
    ensures Lookup(CleanMembers(c, ms), k) == match Lookup(ms, k) case None => None case Some(x) => Some(CleanValue(c, x))
  {
    if ms != [] {
      CleanedMember(c, ms[1..], k);
      if ms[0].key != PROTO {
        assert CleanMembers(c, ms)[1..] == CleanMembers(c, ms[1..]);
      }
    }
  }

  lemma {:induction false} CleanedItem(c: Cleaner, items: seq<Value>, i: nat)
    requires i < |items|
    ensures CleanItems(c, items)[i] == CleanValue(c, items[i])
  {
    if i > 0 {
      CleanedItem(c, items[1..], i - 1);
    }
  }

  lemma CleanedChild(c: Cleaner, v: Value, k: Text)
    requires k != PROTO
    ensures Child(CleanValue(c, v), k) == match Child(v, k) case None => None case Some(x) => Some(CleanValue(c, x))
  {
    match v
    case Arr(items) => if IsNumeral(k) && Parse(k) < |items| { CleanedItem(c, items, Parse(k)); }
    case Obj(members) => CleanedMember(c, members, k);
    case Leaf(Str(_)) =>
    case Leaf(_) =>
  }

  /** Place by place: what keys reach in the result is what they reach in the input, cleaned; so nothing moves, appears or goes. */
  lemma {:induction false} CleanedInPlace(c: Cleaner, v: Value, keys: seq<Text>)
    requires PROTO !in keys
    ensures Reach(CleanValue(c, v), keys) == match Reach(v, keys) case None => None case Some(x) => Some(CleanValue(c, x))
    decreases |keys|
  {
    if keys != [] {
      CleanedChild(c, v, keys[0]);
      if Child(v, keys[0]).Some? {
        CleanedInPlace(c, Child(v, keys[0]).value, keys[1..]);
      }
    }
  }

  // ----- The source's loops -----

  lemma TalliesCons(kinds: seq<Kind>, t: Text)
    requires kinds != []
    ensures Tallies(kinds, t) == TallyOf(kinds[0], CountOf(kinds[0], Decode(t))) + Tallies(kinds[1..], Strip(kinds[0], t))
  {
  }

  lemma {:induction false} StripAllSnoc(kinds: seq<Kind>, k: Kind, t: Text)
    ensures StripAll(kinds + [k], t) == Strip(k, StripAll(kinds, t))
    decreases |kinds|
  {
    var all := kinds + [k];
    if kinds == [] {
      assert all == [k] && all[1..] == [];
    } else {
      assert all[0] == kinds[0] && all[1..] == kinds[1..] + [k];
      StripAllSnoc(kinds[1..], k, Strip(kinds[0], t));
    }
  }

  lemma {:induction false} TalliesSnoc(kinds: seq<Kind>, k: Kind, t: Text)
    ensures Tallies(kinds + [k], t) == Tallies(kinds, t) + TallyOf(k, CountOf(k, Decode(StripAll(kinds, t))))
    decreases |kinds|
  {
    var all := kinds + [k];
    TalliesCons(all, t);
    if kinds == [] {
      assert all == [k] && all[1..] == [];
    } else {
      var left := Strip(kinds[0], t);
      assert all[0] == kinds[0] && all[1..] == kinds[1..] + [k];
      TalliesSnoc(kinds[1..], k, left);
      TalliesCons(kinds, t);
      assert StripAll(kinds, t) == StripAll(kinds[1..], left);
    }
  }

  lemma {:induction false} LocatedConcat(path: Text, a: seq<Tally>, b: seq<Tally>)
    ensures Located(path, a + b) == Located(path, a) + Located(path, b)
  {
  }

  lemma PassStep(kinds: seq<Kind>, i: nat, t: Text, path: Text)
    requires i < |kinds|
    ensures StripAll(kinds[..i + 1], t) == Strip(kinds[i], StripAll(kinds[..i], t))
    ensures Located(path, Tallies(kinds[..i + 1], t)) ==
      Located(path, Tallies(kinds[..i], t)) + Located(path, TallyOf(kinds[i], CountOf(kinds[i], Decode(StripAll(kinds[..i], t)))))
  {
    assert kinds[..i + 1] == kinds[..i] + [kinds[i]];
    StripAllSnoc(kinds[..i], kinds[i], t);
    TalliesSnoc(kinds[..i], kinds[i], t);
    LocatedConcat(path, Tallies(kinds[..i], t), TallyOf(kinds[i], CountOf(kinds[i], Decode(StripAll(kinds[..i], t)))));
  }

  /** The loop over the strip classes: count the matches and, if there are any, delete them. */
  method RunPasses(kinds: seq<Kind>, input: Text, path: Text, findings: seq<Finding>) returns (s: Text, found: seq<Finding>)
    ensures s == StripAll(kinds, input)
    ensures found == findings + Located(path, Tallies(kinds, input))
  {
    s, found := input, findings;
    for i := 0 to |kinds|
      invariant s == StripAll(kinds[..i], input)
      invariant found == findings + Located(path, Tallies(kinds[..i], input))
    {
      PassStep(kinds, i, input, path);
      var matches := CountOf(kinds[i], Decode(s));
      if matches > 0 {
        found := found + [Finding(path, kinds[i], matches)];
        s := Strip(kinds[i], s);
      } else {
        NothingToStrip(kinds[i], Decode(s));
        EncodeDecode(s);
      }
    }
    assert kinds[..|kinds|] == kinds;
  }

  lemma NormalizationStep(nfkc: Text -> Text, input: Text, path: Text, findings: seq<Finding>)
    ensures var s := StripAll(STRIP_ORDER, input);
      var passes, count := findings + Located(path, Tallies(STRIP_ORDER, input)), NfkcCount(nfkc, Decode(s));
      findings + Located(path, StringTallies(nfkc, input)) ==
        if nfkc(s) == s then passes else passes + [Finding(path, NfkcNormalized, if count == 0 then 1 else count)]
  {
    LocatedConcat(path, Tallies(STRIP_ORDER, input), NfkcTally(nfkc, StripAll(STRIP_ORDER, input)));
  }

  /** `sanitizeString` */
  method SanitizeString(nfkc: Text -> Text, input: Text, path: Text, findings: seq<Finding>) returns (s: Text, found: seq<Finding>)
    ensures s == CleanString(nfkc, input)
    ensures found == findings + Located(path, StringTallies(nfkc, input))
  {
    s, found := RunPasses(STRIP_ORDER, input, path, findings);
    NormalizationStep(nfkc, input, path, findings);
    var normalized := nfkc(s);
    if normalized != s {
      var count := CountUnstable(nfkc, Decode(s));
      found := found + [Finding(path, NfkcNormalized, if count == 0 then 1 else count)];
      s := normalized;
    }
  }

  lemma {:induction false} NfkcCountSnoc(nfkc: Text -> Text, cs: seq<CodePoint>, c: CodePoint)
    ensures NfkcCount(nfkc, cs + [c]) == NfkcCount(nfkc, cs) + if nfkc(Units(c)) != Units(c) then 1 else 0
  {
    if cs == [] {
      assert ([] + [c])[1..] == [];
    } else {
      assert (cs + [c])[1..] == cs[1..] + [c];
      NfkcCountSnoc(nfkc, cs[1..], c);
    }
  }

  method CountUnstable(nfkc: Text -> Text, cs: seq<CodePoint>) returns (count: nat)
    ensures count == NfkcCount(nfkc, cs)
  {
    count := 0;
    for i := 0 to |cs|
      invariant count == NfkcCount(nfkc, cs[..i])
    {
      NfkcCountSnoc(nfkc, cs[..i], cs[i]);
      assert cs[..i + 1] == cs[..i] + [cs[i]];
      if nfkc(Units(cs[i])) != Units(cs[i]) {
        count := count + 1;
      }
    }
    assert cs[..|cs|] == cs;
  }

  lemma {:induction false} CleanItemsSnoc(c: Cleaner, items: seq<Value>, x: Value)
    ensures CleanItems(c, items + [x]) == CleanItems(c, items) + [CleanValue(c, x)]
  {
    if items == [] {
      assert ([] + [x])[1..] == [];
    } else {
      CleanItemsSnoc(c, items[1..], x);
      assert (items + [x])[1..] == items[1..] + [x];
    }
  }

  lemma {:induction false} CleanMembersSnoc(c: Cleaner, ms: seq<Member>, m: Member)
    ensures CleanMembers(c, ms + [m]) ==
      CleanMembers(c, ms) + if m.key == PROTO then [] else [Member(m.key, CleanValue(c, m.value))]
  {
    if ms == [] {
      assert ([] + [m])[1..] == [];
    } else {
      CleanMembersSnoc(c, ms[1..], m);
      assert (ms + [m])[1..] == ms[1..] + [m];
    }
  }

  lemma {:induction false} CleanedKeys(c: Cleaner, ms: seq<Member>)
    ensures KeySet(CleanMembers(c, ms)) <= KeySet(ms)
  {
    if ms != [] {
      CleanedKeys(c, ms[1..]);
      KeySetCons(ms);
    }
  }

  lemma ItemStep(c: Cleaner, items: seq<Value>, i: nat, keys: seq<Text>, found: seq<Finding>)
    requires i < |items|
    ensures CleanItems(c, items[..i + 1]) == CleanItems(c, items[..i]) + [CleanValue(c, items[i])]
    ensures found + FindingsFrom(c, items, keys, i) ==
      found + Findings(c, items[i], keys + [Decimal(i)]) + FindingsFrom(c, items, keys, i + 1)
  {
    CleanItemsSnoc(c, items[..i], items[i]);
    assert items[..i] + [items[i]] == items[..i + 1];
  }

  /** `sanitizeValue`, which pushes onto a shared list of findings. */
  method SanitizeValue(nfkc: Text -> Text, v: Value, path: Text, findings: seq<Finding>, ghost keys: seq<Text>)
    returns (out: Value, found: seq<Finding>)
    requires InOwnOrder(v) && path == PathOf(keys)
    ensures out == CleanValue(CoreCleaner(nfkc), v)
    ensures found == findings + Findings(CoreCleaner(nfkc), v, keys)
    decreases v
  {
    match v
    case Leaf(Str(s)) =>
      var t;
      t, found := SanitizeString(nfkc, s, path, findings);
      out := Leaf(Str(t));
    case Leaf(_) => out, found := v, findings;
    case Arr(items) => out, found := SanitizeArray(nfkc, items, path, findings, keys);
    case Obj(members) => out, found := SanitizeObject(nfkc, members, path, findings, keys);
  }

  method SanitizeArray(nfkc: Text -> Text, items: seq<Value>, path: Text, findings: seq<Finding>, ghost keys: seq<Text>)
    returns (out: Value, found: seq<Finding>)
    requires path == PathOf(keys) && forall x | x in items :: InOwnOrder(x)
    ensures out == CleanValue(CoreCleaner(nfkc), Arr(items))
    ensures found == findings + FindingsFrom(CoreCleaner(nfkc), items, keys, 0)
    decreases items
  {
    ghost var c := CoreCleaner(nfkc);
    var cleaned := [];
    found := findings;
    for i := 0 to |items|
      invariant cleaned == CleanItems(c, items[..i])
      invariant found + FindingsFrom(c, items, keys, i) == findings + FindingsFrom(c, items, keys, 0)
    {
      IndexPath(keys, i);
      var x;
      ghost var before := found;
      x, found := SanitizeValue(nfkc, items[i], path + [SLASH] + Decimal(i), found, keys + [Decimal(i)]);
      ItemStep(c, items, i, keys, before);
      cleaned := cleaned + [x];
    }
    assert items[..|items|] == items;
    out := Arr(cleaned);
  }

  lemma CopyStep(c: Cleaner, members: seq<Member>, i: nat)
    requires i < |members| && Enumerable(members)
    ensures SetOwn(CleanMembers(c, members[..i]), members[i].key, CleanValue(c, members[i].value)) == CleanMembers(c, members[..i + 1])
  {
    var copy := CleanMembers(c, members[..i]);
    CleanMembersSnoc(c, members[..i], members[i]);
    assert members[..i] + [members[i]] == members[..i + 1];
    CleanedKeys(c, members[..i]);
    KeysComeBefore(copy, members, i);
    SetOwnLast(copy, members[i].key, CleanValue(c, members[i].value));
  }

  method SanitizeObject(nfkc: Text -> Text, members: seq<Member>, path: Text, findings: seq<Finding>, ghost keys: seq<Text>)
    returns (out: Value, found: seq<Finding>)
    requires path == PathOf(keys) && Enumerable(members) && forall m | m in members :: InOwnOrder(m.value)
    ensures out == CleanValue(CoreCleaner(nfkc), Obj(members))
    ensures found == findings + FindingsOf(CoreCleaner(nfkc), members, keys)
    decreases members
  {
    ghost var c := CoreCleaner(nfkc);
    var copy := [];
    found := findings;
    assert members[0..] == members;
    for i := 0 to |members|
      invariant copy == CleanMembers(c, members[..i])
      invariant found + FindingsOf(c, members[i..], keys) == findings + FindingsOf(c, members, keys)
    {
      PathSnoc(keys, members[i].key);
      FindingsStep(c, members, i, keys, found);
      CopyStep(c, members, i);
      var key := members[i].key;
      var x;
      x, found := SanitizeValue(nfkc, members[i].value, path + [SLASH] + EscapeToken(key), found, keys + [key]);
      copy := SetOwn(copy, key, x);
    }
    assert members[..|members|] == members;
    out := Obj(copy);
  }

  /** `sanitize`: the cleaned value, and the findings sorted by path and kind. */
  method Sanitize(nfkc: Text -> Text, v: Value) returns (out: Value, modified: bool, report: seq<Finding>)
    requires InOwnOrder(v)
    ensures out == CleanValue(CoreCleaner(nfkc), v) && report == Report(CoreCleaner(nfkc), v)
    ensures modified <==> report != []
  {
    var findings;
    out, findings := SanitizeValue(nfkc, v, [], [], []);
    assert [] + Findings(CoreCleaner(nfkc), v, []) == Findings(CoreCleaner(nfkc), v, []);
    report := SortFindings(findings);
    modified := |report| > 0;
  }

  // ----- Sanitizing twice -----

  /** No string of the value, outside `__proto__` members, has lone surrogates that come to form a tag. */
  predicate Settles(v: Value) {
    match v
    case Leaf(Str(s)) => !JoinsTag(Kept(Decode(s)))
    case Leaf(_) => true
    case Arr(items) => forall x | x in items :: Settles(x)
    case Obj(members) => forall m | m in members && m.key != PROTO :: Settles(m.value)
  }

  /** Nothing is found in the cleaned value exactly when the input settles, and then cleaning it again changes nothing. */
  lemma {:induction false} SettlesAfterOnce(nfkc: Text -> Text, v: Value, keys: seq<Text>)
    requires NfkcStable(nfkc)
    ensures var c := CoreCleaner(nfkc);
      (Findings(c, CleanValue(c, v), keys) == [] <==> Settles(v)) &&
      (Settles(v) ==> CleanValue(c, CleanValue(c, v)) == CleanValue(c, v))
    decreases v
  {
    match v
    case Leaf(Str(s)) => CleanStringIdempotentExactly(nfkc, s);
    case Leaf(_) =>
    case Arr(items) => ItemsSettle(nfkc, items, keys);
    case Obj(members) => MembersSettle(nfkc, members, keys);
  }

  lemma {:induction false} ItemsSettle(nfkc: Text -> Text, items: seq<Value>, keys: seq<Text>)
    requires NfkcStable(nfkc)
    ensures var c := CoreCleaner(nfkc);
      (FindingsFrom(c, CleanItems(c, items), keys, 0) == [] <==> forall x | x in items :: Settles(x)) &&
      ((forall x | x in items :: Settles(x)) ==> CleanItems(c, CleanItems(c, items)) == CleanItems(c, items))
    decreases items, |items|
  {
    var c := CoreCleaner(nfkc);
    CleanItemsAt(c, items);
    forall i | 0 <= i < |items|
      ensures Findings(c, CleanItems(c, items)[i], keys + [Decimal(i)]) == [] <==> Settles(items[i])
      ensures Settles(items[i]) ==> CleanValue(c, CleanItems(c, items)[i]) == CleanItems(c, items)[i]
    {
      SettlesAfterOnce(nfkc, items[i], keys + [Decimal(i)]);
    }
    NoFindingsFrom(c, CleanItems(c, items), keys, 0);
    assert (forall x | x in items :: Settles(x)) <==> forall i | 0 <= i < |items| :: Settles(items[i]);
    CleanItemsAt(c, CleanItems(c, items));
  }

  lemma {:induction false} CleanItemsAt(c: Cleaner, items: seq<Value>)
    ensures forall i | 0 <= i < |items| :: CleanItems(c, items)[i] == CleanValue(c, items[i])
  {
    if items != [] {
      CleanItemsAt(c, items[1..]);
    }
  }

  lemma {:induction false} NoFindingsFrom(c: Cleaner, items: seq<Value>, keys: seq<Text>, from: nat)
    requires from <= |items|
    ensures FindingsFrom(c, items, keys, from) == [] <==>
      forall i | from <= i < |items| :: Findings(c, items[i], keys + [Decimal(i)]) == []
    decreases |items| - from
  {
    if from < |items| {
      NoFindingsFrom(c, items, keys, from + 1);
    }
  }

  lemma {:induction false} MembersSettle(nfkc: Text -> Text, ms: seq<Member>, keys: seq<Text>)
    requires NfkcStable(nfkc)
    ensures var c := CoreCleaner(nfkc);
      (FindingsOf(c, CleanMembers(c, ms), keys) == [] <==> forall m | m in ms && m.key != PROTO :: Settles(m.value)) &&
      ((forall m | m in ms && m.key != PROTO :: Settles(m.value)) ==> CleanMembers(c, CleanMembers(c, ms)) == CleanMembers(c, ms))
    decreases ms
  {
    if ms != [] {
      var c, m := CoreCleaner(nfkc), ms[0];
      MembersSettle(nfkc, ms[1..], keys);
      SettlesAfterOnce(nfkc, m.value, keys + [m.key]);
      assert ms == [m] + ms[1..];
      if m.key != PROTO {
        assert CleanMembers(c, ms)[1..] == CleanMembers(c, ms[1..]);
      }
    }
  }

  /** A second run reports no modification exactly when the input settles, and then it returns the value unchanged. */
  lemma SanitizeIdempotentExactly(nfkc: Text -> Text, v: Value)
    requires NfkcStable(nfkc)
    ensures var c := CoreCleaner(nfkc);
      (Report(c, CleanValue(c, v)) == [] <==> Settles(v)) &&
      (Settles(v) ==> CleanValue(c, CleanValue(c, v)) == CleanValue(c, v))
  {
    SettlesAfterOnce(nfkc, v, []);
  }
}
