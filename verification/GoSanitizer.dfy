/**
 The sanitizer of the Go SDK. A Go string is here either the sequence of its runes, where its
 characters matter, or a text of bytes, where it is a map key or part of a path: strings are then
 compared byte by byte.
 */
module GoSanitizer {
  import opened Texts
  import opened Json
  import opened Canonical
  import opened Pointers
  import opened Stripping
  import opened Reports

  /** A character of a valid UTF-8 string. */
  type Rune = r: int | 0 <= r < 0xD800 || 0xE000 <= r < 0x11_0000

  predicate IsTag(r: Rune) { 0xE0000 <= r <= 0xE007F }

  /** U+2060 is stripped here and not by the TypeScript core. */
  predicate IsZeroWidth(r: Rune) { r in {0x200B, 0x200C, 0x200D, 0x2060, 0xFEFF} }

  predicate IsBidi(r: Rune) { r in {0x202A, 0x202B, 0x202C, 0x202D, 0x202E, 0x2066, 0x2067, 0x2068, 0x2069} }

  predicate IsControl(r: Rune) {
    if r == 9 || r == 10 || r == 13 then false else r <= 0x1F || 0x7F <= r <= 0x9F
  }

  predicate IsStripped(r: Rune) {
    IsTag(r) || IsZeroWidth(r) || IsBidi(r) || IsControl(r)
  }

  // ----- One string -----

  function Without(s: seq<Rune>, match_: Rune -> bool): (out: seq<Rune>)
    ensures |out| <= |s|
    ensures forall r :: r in out <==> r in s && !match_(r)
  {
    if s == [] then [] else if match_(s[0]) then Without(s[1..], match_) else [s[0]] + Without(s[1..], match_)
  }

  lemma {:induction false} WithoutSnoc(s: seq<Rune>, r: Rune, match_: Rune -> bool)
    ensures Without(s + [r], match_) == Without(s, match_) + if match_(r) then [] else [r]
  {
    if s == [] {
      assert ([] + [r])[1..] == [];
    } else {
      assert (s + [r])[1..] == s[1..] + [r];
      WithoutSnoc(s[1..], r, match_);
    }
  }

  method StripRunes(s: seq<Rune>, match_: Rune -> bool) returns (out: seq<Rune>, count: nat)
    ensures out == Without(s, match_) && count == |s| - |out|
  {
    out, count := [], 0;
    for i := 0 to |s|
      invariant out == Without(s[..i], match_) && count == i - |out|
    {
      WithoutSnoc(s[..i], s[i], match_);
      assert s[..i + 1] == s[..i] + [s[i]];
      if match_(s[i]) {
        count := count + 1;
      } else {
        out := out + [s[i]];
      }
    }
    assert s[..|s|] == s;
  }

  lemma {:induction false} WithoutTwice(s: seq<Rune>, p: Rune -> bool, q: Rune -> bool, both: Rune -> bool)
    requires forall r :: both(r) <==> p(r) || q(r)
    ensures Without(Without(s, p), q) == Without(s, both)
  {
    if s != [] {
      WithoutTwice(s[1..], p, q, both);
      if !p(s[0]) {
        assert Without(s, p)[1..] == Without(s[1..], p);
      }
    }
  }

  lemma {:induction false} NothingWithout(s: seq<Rune>, p: Rune -> bool)
    requires forall r | r in s :: !p(r)
    ensures Without(s, p) == s
  {
    if s != [] {
      assert s[0] in s && s == [s[0]] + s[1..];
      NothingWithout(s[1..], p);
    }
  }

  /** NFKC on runes is idempotent and introduces no stripped character. */
  ghost predicate RunesStable(nfkc: seq<Rune> -> seq<Rune>) {
    forall s :: nfkc(nfkc(s)) == nfkc(s) && ((forall r | r in s :: !IsStripped(r)) ==> forall r | r in nfkc(s) :: !IsStripped(r))
  }

  /** How many runes of the string match. */
  function Matches(s: seq<Rune>, match_: Rune -> bool): nat {
    |s| - |Without(s, match_)|
  }

  /** The findings of the four passes with these counts. */
  function FourTallies(tags: nat, zeroWidth: nat, bidi: nat, control: nat): seq<Tally> {
    TallyOf(UnicodeTags, tags) + TallyOf(ZeroWidth, zeroWidth) + TallyOf(BidiOverride, bidi) + TallyOf(ControlChar, control)
  }

  function ClassTallies(s: seq<Rune>): seq<Tally> {
    FourTallies(Matches(s, IsTag), Matches(s, IsZeroWidth), Matches(s, IsBidi), Matches(s, IsControl))
  }

  /** What is reported about a string: each class with its count in the whole input, then whether NFKC changed what was kept. */
  function RuneTallies(nfkc: seq<Rune> -> seq<Rune>, s: seq<Rune>): seq<Tally> {
    var kept := Without(s, IsStripped);
    ClassTallies(s) + TallyOf(NfkcNormalized, if nfkc(kept) == kept then 0 else 1)
  }

  lemma {:induction false} MatchesAfter(s: seq<Rune>, p: Rune -> bool, q: Rune -> bool)
    requires forall r :: !(p(r) && q(r))
    ensures Matches(Without(s, p), q) == Matches(s, q)
  {
    if s != [] {
      MatchesAfter(s[1..], p, q);
      if !p(s[0]) {
        assert Without(s, p)[1..] == Without(s[1..], p);
      }
    }
  }

  /** No pass takes a rune that a later one would count. */
  lemma EachClassOnItsOwn(s: seq<Rune>)
    ensures var s1 := Without(s, IsTag); var s2 := Without(s1, IsZeroWidth); var s3 := Without(s2, IsBidi);
      Matches(s1, IsZeroWidth) == Matches(s, IsZeroWidth) && Matches(s2, IsBidi) == Matches(s, IsBidi) &&
      Matches(s3, IsControl) == Matches(s, IsControl)
  {
    var s1 := Without(s, IsTag);
    var s2 := Without(s1, IsZeroWidth);
    MatchesAfter(s, IsTag, IsZeroWidth);
    MatchesAfter(s, IsTag, IsBidi);
    MatchesAfter(s1, IsZeroWidth, IsBidi);
    MatchesAfter(s, IsTag, IsControl);
    MatchesAfter(s1, IsZeroWidth, IsControl);
    MatchesAfter(s2, IsBidi, IsControl);
  }

  lemma ClassCountsAddUp(s: seq<Rune>)
    ensures Matches(s, IsTag) + Matches(s, IsZeroWidth) + Matches(s, IsBidi) + Matches(s, IsControl) == Matches(s, IsStripped)
  {
    EachClassOnItsOwn(s);
    OneFilter(s);
  }

  lemma TalliesAre(tags: nat, zeroWidth: nat, bidi: nat, control: nat, nfkc: nat)
    ensures var all := FourTallies(tags, zeroWidth, bidi, control) + TallyOf(NfkcNormalized, nfkc);
      DistinctKinds(all) && (all == [] <==> tags + zeroWidth + bidi + control + nfkc == 0)
  {
  }

  /** No kind is reported twice, and nothing is reported exactly when there is nothing to strip or to normalize. */
  lemma RuneTalliesAre(nfkc: seq<Rune> -> seq<Rune>, s: seq<Rune>)
    ensures DistinctKinds(RuneTallies(nfkc, s))
    ensures RuneTallies(nfkc, s) == [] <==> (forall r | r in s :: !IsStripped(r)) && nfkc(s) == s
  {
    var kept := Without(s, IsStripped);
    TalliesAre(Matches(s, IsTag), Matches(s, IsZeroWidth), Matches(s, IsBidi), Matches(s, IsControl), if nfkc(kept) == kept then 0 else 1);
    ClassCountsAddUp(s);
    SameSizeSameRunes(s, IsStripped);
  }

  /** One pass, and what it adds to the findings. */
  method Pass(s: seq<Rune>, match_: Rune -> bool, tallies: seq<Tally>, kind: Kind) returns (cur: seq<Rune>, after: seq<Tally>)
    ensures cur == Without(s, match_) && after == tallies + TallyOf(kind, Matches(s, match_))
  {
    var n;
    cur, n := StripRunes(s, match_);
    after := if n > 0 then tallies + [Tally(kind, n)] else tallies;
  }

  method FourPasses(s: seq<Rune>) returns (cur: seq<Rune>, tallies: seq<Tally>)
    ensures cur == Without(s, IsStripped) && tallies == ClassTallies(s)
  {
    EachClassOnItsOwn(s);
    OneFilter(s);
    cur, tallies := Pass(s, IsTag, [], UnicodeTags);
    cur, tallies := Pass(cur, IsZeroWidth, tallies, ZeroWidth);
    cur, tallies := Pass(cur, IsBidi, tallies, BidiOverride);
    cur, tallies := Pass(cur, IsControl, tallies, ControlChar);
    assert [] + TallyOf(UnicodeTags, Matches(s, IsTag)) == TallyOf(UnicodeTags, Matches(s, IsTag));
  }

  /**
   The four passes are one filter. Each kind is reported with the number of its runes in the whole
   input, and these counts add up to the runes removed.
   */
  method CleanRunes(nfkc: seq<Rune> -> seq<Rune>, s: seq<Rune>) returns (cur: seq<Rune>, tallies: seq<Tally>)
    ensures cur == nfkc(Without(s, IsStripped)) && tallies == RuneTallies(nfkc, s)
    ensures Matches(s, IsTag) + Matches(s, IsZeroWidth) + Matches(s, IsBidi) + Matches(s, IsControl) == |s| - |Without(s, IsStripped)|
    ensures DistinctKinds(tallies)
    ensures tallies == [] <==> (forall r | r in s :: !IsStripped(r)) && nfkc(s) == s
    ensures tallies == [] ==> cur == s
  {
    cur, tallies := FourPasses(s);
    ClassCountsAddUp(s);
    RuneTalliesAre(nfkc, s);
    SameSizeSameRunes(s, IsStripped);
    var normalized := nfkc(cur);
    if normalized != cur {
      tallies := tallies + [Tally(NfkcNormalized, 1)];
      cur := normalized;
    }
  }

  lemma OneFilter(s: seq<Rune>)
    ensures Without(Without(Without(Without(s, IsTag), IsZeroWidth), IsBidi), IsControl) == Without(s, IsStripped)
  {
    var p2 := (r: Rune) => IsTag(r) || IsZeroWidth(r);
    var p3 := (r: Rune) => p2(r) || IsBidi(r);
    WithoutTwice(s, IsTag, IsZeroWidth, p2);
    WithoutTwice(s, p2, IsBidi, p3);
    WithoutTwice(s, p3, IsControl, IsStripped);
  }

  lemma {:induction false} SameSizeSameRunes(s: seq<Rune>, p: Rune -> bool)
    ensures |Without(s, p)| == |s| <==> forall r | r in s :: !p(r)
    ensures |Without(s, p)| == |s| ==> Without(s, p) == s
  {
    if s != [] {
      SameSizeSameRunes(s[1..], p);
      assert s[0] in s && s == [s[0]] + s[1..];
    }
  }

  /** Cleaning a cleaned string finds nothing: runes of a valid string cannot join to new characters. */
  lemma CleanRunesIdempotent(nfkc: seq<Rune> -> seq<Rune>, s: seq<Rune>)
    requires RunesStable(nfkc)
    ensures var cur := nfkc(Without(s, IsStripped));
      (forall r | r in cur :: !IsStripped(r)) && nfkc(cur) == cur && nfkc(Without(cur, IsStripped)) == cur
  {
    var kept := Without(s, IsStripped);
    assert forall r | r in kept :: !IsStripped(r);
    NothingWithout(nfkc(kept), IsStripped);
  }

  // ----- The same on bytes -----

  /** Normalization, and the reading and writing of UTF-8. Reading never fails: bytes that are no character read as U+FFFD. */
  datatype Unicode = Unicode(nfkc: seq<Rune> -> seq<Rune>, decode: Text -> seq<Rune>, encode: seq<Rune> -> Text)

  /** What was written is read back. */
  ghost predicate ReadsBack(u: Unicode) {
    forall s :: u.decode(u.encode(s)) == s
  }

  /** The string part of the Go sanitizer. */
  function GoCleaner(u: Unicode): Cleaner {
    Cleaner(t => u.encode(u.nfkc(Without(u.decode(t), IsStripped))), t => RuneTallies(u.nfkc, u.decode(t)))
  }

  /** `sanitizeString` */
  method SanitizeString(u: Unicode, s: Text) returns (t: Text, tallies: seq<Tally>)
    ensures t == GoCleaner(u).clean(s) && tallies == GoCleaner(u).tallies(s)
  {
    var cur;
    cur, tallies := CleanRunes(u.nfkc, u.decode(s));
    t := u.encode(cur);
  }

  lemma GoCleanerTallies(u: Unicode)
    ensures OneTallyPerKind(GoCleaner(u))
  {
    forall t ensures DistinctKinds(GoCleaner(u).tallies(t)) {
      RuneTalliesAre(u.nfkc, u.decode(t));
    }
  }

  // ----- The walk, over maps in any iteration order -----

  function GoClean(c: Cleaner, v: Value): Value {
    match v
    case Leaf(Str(s)) => Leaf(Str(c.clean(s)))
    case Leaf(_) => v
    case Arr(items) => Arr(GoCleanItems(c, items))
    case Obj(members) => Obj(GoCleanMembers(c, members))
  }

  function GoCleanItems(c: Cleaner, items: seq<Value>): (r: seq<Value>)
    ensures |r| == |items|
    ensures forall i | 0 <= i < |items| :: r[i] == GoClean(c, items[i])
  {
    if items == [] then [] else [GoClean(c, items[0])] + GoCleanItems(c, items[1..])
  }

  function GoCleanMembers(c: Cleaner, ms: seq<Member>): (r: seq<Member>)
    ensures |r| == |ms|
    ensures forall i | 0 <= i < |ms| :: r[i] == Member(ms[i].key, GoClean(c, ms[i].value))
  {
    if ms == [] then [] else [Member(ms[0].key, GoClean(c, ms[0].value))] + GoCleanMembers(c, ms[1..])
  }

  /** No slice is longer than an `int` can count. */
  predicate Sized(v: Value) {
    match v
    case Leaf(_) => true
    case Arr(items) => |items| <= MAX_INT && forall x | x in items :: Sized(x)
    case Obj(members) => forall m | m in members :: Sized(m.value)
  }

  /** `sanitizeValue`: `members` lists a map's entries in the order in which the runtime happens to range over them. */
  method SanitizeValue(u: Unicode, ghost c: Cleaner, v: Value, path: Text, ghost keys: seq<Text>) returns (out: Value, all: seq<Finding>)
    requires c == GoCleaner(u) && path == PathOf(keys) && Sized(v)
    ensures out == GoClean(c, v) && all == Findings(c, v, keys)
    decreases v, 0
  {
    match v
    case Leaf(Str(s)) =>
      var t, tallies := SanitizeString(u, s);
      out, all := Leaf(Str(t)), Located(path, tallies);
    case Leaf(_) => out, all := v, [];
    case Arr(items) => out, all := SanitizeSlice(u, c, items, path, keys);
    case Obj(members) => out, all := SanitizeMap(u, c, members, path, keys);
  }

  method SanitizeSlice(u: Unicode, ghost c: Cleaner, items: seq<Value>, path: Text, ghost keys: seq<Text>)
    returns (out: Value, all: seq<Finding>)
    requires c == GoCleaner(u) && path == PathOf(keys) && |items| <= MAX_INT && forall x | x in items :: Sized(x)
    ensures out == GoClean(c, Arr(items)) && all == FindingsFrom(c, items, keys, 0)
    decreases items
  {
    ghost var cleaned, found := GoCleanItems(c, items), FindingsFrom(c, items, keys, 0);
    var values := [];
    all := [];
    for i := 0 to |items|
      invariant values == cleaned[..i] && all + FindingsFrom(c, items, keys, i) == found
    {
      var nv, f := SanitizeItem(u, c, items[i], path, i, keys);
      ItemDone(c, items, keys, i, values, all);
      values, all := values + [nv], all + f;
    }
    out := Arr(values);
  }

  method SanitizeItem(u: Unicode, ghost c: Cleaner, item: Value, path: Text, i: nat, ghost keys: seq<Text>)
    returns (out: Value, all: seq<Finding>)
    requires c == GoCleaner(u) && path == PathOf(keys) && i <= MAX_INT && Sized(item)
    ensures out == GoClean(c, item) && all == Findings(c, item, keys + [Decimal(i)])
    decreases item, 1
  {
    var token := Itoa(i);
    IndexPath(keys, i);
    out, all := SanitizeValue(u, c, item, path + [SLASH] + token, keys + [Decimal(i)]);
  }

  method SanitizeEntry(u: Unicode, ghost c: Cleaner, members: seq<Member>, i: nat, path: Text, ghost keys: seq<Text>)
    returns (out: Value, all: seq<Finding>)
    requires c == GoCleaner(u) && path == PathOf(keys) && i < |members| && forall m | m in members :: Sized(m.value)
    ensures out == GoClean(c, members[i].value) && all == Findings(c, members[i].value, keys + [members[i].key])
    decreases members, 0
  {
    var m := members[i];
    PathSnoc(keys, m.key);
    out, all := SanitizeValue(u, c, m.value, path + [SLASH] + EscapeToken(m.key), keys + [m.key]);
  }

  lemma ItemDone(c: Cleaner, items: seq<Value>, keys: seq<Text>, i: nat, values: seq<Value>, all: seq<Finding>)
    requires i < |items| && values == GoCleanItems(c, items)[..i]
    ensures values + [GoClean(c, items[i])] == GoCleanItems(c, items)[..i + 1]
    ensures all + Findings(c, items[i], keys + [Decimal(i)]) + FindingsFrom(c, items, keys, i + 1) == all + FindingsFrom(c, items, keys, i)
  {
    assert GoCleanItems(c, items)[i] == GoClean(c, items[i]);
    Absorb(all, Findings(c, items[i], keys + [Decimal(i)]), FindingsFrom(c, items, keys, i + 1));
  }

  lemma Absorb(all: seq<Finding>, f: seq<Finding>, tail: seq<Finding>)
    ensures all + f + tail == all + (f + tail)
  {
  }

  lemma EntryDone(c: Cleaner, ms: seq<Member>, keys: seq<Text>, i: nat, entries: seq<Member>, all: seq<Finding>)
    requires i < |ms| && entries == GoCleanMembers(c, ms)[..i]
    ensures entries + [Member(ms[i].key, GoClean(c, ms[i].value))] == GoCleanMembers(c, ms)[..i + 1]
    ensures all + Findings(c, ms[i].value, keys + [ms[i].key]) + FindingsOf(c, ms[i + 1..], keys) == all + FindingsOf(c, ms[i..], keys)
  {
    assert GoCleanMembers(c, ms)[i] == Member(ms[i].key, GoClean(c, ms[i].value));
    FindingsStep(c, ms, i, keys, all);
  }

  method SanitizeMap(u: Unicode, ghost c: Cleaner, members: seq<Member>, path: Text, ghost keys: seq<Text>)
    returns (out: Value, all: seq<Finding>)
    requires c == GoCleaner(u) && path == PathOf(keys) && forall m | m in members :: Sized(m.value)
    ensures out == GoClean(c, Obj(members)) && all == FindingsOf(c, members, keys)
    decreases members, 1
  {
    ghost var cleaned, found := GoCleanMembers(c, members), FindingsOf(c, members, keys);
    var entries := [];
    all := [];
    assert members[0..] == members;
    for i := 0 to |members|
      invariant entries == cleaned[..i] && all + FindingsOf(c, members[i..], keys) == found
    {
      var nv, f := SanitizeEntry(u, c, members, i, path, keys);
      EntryDone(c, members, keys, i, entries, all);
      entries, all := entries + [Member(members[i].key, nv)], all + f;
    }
    out := Obj(entries);
  }

  /** `Sanitize` */
  method Sanitize(u: Unicode, v: Value) returns (out: Value, modified: bool, report: seq<Finding>)
    requires Sized(v)
    ensures out == GoClean(GoCleaner(u), v) && report == Report(GoCleaner(u), v) && (modified <==> report != [])
  {
    var findings;
    out, findings := SanitizeValue(u, GoCleaner(u), v, [], []);
    report := SortFindings(findings);
    modified := |report| > 0;
  }

  lemma {:induction false} CleanedLookup(c: Cleaner, ms: seq<Member>, k: Text)
    ensures Lookup(GoCleanMembers(c, ms), k) ==
      match Lookup(ms, k) case None => None case Some(x) => Some(GoClean(c, x))
  {
    if ms != [] {
      CleanedLookup(c, ms[1..], k);
      assert GoCleanMembers(c, ms)[1..] == GoCleanMembers(c, ms[1..]);
    }
  }

  /** Neither the cleaned value nor the report depends on the iteration order of any map. */
  lemma IterationOrderDoesNotMatter(u: Unicode, a: Value, b: Value)
    requires WellFormed(a) && WellFormed(b) && SameUpToOrder(a, b)
    ensures var c := GoCleaner(u); SameUpToOrder(GoClean(c, a), GoClean(c, b)) && Report(c, a) == Report(c, b)
  {
    GoCleanerTallies(u);
    ReportIgnoresKeyOrder(GoCleaner(u), a, b);
    CleanedAlike(GoCleaner(u), a, b);
  }

  lemma {:induction false} CleanedAlike(c: Cleaner, a: Value, b: Value)
    requires SameUpToOrder(a, b)
    ensures SameUpToOrder(GoClean(c, a), GoClean(c, b))
    decreases a
  {
    match (a, b)
    case (Leaf(_), Leaf(_)) =>
    case (Arr(xs), Arr(ys)) =>
      forall i | 0 <= i < |xs| ensures SameUpToOrder(GoClean(c, xs[i]), GoClean(c, ys[i])) {
        CleanedAlike(c, xs[i], ys[i]);
      }
    case (Obj(xs), Obj(ys)) =>
      CleanedKeysAre(c, xs);
      CleanedKeysAre(c, ys);
      forall m | m in GoCleanMembers(c, xs)
        ensures Lookup(GoCleanMembers(c, ys), m.key).Some? &&
          SameUpToOrder(m.value, Lookup(GoCleanMembers(c, ys), m.key).value)
      {
        var i :| 0 <= i < |xs| && m == GoCleanMembers(c, xs)[i];
        assert xs[i] in xs;
        CleanedLookup(c, ys, m.key);
        CleanedAlike(c, xs[i].value, Lookup(ys, m.key).value);
      }
  }

  lemma {:induction false} CleanedKeysAre(c: Cleaner, ms: seq<Member>)
    ensures KeySet(GoCleanMembers(c, ms)) == KeySet(ms)
  {
    if ms != [] {
      CleanedKeysAre(c, ms[1..]);
      KeySetCons(ms);
      KeySetCons(GoCleanMembers(c, ms));
      assert GoCleanMembers(c, ms)[1..] == GoCleanMembers(c, ms[1..]);
    }
  }

  // ----- Sanitizing twice, and without findings -----

  /** Cleaning a cleaned value finds nothing and changes nothing. */
  lemma {:induction false} CleanedTwice(u: Unicode, v: Value, keys: seq<Text>)
    requires RunesStable(u.nfkc) && ReadsBack(u)
    ensures var c := GoCleaner(u); Findings(c, GoClean(c, v), keys) == [] && GoClean(c, GoClean(c, v)) == GoClean(c, v)
    decreases v
  {
    var c := GoCleaner(u);
    match v
    case Leaf(Str(t)) =>
      CleanRunesIdempotent(u.nfkc, u.decode(t));
      RuneTalliesAre(u.nfkc, u.decode(c.clean(t)));
    case Leaf(_) =>
    case Arr(items) =>
      var cleaned := GoCleanItems(c, items);
      forall i | 0 <= i < |items|
        ensures Findings(c, cleaned[i], keys + [Decimal(i)]) == [] && GoClean(c, cleaned[i]) == cleaned[i]
      {
        CleanedTwice(u, items[i], keys + [Decimal(i)]);
      }
      NothingFrom(c, cleaned, keys, 0);
      assert GoCleanItems(c, cleaned) == cleaned;
    case Obj(members) =>
      var cleaned := GoCleanMembers(c, members);
      forall i | 0 <= i < |members|
        ensures Findings(c, cleaned[i].value, keys + [cleaned[i].key]) == [] && GoClean(c, cleaned[i].value) == cleaned[i].value
      {
        CleanedTwice(u, members[i].value, keys + [members[i].key]);
      }
      NothingOf(c, cleaned, keys);
      assert GoCleanMembers(c, cleaned) == cleaned;
  }

  lemma {:induction false} NothingFrom(c: Cleaner, items: seq<Value>, keys: seq<Text>, from: nat)
    requires from <= |items|
    ensures FindingsFrom(c, items, keys, from) == [] <==>
      forall i | from <= i < |items| :: Findings(c, items[i], keys + [Decimal(i)]) == []
    decreases |items| - from
  {
    if from < |items| {
      NothingFrom(c, items, keys, from + 1);
    }
  }

  lemma {:induction false} NothingOf(c: Cleaner, ms: seq<Member>, keys: seq<Text>)
    ensures FindingsOf(c, ms, keys) == [] <==> forall i | 0 <= i < |ms| :: Findings(c, ms[i].value, keys + [ms[i].key]) == []
  {
    if ms != [] {
      NothingOf(c, ms[1..], keys);
      assert ms == [ms[0]] + ms[1..];
    }
  }

  /** The Go sanitizer is idempotent on every value: a second run reports no modification and returns the value unchanged. */
  lemma GoSanitizeIdempotent(u: Unicode, v: Value)
    requires RunesStable(u.nfkc) && ReadsBack(u)
    ensures var c := GoCleaner(u); Report(c, GoClean(c, v)) == [] && GoClean(c, GoClean(c, v)) == GoClean(c, v)
  {
    CleanedTwice(u, v, []);
  }

  /** Every string of the value is what its characters are written as, so valid UTF-8. */
  predicate ValidStrings(u: Unicode, v: Value) {
    match v
    case Leaf(Str(t)) => u.encode(u.decode(t)) == t
    case Leaf(_) => true
    case Arr(items) => forall x | x in items :: ValidStrings(u, x)
    case Obj(members) => forall m | m in members :: ValidStrings(u, m.value)
  }

  lemma {:induction false} NoFindingsNoChange(u: Unicode, v: Value, keys: seq<Text>)
    requires Findings(GoCleaner(u), v, keys) == []
    ensures GoClean(GoCleaner(u), v) == v <==> ValidStrings(u, v)
    decreases v
  {
    var c := GoCleaner(u);
    match v
    case Leaf(Str(t)) =>
      RuneTalliesAre(u.nfkc, u.decode(t));
      SameSizeSameRunes(u.decode(t), IsStripped);
    case Leaf(_) =>
    case Arr(items) =>
      NothingFrom(c, items, keys, 0);
      forall i | 0 <= i < |items| ensures GoClean(c, items[i]) == items[i] <==> ValidStrings(u, items[i]) {
        NoFindingsNoChange(u, items[i], keys + [Decimal(i)]);
      }
      assert GoCleanItems(c, items) == items <==> forall i | 0 <= i < |items| :: GoClean(c, items[i]) == items[i];
    case Obj(members) =>
      NothingOf(c, members, keys);
      forall i | 0 <= i < |members| ensures GoClean(c, members[i].value) == members[i].value <==> ValidStrings(u, members[i].value) {
        NoFindingsNoChange(u, members[i].value, keys + [members[i].key]);
      }
      MembersUnchanged(c, members);
  }

  lemma MembersUnchanged(c: Cleaner, ms: seq<Member>)
    ensures GoCleanMembers(c, ms) == ms <==> forall i | 0 <= i < |ms| :: GoClean(c, ms[i].value) == ms[i].value
  {
    forall i | 0 <= i < |ms| ensures GoCleanMembers(c, ms)[i] == ms[i] <==> GoClean(c, ms[i].value) == ms[i].value {
      assert ms[i] == Member(ms[i].key, ms[i].value);
    }
  }

  /** A value about which nothing is reported is returned unchanged exactly when its strings are valid UTF-8. */
  lemma UnreportedIsUnchangedExactly(u: Unicode, v: Value)
    requires Report(GoCleaner(u), v) == []
    ensures GoClean(GoCleaner(u), v) == v <==> ValidStrings(u, v)
  {
    NoFindingsNoChange(u, v, []);
  }

  // ----- Decimal text in a fixed buffer -----

  const MIN_INT: int := -0x8000_0000_0000_0000
  const MAX_INT: int := 0x7FFF_FFFF_FFFF_FFFF
  const MINUS: Unit := 45

  function Pow10(n: nat): nat {
    if n == 0 then 1 else 10 * Pow10(n - 1)
  }

  /** Negation of a 64-bit integer, which leaves the least one as it is. */
  function Negate(i: int): int {
    if i == MIN_INT then i else -i
  }

  /** The digits of a number; zero has none. */
  function Digits(x: nat): Text {
    if x > 0 then Decimal(x) else []
  }

  lemma LastDigit(x: nat, tail: Text)
    requires x > 0
    ensures Digits(x / 10) + ([48 + x % 10] + tail) == Digits(x) + tail
  {
    assert Digits(x / 10) + ([48 + x % 10] + tail) == Digits(x / 10) + [48 + x % 10] + tail;
  }

  /** Writes the digits of `n` from the end of the buffer, last digit first. */
  method FillDigits(buf: array<Unit>, n: nat) returns (pos: nat)
    requires buf.Length == 20 && 0 < n < Pow10(19)
    modifies buf
    ensures 1 <= pos <= 20 && buf[pos..] == Decimal(n)
  {
    var x := n;
    pos := buf.Length;
    while x > 0
      invariant 1 <= pos <= 20 && 0 <= x < Pow10(pos - 1)
      invariant Digits(x) + buf[pos..] == Decimal(n)
    {
      ghost var tail := buf[pos..];
      LastDigit(x, tail);
      pos := pos - 1;
      buf[pos] := 48 + x % 10;
      assert buf[pos..] == [48 + x % 10] + tail;
      x := x / 10;
    }
  }

  /** `itoa`: prints into a 20-byte buffer. Of the least integer only the sign is printed. */
  method Itoa(i: int) returns (t: Text)
    requires MIN_INT <= i <= MAX_INT
    ensures t == if i == MIN_INT then [MINUS] else if i < 0 then [MINUS] + Decimal(-i) else Decimal(i)
  {
    if i == 0 {
      return [48];
    }
    var neg, x := i < 0, if i < 0 then Negate(i) else i;
    var buf := new Unit[20];
    var pos := buf.Length;
    PowersOfTen();
    if x > 0 {
      pos := FillDigits(buf, x);
    }
    ghost var digits := buf[pos..];
    if neg {
      pos := pos - 1;
      buf[pos] := MINUS;
      assert buf[pos..] == [MINUS] + digits;
    }
    t := buf[pos..];
  }

  lemma PowersOfTen()
    ensures Pow10(19) == 10_000_000_000_000_000_000
  {
    assert Pow10(5) == 100_000;
    assert Pow10(10) == 10_000_000_000;
    assert Pow10(15) == 1_000_000_000_000_000;
  }
}
