/**
 The sanitizer on one string: four passes, each deleting one class of code points, then the
 normalization form NFKC, which is a parameter.
 */
module Stripping {
  import opened Texts
  import opened Utf16

  datatype Kind = UnicodeTags | ZeroWidth | BidiOverride | ControlChar | NfkcNormalized

  function KindText(k: Kind): Text {
    match k
    case UnicodeTags => Ascii("unicode-tags")
    case ZeroWidth => Ascii("zero-width")
    case BidiOverride => Ascii("bidi-override")
    case ControlChar => Ascii("control-char")
    case NfkcNormalized => Ascii("nfkc-normalized")
  }

  predicate InClass(k: Kind, c: CodePoint) {
    match k
    case UnicodeTags => 0xE0000 <= c <= 0xE007F
    case ZeroWidth => 0x200B <= c <= 0x200D || c == 0xFEFF
    case BidiOverride => 0x202A <= c <= 0x202E || 0x2066 <= c <= 0x2069
    case ControlChar => c <= 0x08 || 0x0B <= c <= 0x0C || 0x0E <= c <= 0x1F || 0x7F <= c <= 0x9F
    case NfkcNormalized => false
  }

  const STRIP_ORDER: seq<Kind> := [UnicodeTags, ZeroWidth, BidiOverride, ControlChar]

  predicate Stripped(c: CodePoint) {
    InClass(UnicodeTags, c) || InClass(ZeroWidth, c) || InClass(BidiOverride, c) || InClass(ControlChar, c)
  }

  datatype Tally = Tally(kind: Kind, count: nat)

  // ----- One pass -----

  function Without(k: Kind, cs: seq<CodePoint>): seq<CodePoint> {
    if cs == [] then [] else if InClass(k, cs[0]) then Without(k, cs[1..]) else [cs[0]] + Without(k, cs[1..])
  }

  function CountOf(k: Kind, cs: seq<CodePoint>): nat {
    if cs == [] then 0 else (if InClass(k, cs[0]) then 1 else 0) + CountOf(k, cs[1..])
  }

  /** Deletes every match of a class, code point by code point. */
  function Strip(k: Kind, t: Text): Text {
    Encode(Without(k, Decode(t)))
  }

  lemma {:induction false} NothingToStrip(k: Kind, cs: seq<CodePoint>)
    requires CountOf(k, cs) == 0
    ensures Without(k, cs) == cs
  {
    if cs != [] {
      NothingToStrip(k, cs[1..]);
    }
  }

  // ----- All passes -----

  function StripAll(kinds: seq<Kind>, t: Text): Text {
    if kinds == [] then t else StripAll(kinds[1..], Strip(kinds[0], t))
  }

  function Tallies(kinds: seq<Kind>, t: Text): seq<Tally> {
    if kinds == [] then []
    else
      var n := CountOf(kinds[0], Decode(t));
      (if n > 0 then [Tally(kinds[0], n)] else []) + Tallies(kinds[1..], Strip(kinds[0], t))
  }

  /** The code points that survive one filter over the input. */
  function Kept(cs: seq<CodePoint>): seq<CodePoint> {
    if cs == [] then [] else if Stripped(cs[0]) then Kept(cs[1..]) else [cs[0]] + Kept(cs[1..])
  }

  // ----- The classes of single code units -----

  predicate Bmp(k: Kind) {
    k.ZeroWidth? || k.BidiOverride? || k.ControlChar?
  }

  function UnitsWithout(k: Kind, t: Text): Text {
    if t == [] then [] else if InClass(k, t[0]) then UnitsWithout(k, t[1..]) else [t[0]] + UnitsWithout(k, t[1..])
  }

  function UnitCount(k: Kind, t: Text): nat {
    if t == [] then 0 else (if InClass(k, t[0]) then 1 else 0) + UnitCount(k, t[1..])
  }

  lemma {:induction false} OtherCountStays(k: Kind, j: Kind, t: Text)
    requires k != j
    ensures UnitCount(k, UnitsWithout(j, t)) == UnitCount(k, t)
  {
    if t != [] {
      OtherCountStays(k, j, t[1..]);
    }
  }

  /** The text left by the pass over tags. */
  function NoTags(cs: seq<CodePoint>): Text {
    Encode(Without(UnicodeTags, cs))
  }

  lemma PairUnits(c: CodePoint)
    requires c >= 0x1_0000
    ensures IsHighSurrogate(Units(c)[0]) && IsLowSurrogate(Units(c)[1]) && |Units(c)| == 2
  {
  }

  lemma {:induction false} NoTagsCount(k: Kind, cs: seq<CodePoint>)
    requires Bmp(k)
    ensures UnitCount(k, NoTags(cs)) == CountOf(k, cs)
  {
    if cs != [] {
      NoTagsCount(k, cs[1..]);
      if !InClass(UnicodeTags, cs[0]) {
        UnitCountCons(k, cs[0], NoTags(cs[1..]));
      }
    }
  }

  lemma UnitCountCons(k: Kind, c: CodePoint, rest: Text)
    requires Bmp(k)
    ensures UnitCount(k, Units(c) + rest) == (if InClass(k, c) then 1 else 0) + UnitCount(k, rest)
  {
    var t := Units(c) + rest;
    if c >= 0x1_0000 {
      PairUnits(c);
      assert t[1..][0] == Units(c)[1] && t[1..][1..] == rest;
    } else {
      assert t[1..] == rest;
    }
  }

  lemma UnitsWithoutCons(k: Kind, c: CodePoint, rest: Text)
    requires Bmp(k)
    ensures UnitsWithout(k, Units(c) + rest) == (if InClass(k, c) then [] else Units(c)) + UnitsWithout(k, rest)
  {
    var t := Units(c) + rest;
    if c >= 0x1_0000 {
      PairUnits(c);
      assert t[1..][0] == Units(c)[1] && t[1..][1..] == rest;
    } else {
      assert t[1..] == rest;
    }
  }

  function UnitsKept(t: Text): Text {
    UnitsWithout(ControlChar, UnitsWithout(BidiOverride, UnitsWithout(ZeroWidth, t)))
  }

  lemma UnitsKeptCons(c: CodePoint, rest: Text)
    requires !InClass(UnicodeTags, c)
    ensures UnitsKept(Units(c) + rest) == (if Stripped(c) then [] else Units(c)) + UnitsKept(rest)
  {
    UnitsWithoutCons(ZeroWidth, c, rest);
    var r1 := UnitsWithout(ZeroWidth, rest);
    if InClass(ZeroWidth, c) {
      assert [] + r1 == r1;
    } else {
      UnitsWithoutCons(BidiOverride, c, r1);
      var r2 := UnitsWithout(BidiOverride, r1);
      if InClass(BidiOverride, c) {
        assert [] + r2 == r2;
      } else {
        UnitsWithoutCons(ControlChar, c, r2);
      }
    }
  }

  lemma {:induction false} UnitsKeptIsKept(cs: seq<CodePoint>)
    ensures UnitsKept(NoTags(cs)) == Encode(Kept(cs))
  {
    if cs != [] {
      UnitsKeptIsKept(cs[1..]);
      if InClass(UnicodeTags, cs[0]) {
      } else {
        UnitsKeptCons(cs[0], NoTags(cs[1..]));
      }
    }
  }

  lemma FirstPoint(t: Text) returns (c: CodePoint, rest: Text)
    requires t != []
    ensures t == Units(c) + rest && Decode(t) == [c] + Decode(rest) && |rest| < |t|
  {
    if StartsWithPair(t) {
      c, rest := Joined(t[0], t[1]), t[2..];
      assert Units(c) == [t[0], t[1]];
    } else {
      c, rest := t[0], t[1..];
    }
  }

  lemma {:induction false} UnitwiseStrip(k: Kind, t: Text)
    requires Bmp(k)
    ensures Strip(k, t) == UnitsWithout(k, t) && CountOf(k, Decode(t)) == UnitCount(k, t)
    decreases |t|
  {
    if t != [] {
      var c, rest := FirstPoint(t);
      UnitwiseStrip(k, rest);
      UnitsWithoutCons(k, c, rest);
      UnitCountCons(k, c, rest);
      assert Decode(t)[1..] == Decode(rest);
      assert Encode([c] + Without(k, Decode(rest))) == Units(c) + Encode(Without(k, Decode(rest)));
    }
  }

  // ----- The four passes together -----

  function TallyOf(k: Kind, n: nat): seq<Tally> {
    if n > 0 then [Tally(k, n)] else []
  }

  lemma PassByPass(t: Text)
    ensures var t1 := Strip(UnicodeTags, t); var t2 := Strip(ZeroWidth, t1); var t3 := Strip(BidiOverride, t2);
      StripAll(STRIP_ORDER, t) == Strip(ControlChar, t3) &&
      Tallies(STRIP_ORDER, t) ==
        TallyOf(UnicodeTags, CountOf(UnicodeTags, Decode(t))) + (TallyOf(ZeroWidth, CountOf(ZeroWidth, Decode(t1))) +
        (TallyOf(BidiOverride, CountOf(BidiOverride, Decode(t2))) + TallyOf(ControlChar, CountOf(ControlChar, Decode(t3)))))
  {
    var t1 := Strip(UnicodeTags, t);
    var t2 := Strip(ZeroWidth, t1);
    var t3 := Strip(BidiOverride, t2);
    var r1: seq<Kind>, r2: seq<Kind>, r3: seq<Kind> := [ZeroWidth, BidiOverride, ControlChar], [BidiOverride, ControlChar], [ControlChar];
    assert STRIP_ORDER[1..] == r1 && r1[1..] == r2 && r2[1..] == r3 && r3[1..] == [];
    assert Tallies([], Strip(ControlChar, t3)) == [];
    assert Tallies(r3, t3) == TallyOf(ControlChar, CountOf(ControlChar, Decode(t3)));
    assert Tallies(r2, t2) == TallyOf(BidiOverride, CountOf(BidiOverride, Decode(t2))) + Tallies(r3, t3);
    assert Tallies(r1, t1) == TallyOf(ZeroWidth, CountOf(ZeroWidth, Decode(t1))) + Tallies(r2, t2);
    assert StripAll(r3, t3) == Strip(ControlChar, t3);
    assert StripAll(r2, t2) == Strip(ControlChar, t3);
    assert StripAll(r1, t1) == Strip(ControlChar, t3);
  }

  lemma PassCounts(t: Text)
    ensures var t1 := Strip(UnicodeTags, t); var t2 := Strip(ZeroWidth, t1); var t3 := Strip(BidiOverride, t2);
      CountOf(ZeroWidth, Decode(t1)) == CountOf(ZeroWidth, Decode(t)) &&
      CountOf(BidiOverride, Decode(t2)) == CountOf(BidiOverride, Decode(t)) &&
      CountOf(ControlChar, Decode(t3)) == CountOf(ControlChar, Decode(t)) &&
      Strip(ControlChar, t3) == UnitsKept(t1)
  {
    var t1 := Strip(UnicodeTags, t);
    var t2 := Strip(ZeroWidth, t1);
    var t3 := Strip(BidiOverride, t2);
    UnitwiseStrip(ZeroWidth, t1);
    UnitwiseStrip(BidiOverride, t2);
    UnitwiseStrip(ControlChar, t3);
    NoTagsCount(ZeroWidth, Decode(t));
    NoTagsCount(BidiOverride, Decode(t));
    NoTagsCount(ControlChar, Decode(t));
    OtherCountStays(BidiOverride, ZeroWidth, t1);
    OtherCountStays(ControlChar, ZeroWidth, t1);
    OtherCountStays(ControlChar, BidiOverride, t2);
  }

  /** The passes, each decoding what the one before left, are one filter over the input; so are their counts. */
  lemma PassesAreOneFilter(t: Text)
    ensures StripAll(STRIP_ORDER, t) == Encode(Kept(Decode(t)))
    ensures Tallies(STRIP_ORDER, t) ==
      TallyOf(UnicodeTags, CountOf(UnicodeTags, Decode(t))) + (TallyOf(ZeroWidth, CountOf(ZeroWidth, Decode(t))) +
      (TallyOf(BidiOverride, CountOf(BidiOverride, Decode(t))) + TallyOf(ControlChar, CountOf(ControlChar, Decode(t)))))
  {
    PassByPass(t);
    PassCounts(t);
    UnitsKeptIsKept(Decode(t));
  }

  function Total(tallies: seq<Tally>): nat {
    if tallies == [] then 0 else tallies[0].count + Total(tallies[1..])
  }

  lemma TotalTally(k: Kind, n: nat, rest: seq<Tally>)
    ensures Total(TallyOf(k, n) + rest) == n + Total(rest)
  {
    if n > 0 {
      assert (TallyOf(k, n) + rest)[1..] == rest;
    } else {
      assert TallyOf(k, n) + rest == rest;
    }
  }

  lemma {:induction false} CountsAddUp(cs: seq<CodePoint>)
    ensures CountOf(UnicodeTags, cs) + CountOf(ZeroWidth, cs) + CountOf(BidiOverride, cs) + CountOf(ControlChar, cs) == |cs| - |Kept(cs)|
  {
    if cs != [] {
      CountsAddUp(cs[1..]);
    }
  }

  /** The counts reported for the passes add up to the code points removed. */
  lemma CountsAreCodePointsRemoved(t: Text)
    ensures Total(Tallies(STRIP_ORDER, t)) == |Decode(t)| - |Kept(Decode(t))|
  {
    PassesAreOneFilter(t);
    var cs := Decode(t);
    var last := TallyOf(ControlChar, CountOf(ControlChar, cs));
    assert last + [] == last;
    TotalTally(ControlChar, CountOf(ControlChar, cs), []);
    TotalTally(BidiOverride, CountOf(BidiOverride, cs), last);
    TotalTally(ZeroWidth, CountOf(ZeroWidth, cs), TallyOf(BidiOverride, CountOf(BidiOverride, cs)) + last);
    TotalTally(UnicodeTags, CountOf(UnicodeTags, cs),
               TallyOf(ZeroWidth, CountOf(ZeroWidth, cs)) + (TallyOf(BidiOverride, CountOf(BidiOverride, cs)) + last));
    CountsAddUp(cs);
  }

  // ----- Another order of the passes -----

  function WithoutAny(kinds: seq<Kind>, cs: seq<CodePoint>): seq<CodePoint> {
    if kinds == [] then cs else WithoutAny(kinds[1..], Without(kinds[0], cs))
  }

  lemma {:induction false} WithoutStaysScalar(k: Kind, cs: seq<CodePoint>)
    requires forall c | c in cs :: IsScalar(c)
    ensures forall c | c in Without(k, cs) :: IsScalar(c)
  {
    if cs != [] {
      assert cs[0] in cs;
      WithoutStaysScalar(k, cs[1..]);
    }
  }

  lemma {:induction false} ScalarPasses(kinds: seq<Kind>, cs: seq<CodePoint>)
    requires forall c | c in cs :: IsScalar(c)
    ensures StripAll(kinds, Encode(cs)) == Encode(WithoutAny(kinds, cs))
    decreases |kinds|
  {
    if kinds != [] {
      DecodeEncode(cs);
      WithoutStaysScalar(kinds[0], cs);
      ScalarPasses(kinds[1..], Without(kinds[0], cs));
    }
  }

  predicate AnyOf(kinds: seq<Kind>, c: CodePoint) {
    exists k :: k in kinds && InClass(k, c)
  }

  lemma {:induction false} WithoutAnyCons(kinds: seq<Kind>, cs: seq<CodePoint>)
    requires cs != []
    ensures WithoutAny(kinds, cs) == (if AnyOf(kinds, cs[0]) then [] else [cs[0]]) + WithoutAny(kinds, cs[1..])
    decreases |kinds|
  {
    if kinds != [] {
      assert kinds == [kinds[0]] + kinds[1..];
      if InClass(kinds[0], cs[0]) {
        assert kinds[0] in kinds;
      } else {
        WithoutAnyCons(kinds[1..], Without(kinds[0], cs));
        assert Without(kinds[0], cs)[1..] == Without(kinds[0], cs[1..]);
      }
    }
  }

  lemma {:induction false} WithoutAllIsKept(kinds: seq<Kind>, cs: seq<CodePoint>)
    requires forall k: Kind :: k.NfkcNormalized? || k in kinds
    ensures WithoutAny(kinds, cs) == Kept(cs)
  {
    if cs == [] {
      WithoutAnyEmpty(kinds);
    } else {
      WithoutAnyCons(kinds, cs);
      WithoutAllIsKept(kinds, cs[1..]);
    }
  }

  lemma {:induction false} WithoutAnyEmpty(kinds: seq<Kind>)
    ensures WithoutAny(kinds, []) == []
    decreases |kinds|
  {
    if kinds != [] {
      WithoutAnyEmpty(kinds[1..]);
    }
  }

  /** On well-formed UTF-16 the passes may run in any order. */
  lemma AnyOrderWillDo(kinds: seq<Kind>, t: Text)
    requires forall k: Kind :: k.NfkcNormalized? || k in kinds
    requires forall c | c in Decode(t) :: IsScalar(c)
    ensures StripAll(kinds, t) == StripAll(STRIP_ORDER, t)
  {
    EncodeDecode(t);
    ScalarPasses(kinds, Decode(t));
    WithoutAllIsKept(kinds, Decode(t));
    PassesAreOneFilter(t);
  }

  // ----- Running the passes again -----

  /** Two lone surrogates side by side that together are a tag character. */
  predicate TagJoin(cs: seq<CodePoint>) {
    |cs| >= 2 && cs[0] == 0xDB40 && 0xDC00 <= cs[1] <= 0xDC7F
  }

  predicate JoinsTag(cs: seq<CodePoint>) {
    cs != [] && (TagJoin(cs) || JoinsTag(cs[1..]))
  }

  predicate Clean(t: Text) {
    forall c | c in Decode(t) :: !Stripped(c)
  }

  lemma {:induction false} KeptIsUnstripped(cs: seq<CodePoint>)
    ensures forall c | c in Kept(cs) :: !Stripped(c)
  {
    if cs != [] {
      KeptIsUnstripped(cs[1..]);
    }
  }

  lemma JoinedStripped(high: Unit, low: Unit)
    requires IsHighSurrogate(high) && IsLowSurrogate(low)
    ensures Stripped(Joined(high, low)) <==> high == 0xDB40 && low <= 0xDC7F
  {
  }

  lemma {:induction false} EncodedClean(cs: seq<CodePoint>)
    requires forall c | c in cs :: !Stripped(c)
    ensures Clean(Encode(cs)) <==> !JoinsTag(cs)
    decreases |cs|
  {
    if cs != [] {
      DecodeEncodeStep(cs);
      assert cs[0] in cs;
      if Joins(cs) {
        JoinedStripped(cs[0], cs[1]);
        EncodedClean(cs[2..]);
        assert cs[1..][1..] == cs[2..] && !TagJoin(cs[1..]);
        DecodedCons(Joined(cs[0], cs[1]), Decode(Encode(cs[2..])));
      } else {
        EncodedClean(cs[1..]);
        DecodedCons(cs[0], Decode(Encode(cs[1..])));
      }
    }
  }

  lemma DecodedCons(c: CodePoint, cs: seq<CodePoint>)
    ensures (forall d | d in [c] + cs :: !Stripped(d)) <==> !Stripped(c) && forall d | d in cs :: !Stripped(d)
  {
    assert c in [c] + cs;
    assert forall d :: d in cs ==> d in [c] + cs;
  }

  lemma {:induction false} CleanCountsNothing(cs: seq<CodePoint>)
    ensures (forall c | c in cs :: !Stripped(c)) <==> Kept(cs) == cs
    ensures |Kept(cs)| <= |cs|
  {
    if cs != [] {
      CleanCountsNothing(cs[1..]);
      DecodedCons(cs[0], cs[1..]);
      assert cs == [cs[0]] + cs[1..];
    }
  }

  /** No pass reports anything exactly on a clean text, and then the passes leave it alone. */
  lemma CleanIsUntouched(t: Text)
    ensures Clean(t) <==> Tallies(STRIP_ORDER, t) == []
    ensures Clean(t) ==> StripAll(STRIP_ORDER, t) == t
  {
    PassesAreOneFilter(t);
    CountsAddUp(Decode(t));
    CleanCountsNothing(Decode(t));
    EncodeDecode(t);
    if !Clean(t) {
      ShorterKept(Decode(t));
    }
  }

  lemma {:induction false} ShorterKept(cs: seq<CodePoint>)
    ensures Kept(cs) != cs ==> |Kept(cs)| < |cs|
  {
    if cs != [] {
      ShorterKept(cs[1..]);
      CleanCountsNothing(cs[1..]);
      assert cs == [cs[0]] + cs[1..];
    }
  }

  /** What the passes leave is clean exactly when no two lone surrogates come to form a tag. */
  lemma PassesCleanExactly(t: Text)
    ensures Clean(StripAll(STRIP_ORDER, t)) <==> !JoinsTag(Kept(Decode(t)))
  {
    PassesAreOneFilter(t);
    KeptIsUnstripped(Decode(t));
    EncodedClean(Kept(Decode(t)));
  }

  // ----- With normalization -----

  function NfkcCount(nfkc: Text -> Text, cs: seq<CodePoint>): nat {
    if cs == [] then 0 else (if nfkc(Units(cs[0])) != Units(cs[0]) then 1 else 0) + NfkcCount(nfkc, cs[1..])
  }

  function CleanString(nfkc: Text -> Text, t: Text): Text {
    nfkc(StripAll(STRIP_ORDER, t))
  }

  function NfkcTally(nfkc: Text -> Text, t: Text): seq<Tally> {
    if nfkc(t) == t then []
    else
      var n := NfkcCount(nfkc, Decode(t));
      [Tally(NfkcNormalized, if n == 0 then 1 else n)]
  }

  function StringTallies(nfkc: Text -> Text, t: Text): seq<Tally> {
    Tallies(STRIP_ORDER, t) + NfkcTally(nfkc, StripAll(STRIP_ORDER, t))
  }

  /** NFKC is idempotent, and neither introduces nor removes a stripped character. */
  ghost predicate NfkcStable(nfkc: Text -> Text) {
    forall t :: nfkc(nfkc(t)) == nfkc(t) && (Clean(nfkc(t)) <==> Clean(t))
  }

  /** A text without findings is not changed. */
  lemma NoFindingNoChange(nfkc: Text -> Text, t: Text)
    requires StringTallies(nfkc, t) == []
    ensures CleanString(nfkc, t) == t
  {
    CleanIsUntouched(t);
    assert Tallies(STRIP_ORDER, t) == [];
  }

  /**
   Sanitizing the result again finds nothing exactly when no lone surrogates of the input come to
   form a tag character once what stood between them is stripped; then it also changes nothing.
   */
  lemma CleanStringIdempotentExactly(nfkc: Text -> Text, t: Text)
    requires NfkcStable(nfkc)
    ensures StringTallies(nfkc, CleanString(nfkc, t)) == [] <==> !JoinsTag(Kept(Decode(t)))
    ensures !JoinsTag(Kept(Decode(t))) ==> CleanString(nfkc, CleanString(nfkc, t)) == CleanString(nfkc, t)
  {
    var out := CleanString(nfkc, t);
    PassesCleanExactly(t);
    CleanIsUntouched(out);
    assert Clean(out) <==> Clean(StripAll(STRIP_ORDER, t));
  }

  lemma {:induction false} ScalarsDoNotJoin(cs: seq<CodePoint>)
    requires forall c | c in cs :: IsScalar(c)
    ensures !JoinsTag(Kept(cs)) && forall c | c in Kept(cs) :: IsScalar(c)
  {
    if cs != [] {
      assert cs[0] in cs;
      ScalarsDoNotJoin(cs[1..]);
    }
  }

  /** On well-formed UTF-16 the sanitizer is idempotent, as its documentation says. */
  lemma WellFormedTextIdempotent(nfkc: Text -> Text, t: Text)
    requires NfkcStable(nfkc) && forall c | c in Decode(t) :: IsScalar(c)
    ensures StringTallies(nfkc, CleanString(nfkc, t)) == [] && CleanString(nfkc, CleanString(nfkc, t)) == CleanString(nfkc, t)
  {
    ScalarsDoNotJoin(Decode(t));
    CleanStringIdempotentExactly(nfkc, t);
  }

  /** A tag split by a zero-width space: the first run puts it together, the second one strips it. */
  lemma SplitTagSurvivesOnce(nfkc: Text -> Text)
    requires NfkcStable(nfkc)
    ensures exists t :: StringTallies(nfkc, CleanString(nfkc, t)) != []
  {
    var t: Text := [0xDB40, 0x200B, 0xDC00];
    assert t[1..] == [0x200B, 0xDC00] && t[1..][1..] == [0xDC00] && t[1..][1..][1..] == [];
    var cs: seq<CodePoint> := [0xDB40, 0x200B, 0xDC00];
    assert Decode([0xDC00]) == [0xDC00] && Decode([0x200B, 0xDC00]) == [0x200B, 0xDC00];
    assert Decode(t) == cs;
    assert cs[1..] == [0x200B, 0xDC00] && cs[1..][1..] == [0xDC00] && cs[1..][1..][1..] == [];
    assert Kept([0xDC00]) == [0xDC00] && Kept([0x200B, 0xDC00]) == [0xDC00];
    assert Kept(cs) == [0xDB40, 0xDC00];
    CleanStringIdempotentExactly(nfkc, t);
  }

  // ----- At most one tally per kind -----

  predicate DistinctKinds(tallies: seq<Tally>) {
    forall i, j :: 0 <= i < j < |tallies| ==> tallies[i].kind != tallies[j].kind
  }

  lemma {:induction false} TalliesDistinct(kinds: seq<Kind>, t: Text)
    requires forall i, j :: 0 <= i < j < |kinds| ==> kinds[i] != kinds[j]
    ensures DistinctKinds(Tallies(kinds, t)) && forall x | x in Tallies(kinds, t) :: x.kind in kinds && x.count > 0
    decreases |kinds|
  {
    if kinds != [] {
      TalliesDistinct(kinds[1..], Strip(kinds[0], t));
    }
  }

  lemma StringTalliesDistinct(nfkc: Text -> Text, t: Text)
    ensures DistinctKinds(StringTallies(nfkc, t))
  {
    TalliesDistinct(STRIP_ORDER, t);
  }

  lemma KindTextInjective(k: Kind, j: Kind)
    ensures KindText(k) == KindText(j) ==> k == j
  {
    assert KindText(k) == KindText(j) ==> |KindText(k)| == |KindText(j)| && KindText(k)[0] == KindText(j)[0];
  }
}
