/** The core's sanitizer and the Go SDK's, class by class and on one string: they differ on U+2060 and on nothing else. */
module SanitizerAgreement {
  import opened Texts
  import opened Utf16
  import opened Stripping
  import Core = Sanitizer
  import Go = GoSanitizer

  const WORD_JOINER: int := 0x2060

  predicate IsWordJoiner(r: Go.Rune) { r == WORD_JOINER }

  /** On characters, the classes of the two sanitizers are the same, but for one character. */
  lemma ClassesAgree(r: Go.Rune)
    ensures InClass(UnicodeTags, r) <==> Go.IsTag(r)
    ensures InClass(ZeroWidth, r) <==> Go.IsZeroWidth(r) && !IsWordJoiner(r)
    ensures InClass(BidiOverride, r) <==> Go.IsBidi(r)
    ensures InClass(ControlChar, r) <==> Go.IsControl(r)
    ensures !InClass(NfkcNormalized, r)
  {
  }

  lemma {:induction false} CountsAgree(s: seq<Go.Rune>)
    ensures CountOf(UnicodeTags, s) == Go.Matches(s, Go.IsTag)
    ensures CountOf(ZeroWidth, s) == Go.Matches(s, Go.IsZeroWidth) - Go.Matches(s, IsWordJoiner)
    ensures CountOf(BidiOverride, s) == Go.Matches(s, Go.IsBidi)
    ensures CountOf(ControlChar, s) == Go.Matches(s, Go.IsControl)
  {
    if s != [] {
      CountsAgree(s[1..]);
      ClassesAgree(s[0]);
    }
  }

  /** What the core keeps, without U+2060, is what the Go sanitizer keeps. */
  lemma {:induction false} KeptAgree(s: seq<Go.Rune>)
    ensures WORD_JOINER !in s ==> Kept(s) == Go.Without(s, Go.IsStripped)
    ensures WORD_JOINER in s ==> WORD_JOINER in Kept(s)
  {
    if s != [] {
      KeptAgree(s[1..]);
      ClassesAgree(s[0]);
      assert s == [s[0]] + s[1..];
    }
  }

  lemma JoinersMatch(s: seq<Go.Rune>)
    ensures Go.Matches(s, IsWordJoiner) == 0 <==> WORD_JOINER !in s
  {
    Go.SameSizeSameRunes(s, IsWordJoiner);
  }

  lemma TalliesSameText(s: seq<Go.Rune>)
    requires WORD_JOINER !in s
    ensures Tallies(STRIP_ORDER, Encode(s)) == Go.ClassTallies(s)
  {
    assert forall c | c in s :: IsScalar(c);
    DecodeEncode(s);
    PassesAreOneFilter(Encode(s));
    CountsAgree(s);
    JoinersMatch(s);
    Regroup(Go.Matches(s, Go.IsTag), Go.Matches(s, Go.IsZeroWidth), Go.Matches(s, Go.IsBidi), Go.Matches(s, Go.IsControl));
  }

  lemma Regroup(tags: nat, zeroWidth: nat, bidi: nat, control: nat)
    ensures Go.FourTallies(tags, zeroWidth, bidi, control) ==
      TallyOf(UnicodeTags, tags) + (TallyOf(ZeroWidth, zeroWidth) + (TallyOf(BidiOverride, bidi) + TallyOf(ControlChar, control)))
  {
    Associative(TallyOf(UnicodeTags, tags), TallyOf(ZeroWidth, zeroWidth), TallyOf(BidiOverride, bidi), TallyOf(ControlChar, control));
  }

  lemma Associative(a: seq<Tally>, b: seq<Tally>, c: seq<Tally>, d: seq<Tally>)
    ensures a + b + c + d == a + (b + (c + d))
  {
  }

  /**
   The passes of the two sanitizers keep the same text of a string exactly when U+2060 does not occur
   in it; and then they report the same kinds with the same counts.
   */
  lemma SameTextExactly(s: seq<Go.Rune>)
    ensures StripAll(STRIP_ORDER, Encode(s)) == Encode(Go.Without(s, Go.IsStripped)) <==> WORD_JOINER !in s
    ensures WORD_JOINER !in s ==> Tallies(STRIP_ORDER, Encode(s)) == Go.ClassTallies(s)
  {
    var kept := Go.Without(s, Go.IsStripped);
    assert forall c | c in s :: IsScalar(c);
    DecodeEncode(s);
    PassesAreOneFilter(Encode(s));
    KeptAgree(s);
    if WORD_JOINER in s {
      KeptScalar(s);
      DecodeEncode(Kept(s));
      DecodeEncode(kept);
      assert Go.IsStripped(WORD_JOINER) && WORD_JOINER !in kept;
    } else {
      TalliesSameText(s);
    }
  }

  lemma {:induction false} KeptScalar(s: seq<CodePoint>)
    requires forall c | c in s :: IsScalar(c)
    ensures forall c | c in Kept(s) :: IsScalar(c)
  {
    if s != [] {
      assert s[0] in s;
      KeptScalar(s[1..]);
    }
  }

  /** The normalizations agree. */
  ghost predicate SameNormalization(nfkc: Text -> Text, runes: seq<Go.Rune> -> seq<Go.Rune>) {
    forall s: seq<Go.Rune> :: nfkc(Encode(s)) == Encode(runes(s))
  }

  /** With the same normalization, both return the same text for a string without U+2060. */
  lemma SameCleanString(nfkc: Text -> Text, runes: seq<Go.Rune> -> seq<Go.Rune>, s: seq<Go.Rune>)
    requires SameNormalization(nfkc, runes) && WORD_JOINER !in s
    ensures CleanString(nfkc, Encode(s)) == Encode(runes(Go.Without(s, Go.IsStripped)))
  {
    SameTextExactly(s);
  }

  // ----- The whole report on one string -----

  /** The count that a report gives a kind. */
  function Reported(tallies: seq<Tally>, k: Kind): nat {
    if tallies == [] then 0 else (if tallies[0].kind == k then tallies[0].count else 0) + Reported(tallies[1..], k)
  }

  lemma {:induction false} ReportedConcat(a: seq<Tally>, b: seq<Tally>, k: Kind)
    ensures Reported(a + b, k) == Reported(a, k) + Reported(b, k)
  {
    if a == [] {
      assert a + b == b;
    } else {
      assert (a + b)[1..] == a[1..] + b;
      ReportedConcat(a[1..], b, k);
    }
  }

  lemma ReportedOne(kind: Kind, n: nat, k: Kind)
    ensures Reported(TallyOf(kind, n), k) == if kind == k then n else 0
  {
    assert [Tally(kind, n)][1..] == [];
  }

  /** A report with these counts. */
  function FiveTallies(tags: nat, zeroWidth: nat, bidi: nat, control: nat, nfkc: nat): seq<Tally> {
    Go.FourTallies(tags, zeroWidth, bidi, control) + TallyOf(NfkcNormalized, nfkc)
  }

  lemma ReportedCount(tags: nat, zeroWidth: nat, bidi: nat, control: nat, nfkc: nat, k: Kind)
    ensures Reported(FiveTallies(tags, zeroWidth, bidi, control, nfkc), k) ==
      match k
      case UnicodeTags => tags case ZeroWidth => zeroWidth case BidiOverride => bidi case ControlChar => control
      case NfkcNormalized => nfkc
  {
    var a, b, c, d := TallyOf(UnicodeTags, tags), TallyOf(ZeroWidth, zeroWidth), TallyOf(BidiOverride, bidi), TallyOf(ControlChar, control);
    ReportedConcat(a + b + c + d, TallyOf(NfkcNormalized, nfkc), k);
    ReportedConcat(a + b + c, d, k);
    ReportedConcat(a + b, c, k);
    ReportedConcat(a, b, k);
    ReportedOne(UnicodeTags, tags, k);
    ReportedOne(ZeroWidth, zeroWidth, k);
    ReportedOne(BidiOverride, bidi, k);
    ReportedOne(ControlChar, control, k);
    ReportedOne(NfkcNormalized, nfkc, k);
  }

  lemma SameCounts(tags: nat, z1: nat, z2: nat, bidi: nat, control: nat, n1: nat, n2: nat)
    ensures FiveTallies(tags, z1, bidi, control, n1) == FiveTallies(tags, z2, bidi, control, n2) <==> z1 == z2 && n1 == n2
  {
    ReportedCount(tags, z1, bidi, control, n1, ZeroWidth);
    ReportedCount(tags, z2, bidi, control, n2, ZeroWidth);
    ReportedCount(tags, z1, bidi, control, n1, NfkcNormalized);
    ReportedCount(tags, z2, bidi, control, n2, NfkcNormalized);
  }

  /** What normalization adds to the core's count. */
  function NormalizedCount(nfkc: Text -> Text, t: Text): nat {
    if nfkc(t) == t then 0 else if |Denormal(nfkc, Decode(t))| == 0 then 1 else |Denormal(nfkc, Decode(t))|
  }

  /** The core's report: the classes counted over the whole string, then the normalization. */
  lemma CoreReport(nfkc: Text -> Text, s: seq<Go.Rune>)
    ensures StringTallies(nfkc, Encode(s)) ==
      FiveTallies(Go.Matches(s, Go.IsTag), CountOf(ZeroWidth, s), Go.Matches(s, Go.IsBidi), Go.Matches(s, Go.IsControl),
                  NormalizedCount(nfkc, Encode(Kept(s))))
  {
    assert forall c | c in s :: IsScalar(c);
    DecodeEncode(s);
    PassesAreOneFilter(Encode(s));
    CountsAgree(s);
    Regroup(Go.Matches(s, Go.IsTag), CountOf(ZeroWidth, s), Go.Matches(s, Go.IsBidi), Go.Matches(s, Go.IsControl));
    NormalizationTally(nfkc, Encode(Kept(s)));
  }

  lemma NormalizationTally(nfkc: Text -> Text, t: Text)
    ensures NfkcTally(nfkc, t) == TallyOf(NfkcNormalized, NormalizedCount(nfkc, t))
  {
    NfkcCountIs(nfkc, Decode(t));
  }

  lemma SameNormal(nfkc: Text -> Text, runes: seq<Go.Rune> -> seq<Go.Rune>, s: seq<Go.Rune>)
    requires SameNormalization(nfkc, runes)
    ensures nfkc(Encode(s)) == Encode(s) <==> runes(s) == s
  {
    assert forall c | c in s :: IsScalar(c);
    assert forall c | c in runes(s) :: IsScalar(c);
    DecodeEncode(s);
    DecodeEncode(runes(s));
  }

  /**
   With the same normalization both report the same about a string exactly when U+2060 does not occur
   in it, and at most one code point of what is kept is not its own normal form, or normalization
   leaves it alone.
   */
  lemma SameReportExactly(nfkc: Text -> Text, runes: seq<Go.Rune> -> seq<Go.Rune>, s: seq<Go.Rune>)
    requires SameNormalization(nfkc, runes)
    ensures var kept := Go.Without(s, Go.IsStripped);
      StringTallies(nfkc, Encode(s)) == Go.RuneTallies(runes, s) <==>
      WORD_JOINER !in s && (runes(kept) == kept || |Denormal(nfkc, kept)| <= 1)
  {
    var kept := Go.Without(s, Go.IsStripped);
    var n, m := NormalizedCount(nfkc, Encode(Kept(s))), if runes(kept) == kept then 0 else 1;
    CoreReport(nfkc, s);
    GoReport(runes, s);
    SameCounts(Go.Matches(s, Go.IsTag), CountOf(ZeroWidth, s), Go.Matches(s, Go.IsZeroWidth), Go.Matches(s, Go.IsBidi),
               Go.Matches(s, Go.IsControl), n, m);
    SameZeroWidth(s);
    KeptAgree(s);
    NormalizedAlike(nfkc, runes, kept);
  }

  lemma GoReport(runes: seq<Go.Rune> -> seq<Go.Rune>, s: seq<Go.Rune>)
    ensures var kept := Go.Without(s, Go.IsStripped);
      Go.RuneTallies(runes, s) ==
      FiveTallies(Go.Matches(s, Go.IsTag), Go.Matches(s, Go.IsZeroWidth), Go.Matches(s, Go.IsBidi), Go.Matches(s, Go.IsControl),
                  if runes(kept) == kept then 0 else 1)
  {
  }

  lemma SameZeroWidth(s: seq<Go.Rune>)
    ensures CountOf(ZeroWidth, s) == Go.Matches(s, Go.IsZeroWidth) <==> WORD_JOINER !in s
  {
    JoinersMatch(s);
    CountsAgree(s);
  }

  lemma NormalizedAlike(nfkc: Text -> Text, runes: seq<Go.Rune> -> seq<Go.Rune>, kept: seq<Go.Rune>)
    requires SameNormalization(nfkc, runes)
    ensures NormalizedCount(nfkc, Encode(kept)) == (if runes(kept) == kept then 0 else 1) <==>
      runes(kept) == kept || |Denormal(nfkc, kept)| <= 1
  {
    assert forall c | c in kept :: IsScalar(c);
    DecodeEncode(kept);
    SameNormal(nfkc, runes, kept);
  }

  /** The kinds in the order in which a report lists those of one path. */
  lemma KindsInOrder()
    ensures Less(KindText(BidiOverride), KindText(ControlChar)) && Less(KindText(ControlChar), KindText(NfkcNormalized))
    ensures Less(KindText(NfkcNormalized), KindText(UnicodeTags)) && Less(KindText(UnicodeTags), KindText(ZeroWidth))
  {
    assert KindText(BidiOverride)[0] == 'b' as int && KindText(ControlChar)[0] == 'c' as int;
    assert KindText(NfkcNormalized)[0] == 'n' as int && KindText(UnicodeTags)[0] == 'u' as int && KindText(ZeroWidth)[0] == 'z' as int;
  }

  // ----- How much was normalized -----

  /** The positions of the code points that are not their own normal form. */
  function Denormal(nfkc: Text -> Text, cs: seq<CodePoint>): set<nat> {
    set i: nat | 0 <= i < |cs| && nfkc(Units(cs[i])) != Units(cs[i])
  }

  lemma {:induction false} NfkcCountIs(nfkc: Text -> Text, cs: seq<CodePoint>)
    ensures NfkcCount(nfkc, cs) == |Denormal(nfkc, cs)|
    decreases |cs|
  {
    if cs != [] {
      var n := |cs| - 1;
      var front := cs[..n];
      NfkcCountIs(nfkc, front);
      Core.NfkcCountSnoc(nfkc, front, cs[n]);
      assert front + [cs[n]] == cs;
      var ps, qs := Denormal(nfkc, cs), Denormal(nfkc, front);
      if nfkc(Units(cs[n])) != Units(cs[n]) {
        assert ps == qs + {n};
      } else {
        assert ps == qs;
      }
    }
  }
}
