/**
 ECMAScript strings, as the protocol's TypeScript code sees them: sequences of 16-bit code
 units, possibly with unpaired surrogates. Also the decimal numerals used as array indices.
 */
module Texts {

  type Unit = u: int | 0 <= u < 0x1_0000
  type Text = seq<Unit>

  predicate IsHighSurrogate(u: int) { 0xD800 <= u < 0xDC00 }
  predicate IsLowSurrogate(u: int) { 0xDC00 <= u < 0xE000 }

  predicate StartsWithPair(t: Text) {
    |t| >= 2 && IsHighSurrogate(t[0]) && IsLowSurrogate(t[1])
  }

  datatype Option<+T> = None | Some(value: T)

  datatype Result<+T, +E> = Ok(value: T) | Err(error: E)

  /** The code units of a string literal of the source. */
  function Ascii(s: string): (t: Text)
    ensures |t| == |s|
    ensures forall i :: 0 <= i < |s| && s[i] as int < 0x1_0000 ==> t[i] == s[i] as int
  {
    seq(|s|, i requires 0 <= i < |s| => if s[i] as int < 0x1_0000 then s[i] as int else 0xFFFD)
  }

  /** JavaScript truthiness of an optional string: undefined and '' are both falsy. */
  predicate Truthy(o: Option<Text>) {
    o.Some? && o.value != []
  }

  // ----- The order `<` of ECMAScript strings -----

  predicate Less(a: Text, b: Text) {
    b != [] && (a == [] || a[0] < b[0] || (a[0] == b[0] && Less(a[1..], b[1..])))
  }

  lemma {:induction false} LessIrreflexive(a: Text)
    ensures !Less(a, a)
  {
    if a != [] {
      LessIrreflexive(a[1..]);
    }
  }

  lemma {:induction false} LessTransitive(a: Text, b: Text, c: Text)
    requires Less(a, b) && Less(b, c)
    ensures Less(a, c)
  {
    if a != [] && a[0] == b[0] && b[0] == c[0] {
      LessTransitive(a[1..], b[1..], c[1..]);
    }
  }

  lemma {:induction false} LessTotal(a: Text, b: Text)
    ensures a == b || Less(a, b) || Less(b, a)
  {
    if a != [] && b != [] && a[0] == b[0] {
      LessTotal(a[1..], b[1..]);
      if a[1..] == b[1..] {
        assert a == [a[0]] + a[1..] && b == [b[0]] + b[1..];
      }
    }
  }

  /** The texts first differ at `i`, where the first one ends or has the smaller unit. */
  predicate FirstDifference(a: Text, b: Text, i: nat) {
    i <= |a| && i < |b| && a[..i] == b[..i] && (i == |a| || a[i] < b[i])
  }

  /** Lexicographic by code unit, with a proper prefix first. */
  lemma {:induction false} LessExactly(a: Text, b: Text)
    ensures Less(a, b) <==> exists i: nat :: FirstDifference(a, b, i)
  {
    if b != [] && (a == [] || a[0] < b[0]) {
      assert FirstDifference(a, b, 0);
    } else if a != [] && b != [] && a[0] == b[0] {
      LessExactly(a[1..], b[1..]);
      assert a == [a[0]] + a[1..] && b == [b[0]] + b[1..];
      if i: nat :| FirstDifference(a[1..], b[1..], i) {
        assert a[..i + 1] == [a[0]] + a[1..][..i] && b[..i + 1] == [b[0]] + b[1..][..i];
        assert FirstDifference(a, b, i + 1);
      }
      if i: nat :| FirstDifference(a, b, i) {
        assert a[1..][..i - 1] == a[..i][1..] && b[1..][..i - 1] == b[..i][1..];
        assert FirstDifference(a[1..], b[1..], i - 1);
      }
    } else {
      assert forall i: nat :: FirstDifference(a, b, i) ==> i > 0 && a[..i][0] == b[..i][0];
    }
  }

  // ----- Decimal numerals -----

  predicate IsDigit(u: Unit) { 48 <= u <= 57 }

  function Decimal(n: nat): (t: Text)
    ensures |t| > 0
  {
    if n < 10 then [48 + n] else Decimal(n / 10) + [48 + n % 10]
  }

  function DigitValue(u: Unit): nat {
    if 48 <= u then u - 48 else 0
  }

  function Parse(t: Text): nat {
    if t == [] then 0 else 10 * Parse(t[..|t| - 1]) + DigitValue(t[|t| - 1])
  }

  /** The numerals a number prints as: digits only, no leading zero except in "0". */
  predicate IsNumeral(t: Text) {
    t != [] && (forall i :: 0 <= i < |t| ==> IsDigit(t[i])) && (t[0] == 48 ==> |t| == 1)
  }

  lemma {:induction false} DecimalIsNumeral(n: nat)
    ensures IsNumeral(Decimal(n)) && Parse(Decimal(n)) == n
    ensures n > 0 ==> Decimal(n)[0] != 48
  {
    if n < 10 {
      assert Decimal(n)[..0] == [];
    } else {
      var front, last := Decimal(n / 10), n % 10;
      DecimalIsNumeral(n / 10);
      assert Decimal(n) == front + [48 + last] && Decimal(n)[..|front|] == front;
      assert Parse(Decimal(n)) == 10 * (n / 10) + last;
      assert Decimal(n)[0] == front[0];
    }
  }

  lemma {:induction false} NumeralRoundTrip(t: Text)
    requires IsNumeral(t)
    ensures Decimal(Parse(t)) == t
  {
    var front, last := t[..|t| - 1], DigitValue(t[|t| - 1]);
    if |t| == 1 {
      assert Parse(front) == 0;
      assert t == [48 + last];
    } else {
      assert IsNumeral(front) by { assert front[0] == t[0]; }
      NumeralRoundTrip(front);
      NumeralPositive(front);
      assert (10 * Parse(front) + last) / 10 == Parse(front);
      assert t == front + [48 + last];
    }
  }

  lemma {:induction false} NumeralPositive(t: Text)
    requires IsNumeral(t) && t[0] != 48
    ensures Parse(t) > 0
  {
    if |t| > 1 {
      NumeralPositive(t[..|t| - 1]);
    }
  }

  lemma DecimalInjective(m: nat, n: nat)
    requires Decimal(m) == Decimal(n)
    ensures m == n
  {
    DecimalIsNumeral(m);
    DecimalIsNumeral(n);
  }

  /** The number a property key denotes when it is a numeral. */
  function Numeral(k: Text): Option<nat> {
    if IsNumeral(k) then Some(Parse(k)) else None
  }

  /** Array-index property keys, which an object enumerates first, in numeric order. */
  function ArrayIndex(k: Text): Option<nat> {
    if IsNumeral(k) && Parse(k) < 0xFFFF_FFFF then Some(Parse(k)) else None
  }

  lemma ArrayIndexInjective(a: Text, b: Text)
    requires ArrayIndex(a).Some? && ArrayIndex(a) == ArrayIndex(b)
    ensures a == b
  {
    NumeralRoundTrip(a);
    NumeralRoundTrip(b);
  }

  /** The array-index keys are the numerals of the numbers below 2^32 - 1, printed without a leading zero. */
  lemma ArrayIndexExactly(k: Text, n: nat)
    ensures ArrayIndex(k) == Some(n) <==> k == Decimal(n) && n < 4_294_967_295
  {
    DecimalIsNumeral(n);
    if IsNumeral(k) {
      NumeralRoundTrip(k);
    }
  }
}
