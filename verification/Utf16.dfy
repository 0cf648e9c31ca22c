/**
 UTF-16: the code points of a sequence of code units, and back. As in JavaScript, an unpaired
 surrogate is a code point of its own.
 */
module Utf16 {
  import opened Texts

  type CodePoint = c: int | 0 <= c < 0x11_0000

  function Units(c: CodePoint): (t: Text)
    ensures 1 <= |t| <= 2
  {
    if c < 0x1_0000 then [c] else [0xD800 + (c - 0x1_0000) / 1024, 0xDC00 + (c - 0x1_0000) % 1024]
  }

  function Encode(cs: seq<CodePoint>): (t: Text)
    ensures cs == [] <==> t == []
  {
    if cs == [] then [] else Units(cs[0]) + Encode(cs[1..])
  }

  /** The code point of a surrogate pair. */
  function Joined(high: Unit, low: Unit): CodePoint
    requires IsHighSurrogate(high) && IsLowSurrogate(low)
  {
    0x1_0000 + (high - 0xD800) * 1024 + (low - 0xDC00)
  }

  function Decode(t: Text): seq<CodePoint> {
    if t == [] then []
    else if StartsWithPair(t) then [Joined(t[0], t[1])] + Decode(t[2..])
    else [t[0]] + Decode(t[1..])
  }

  /** Decoding loses nothing. */
  lemma {:induction false} EncodeDecode(t: Text)
    ensures Encode(Decode(t)) == t
  {
    if t == [] {
    } else if StartsWithPair(t) {
      EncodeDecode(t[2..]);
      assert Units(Joined(t[0], t[1])) == [t[0], t[1]];
      assert t == [t[0], t[1]] + t[2..];
    } else {
      EncodeDecode(t[1..]);
      assert t == [t[0]] + t[1..];
    }
  }

  predicate Joins(cs: seq<CodePoint>) {
    |cs| >= 2 && IsHighSurrogate(cs[0]) && IsLowSurrogate(cs[1])
  }

  lemma FirstUnit(cs: seq<CodePoint>)
    requires cs != []
    ensures Encode(cs)[0] == Units(cs[0])[0] && (IsLowSurrogate(Encode(cs)[0]) <==> IsLowSurrogate(cs[0]))
  {
  }

  lemma DecodePlain(u: Unit, rest: Text)
    requires !(IsHighSurrogate(u) && rest != [] && IsLowSurrogate(rest[0]))
    ensures Decode([u] + rest) == [u] + Decode(rest)
  {
    assert ([u] + rest)[1..] == rest;
  }

  lemma DecodePair(high: Unit, low: Unit, rest: Text)
    requires IsHighSurrogate(high) && IsLowSurrogate(low)
    ensures Decode([high, low] + rest) == [Joined(high, low)] + Decode(rest)
  {
    assert ([high, low] + rest)[2..] == rest;
  }

  lemma StepAstral(cs: seq<CodePoint>)
    requires cs != [] && cs[0] >= 0x1_0000
    ensures Decode(Encode(cs)) == [cs[0]] + Decode(Encode(cs[1..]))
  {
    var u := Units(cs[0]);
    assert IsHighSurrogate(u[0]) && IsLowSurrogate(u[1]) && Joined(u[0], u[1]) == cs[0] && u == [u[0], u[1]];
    DecodePair(u[0], u[1], Encode(cs[1..]));
  }

  lemma StepJoins(cs: seq<CodePoint>)
    requires Joins(cs)
    ensures Decode(Encode(cs)) == [Joined(cs[0], cs[1])] + Decode(Encode(cs[2..]))
  {
    var tail := cs[1..];
    assert tail[0] == cs[1] && tail[1..] == cs[2..];
    assert Encode(cs) == [cs[0]] + Encode(tail) && Encode(tail) == [cs[1]] + Encode(cs[2..]);
    assert [cs[0]] + ([cs[1]] + Encode(cs[2..])) == [cs[0], cs[1]] + Encode(cs[2..]);
    DecodePair(cs[0], cs[1], Encode(cs[2..]));
  }

  lemma StepPlain(cs: seq<CodePoint>)
    requires cs != [] && cs[0] < 0x1_0000 && !Joins(cs)
    ensures Decode(Encode(cs)) == [cs[0]] + Decode(Encode(cs[1..]))
  {
    if |cs| >= 2 { FirstUnit(cs[1..]); }
    DecodePlain(cs[0], Encode(cs[1..]));
  }

  /** Decoding what was encoded joins a lone high surrogate with a lone low surrogate that follows it, and nothing else. */
  lemma DecodeEncodeStep(cs: seq<CodePoint>)
    requires cs != []
    ensures Decode(Encode(cs)) ==
      if Joins(cs) then [Joined(cs[0], cs[1])] + Decode(Encode(cs[2..])) else [cs[0]] + Decode(Encode(cs[1..]))
  {
    if cs[0] >= 0x1_0000 {
      StepAstral(cs);
    } else if Joins(cs) {
      StepJoins(cs);
    } else {
      StepPlain(cs);
    }
  }

  predicate IsScalar(c: CodePoint) {
    !IsHighSurrogate(c) && !IsLowSurrogate(c)
  }

  /** Without surrogates among the code points, the round trip is exact. */
  lemma {:induction false} DecodeEncode(cs: seq<CodePoint>)
    requires forall c | c in cs :: IsScalar(c)
    ensures Decode(Encode(cs)) == cs
  {
    if cs != [] {
      assert cs[0] in cs;
      DecodeEncodeStep(cs);
      DecodeEncode(cs[1..]);
    }
  }
}
