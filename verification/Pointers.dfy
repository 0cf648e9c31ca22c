/**
 JSON Pointers (RFC 6901): the escaping of reference tokens, the paths built from them, and the walk
 that reads a pointer back.
 */
module Pointers {
  import opened Texts
  import opened Json

  const TILDE: Unit := 126
  const SLASH: Unit := 47
  const HASH: Unit := 35
  const ZERO: Unit := 48
  const ONE: Unit := 49

  // ----- Escaping a token, and back -----

  /** Writes every tilde as tilde zero. */
  function EscapeTildes(t: Text): Text {
    if t == [] then [] else (if t[0] == TILDE then [TILDE, ZERO] else [t[0]]) + EscapeTildes(t[1..])
  }

  /** Writes every slash as tilde one. */
  function EscapeSlashes(t: Text): Text {
    if t == [] then [] else (if t[0] == SLASH then [TILDE, ONE] else [t[0]]) + EscapeSlashes(t[1..])
  }

  function EscapeToken(key: Text): Text {
    EscapeSlashes(EscapeTildes(key))
  }

  /** Replaces every `~` followed by `digit`, from left to right, by `plain`. */
  function UnescapeDigit(t: Text, digit: Unit, plain: Unit): Text {
    if t == [] then []
    else if |t| >= 2 && t[0] == TILDE && t[1] == digit then [plain] + UnescapeDigit(t[2..], digit, plain)
    else [t[0]] + UnescapeDigit(t[1..], digit, plain)
  }

  /** Undoes both, the slashes first. */
  function UnescapeToken(part: Text): Text {
    UnescapeDigit(UnescapeDigit(part, ONE, SLASH), ZERO, TILDE)
  }

  /** Every tilde is followed by the digit zero. */
  predicate TildesEscaped(t: Text) {
    forall i :: 0 <= i < |t| && t[i] == TILDE ==> i + 1 < |t| && t[i + 1] == ZERO
  }

  lemma {:induction false} UnescapeTildes(t: Text)
    ensures UnescapeDigit(EscapeTildes(t), ZERO, TILDE) == t && TildesEscaped(EscapeTildes(t))
  {
    if t != [] {
      UnescapeTildes(t[1..]);
      var rest := EscapeTildes(t[1..]);
      if t[0] == TILDE {
        assert EscapeTildes(t)[2..] == rest;
      } else {
        assert EscapeTildes(t)[1..] == rest;
      }
    }
  }

  lemma {:induction false} UnescapeSlashes(t: Text)
    requires TildesEscaped(t)
    ensures UnescapeDigit(EscapeSlashes(t), ONE, SLASH) == t
  {
    if t != [] {
      assert TildesEscaped(t[1..]) by {
        assert forall i :: 0 <= i < |t| - 1 ==> t[1..][i] == t[i + 1];
      }
      UnescapeSlashes(t[1..]);
      var rest := EscapeSlashes(t[1..]);
      if t[0] == SLASH {
        assert EscapeSlashes(t)[2..] == rest;
      } else {
        assert EscapeSlashes(t)[1..] == rest;
        assert t[0] == TILDE ==> rest[0] == ZERO;
      }
    }
  }

  /** Reading an escaped token gives the key back. */
  lemma TokenRoundTrip(key: Text)
    ensures UnescapeToken(EscapeToken(key)) == key
  {
    UnescapeTildes(key);
    UnescapeSlashes(EscapeTildes(key));
  }

  lemma {:induction false} EscapeTildesUnit(u: Unit, rest: Text)
    ensures EscapeTildes([u] + rest) == (if u == '~' as int then Ascii("~0") else [u]) + EscapeTildes(rest)
  {
    assert ([u] + rest)[1..] == rest;
    assert Ascii("~0") == [TILDE, ZERO];
  }

  lemma EscapeSlashesUnit(u: Unit, rest: Text)
    ensures EscapeSlashes([u] + rest) == (if u == '/' as int then Ascii("~1") else [u]) + EscapeSlashes(rest)
  {
    assert ([u] + rest)[1..] == rest;
    assert Ascii("~1") == [TILDE, ONE];
  }

  lemma TildeEscapes(rest: Text)
    ensures EscapeToken(['~' as int] + rest) == ['~' as int] + (['0' as int] + EscapeToken(rest))
  {
    var tail := EscapeTildes(rest);
    EscapeTildesUnit(TILDE, rest);
    assert EscapeTildes([TILDE] + rest) == [TILDE] + ([ZERO] + tail);
    EscapeSlashesUnit(TILDE, [ZERO] + tail);
    EscapeSlashesUnit(ZERO, tail);
  }

  /** Section 3 of RFC 6901, unit by unit: a tilde is written `~0`, a slash `~1`, and all else as it is. */
  lemma EscapeTokenUnit(u: Unit, rest: Text)
    ensures EscapeToken([]) == []
    ensures u == '~' as int ==> EscapeToken([u] + rest) == ['~' as int] + (['0' as int] + EscapeToken(rest))
    ensures u == '/' as int ==> EscapeToken([u] + rest) == ['~' as int, '1' as int] + EscapeToken(rest)
    ensures u != '~' as int && u != '/' as int ==> EscapeToken([u] + rest) == [u] + EscapeToken(rest)
  {
    if u == '~' as int {
      TildeEscapes(rest);
    } else {
      EscapeTildesUnit(u, rest);
      EscapeSlashesUnit(u, EscapeTildes(rest));
      assert Ascii("~1") == ['~' as int, '1' as int];
    }
  }

  lemma {:induction false} EscapedHasNoSlash(t: Text)
    ensures SLASH !in EscapeSlashes(t)
  {
    if t != [] {
      EscapedHasNoSlash(t[1..]);
    }
  }

  // ----- Splitting at slashes -----

  function FirstSlash(t: Text): (n: nat)
    ensures n <= |t|
    ensures n < |t| ==> t[n] == SLASH
    ensures SLASH !in t[..n]
  {
    if t == [] || t[0] == SLASH then 0 else 1 + FirstSlash(t[1..])
  }

  /** The parts between the slashes. */
  function Split(t: Text): (parts: seq<Text>)
    ensures parts != []
  {
    var n := FirstSlash(t);
    if n == |t| then [t] else [t[..n]] + Split(t[n + 1..])
  }

  /** The path that the sanitizers build up, key by key. */
  function PathOf(keys: seq<Text>): Text {
    if keys == [] then [] else PathOf(keys[..|keys| - 1]) + [SLASH] + EscapeToken(keys[|keys| - 1])
  }

  lemma {:induction false} PathOfCons(key: Text, keys: seq<Text>)
    ensures PathOf([key] + keys) == [SLASH] + EscapeToken(key) + PathOf(keys)
  {
    var all := [key] + keys;
    if keys == [] {
      assert all[..|all| - 1] == [];
    } else {
      var front := keys[..|keys| - 1];
      assert all[..|all| - 1] == [key] + front;
      PathOfCons(key, front);
    }
  }

  function Escaped(keys: seq<Text>): (parts: seq<Text>)
    ensures |parts| == |keys| && forall i :: 0 <= i < |keys| ==> parts[i] == EscapeToken(keys[i])
  {
    if keys == [] then [] else [EscapeToken(keys[0])] + Escaped(keys[1..])
  }

  lemma SplitAfter(token: Text, rest: Text)
    requires SLASH !in token && (rest == [] || rest[0] == SLASH)
    ensures Split(token + rest) == [token] + if rest == [] then [] else Split(rest[1..])
  {
    FirstSlashAfter(token, rest);
    var t := token + rest;
    if rest == [] {
      assert t == token;
    } else {
      assert t[|token| + 1..] == rest[1..] && t[..|token|] == token;
    }
  }

  /** Splitting a path after its leading slash gives the escaped keys back. */
  lemma {:induction false} SplitPath(keys: seq<Text>)
    requires keys != []
    ensures PathOf(keys) != [] && PathOf(keys)[0] == SLASH && Split(PathOf(keys)[1..]) == Escaped(keys)
  {
    var key, rest := keys[0], keys[1..];
    assert keys == [key] + rest;
    PathOfCons(key, rest);
    assert PathOf(keys)[1..] == EscapeToken(key) + PathOf(rest);
    EscapedHasNoSlash(EscapeTildes(key));
    if rest != [] { SplitPath(rest); }
    SplitAfter(EscapeToken(key), PathOf(rest));
  }

  lemma {:induction false} FirstSlashAfter(token: Text, rest: Text)
    requires SLASH !in token && (rest == [] || rest[0] == SLASH)
    ensures FirstSlash(token + rest) == |token|
  {
    if token != [] {
      FirstSlashAfter(token[1..], rest);
      assert (token + rest)[1..] == token[1..] + rest;
      assert token[0] in token;
    }
  }

  /** A path determines its keys. */
  lemma PathInjective(xs: seq<Text>, ys: seq<Text>)
    requires PathOf(xs) == PathOf(ys)
    ensures xs == ys
  {
    if xs != [] && ys != [] {
      SplitPath(xs);
      SplitPath(ys);
      assert |xs| == |Escaped(xs)| == |ys|;
      forall i | 0 <= i < |xs| ensures xs[i] == ys[i] {
        assert Escaped(xs)[i] == Escaped(ys)[i];
        TokenRoundTrip(xs[i]);
        TokenRoundTrip(ys[i]);
      }
    }
  }

  // ----- Which texts are pointers -----

  /** Every tilde is followed by zero or one. */
  predicate Escapes(t: Text) {
    forall i :: 0 <= i < |t| && t[i] == TILDE ==> i + 1 < |t| && (t[i + 1] == ZERO || t[i + 1] == ONE)
  }

  /** The syntax of RFC 6901: reference tokens, each after a slash. */
  predicate IsPointer(t: Text) {
    (t != [] ==> t[0] == SLASH) && Escapes(t)
  }

  lemma {:induction false} EscapedSlashesAgain(t: Text)
    requires Escapes(t) && SLASH !in t
    ensures EscapeSlashes(UnescapeDigit(t, ONE, SLASH)) == t && TildesEscaped(UnescapeDigit(t, ONE, SLASH))
  {
    if t != [] {
      assert forall i :: 0 <= i < |t| - 1 ==> t[1..][i] == t[i + 1];
      var plain := UnescapeDigit(t, ONE, SLASH);
      if t[0] == TILDE && t[1] == ONE {
        EscapedSlashesAgain(t[2..]);
        assert plain[1..] == UnescapeDigit(t[2..], ONE, SLASH);
      } else {
        EscapedSlashesAgain(t[1..]);
        assert plain[1..] == UnescapeDigit(t[1..], ONE, SLASH);
        assert t[0] == TILDE ==> t[1] == ZERO && plain[1] == ZERO;
      }
    }
  }

  lemma {:induction false} EscapedTildesAgain(t: Text)
    requires TildesEscaped(t)
    ensures EscapeTildes(UnescapeDigit(t, ZERO, TILDE)) == t
  {
    if t != [] {
      assert forall i :: 0 <= i < |t| - 1 ==> t[1..][i] == t[i + 1];
      var plain := UnescapeDigit(t, ZERO, TILDE);
      if t[0] == TILDE {
        EscapedTildesAgain(t[2..]);
        assert plain[1..] == UnescapeDigit(t[2..], ZERO, TILDE);
      } else {
        EscapedTildesAgain(t[1..]);
        assert plain[1..] == UnescapeDigit(t[1..], ZERO, TILDE);
      }
    }
  }

  /** The other round trip: escaping a read token gives the token back. */
  lemma ReadTokenEscapes(part: Text)
    requires Escapes(part) && SLASH !in part
    ensures EscapeToken(UnescapeToken(part)) == part
  {
    EscapedSlashesAgain(part);
    EscapedTildesAgain(UnescapeDigit(part, ONE, SLASH));
  }

  lemma {:induction false} SlashesKeepEscapes(t: Text)
    requires TildesEscaped(t)
    ensures Escapes(EscapeSlashes(t))
  {
    if t != [] {
      assert TildesEscaped(t[1..]) by {
        assert forall i :: 0 <= i < |t| - 1 ==> t[1..][i] == t[i + 1];
      }
      SlashesKeepEscapes(t[1..]);
      var rest := EscapeSlashes(t[1..]);
      assert t[0] == TILDE ==> rest[0] == ZERO;
      assert EscapeSlashes(t)[1..] == if t[0] == SLASH then [ONE] + rest else rest;
    }
  }

  lemma {:induction false} PathIsPointer(keys: seq<Text>)
    ensures IsPointer(PathOf(keys))
  {
    if keys != [] {
      var front, token := PathOf(keys[..|keys| - 1]), EscapeToken(keys[|keys| - 1]);
      PathIsPointer(keys[..|keys| - 1]);
      UnescapeTildes(keys[|keys| - 1]);
      SlashesKeepEscapes(EscapeTildes(keys[|keys| - 1]));
      assert PathOf(keys) == front + ([SLASH] + token);
    }
  }

  lemma {:induction false} PointerKeys(path: Text) returns (keys: seq<Text>)
    requires IsPointer(path)
    ensures PathOf(keys) == path
  {
    keys := [];
    if path != [] {
      var n := FirstSlash(path[1..]);
      var token, rest := path[1..][..n], path[1..][n..];
      assert path == [SLASH] + token + rest;
      assert forall i :: 0 <= i < n ==> token[i] == path[1 + i];
      assert forall i :: 0 <= i < |rest| ==> rest[i] == path[1 + n + i];
      ReadTokenEscapes(token);
      keys := PointerKeys(rest);
      PathOfCons(UnescapeToken(token), keys);
      keys := [UnescapeToken(token)] + keys;
    }
  }

  /** The paths built from keys are exactly the texts of RFC 6901's syntax. */
  lemma PathsArePointers(path: Text)
    ensures IsPointer(path) <==> exists keys :: PathOf(keys) == path
  {
    if IsPointer(path) {
      var keys := PointerKeys(path);
    }
    forall keys | PathOf(keys) == path ensures IsPointer(path) {
      PathIsPointer(keys);
    }
  }

  lemma {:induction false} EscapeDigits(t: Text)
    requires forall u | u in t :: IsDigit(u)
    ensures EscapeToken(t) == t
  {
    if t != [] {
      assert t[0] in t;
      EscapeDigits(t[1..]);
      assert EscapeTildes(t) == [t[0]] + EscapeTildes(t[1..]);
    }
  }

  /** A longer list of keys extends the path by one token. */
  lemma PathSnoc(keys: seq<Text>, key: Text)
    ensures PathOf(keys + [key]) == PathOf(keys) + [SLASH] + EscapeToken(key)
  {
    assert (keys + [key])[..|keys|] == keys;
  }

  lemma IndexPath(keys: seq<Text>, i: nat)
    ensures PathOf(keys + [Decimal(i)]) == PathOf(keys) + [SLASH] + Decimal(i)
  {
    PathSnoc(keys, Decimal(i));
    DecimalIsNumeral(i);
    EscapeDigits(Decimal(i));
  }

  // ----- Walking a document -----

  const LENGTH: Text := Ascii("length")

  function CountLiteral(n: nat): NumberLiteral {
    DecimalIsNumeral(n);
    Decimal(n)
  }

  /** One step into a value that may not be an object. Inherited properties are not modelled. */
  function Child(v: Value, key: Text): Option<Value> {
    match v
    case Leaf(_) => None
    case Arr(items) =>
      if IsNumeral(key) && Parse(key) < |items| then Some(items[Parse(key)])
      else if key == LENGTH then Some(Leaf(Num(CountLiteral(|items|))))
      else None
    case Obj(members) => Lookup(members, key)
  }

  /** An array has its items under their indices, without leading zeros, and its length; nothing else is its own. */
  lemma ArrayChildren(items: seq<Value>, key: Text)
    ensures forall i: nat | i < |items| && key == Decimal(i) :: Child(Arr(items), key) == Some(items[i])
    ensures key == Ascii("length") ==> Child(Arr(items), key) == Some(Leaf(Num(CountLiteral(|items|))))
    ensures key != Ascii("length") && (forall i: nat | i < |items| :: key != Decimal(i)) ==> Child(Arr(items), key) == None
  {
    forall i: nat | i < |items| && key == Decimal(i) ensures Child(Arr(items), key) == Some(items[i]) {
      DecimalIsNumeral(i);
    }
    if IsNumeral(key) {
      NumeralRoundTrip(key);
      assert key[0] != 'l' as int;
    }
    assert Ascii("length")[0] == 'l' as int;
  }

  function Walk(v: Value, parts: seq<Text>): Option<Value>
    decreases |parts|
  {
    if parts == [] then Some(v)
    else match Child(v, UnescapeToken(parts[0]))
      case None => None
      case Some(x) => Walk(x, parts[1..])
  }

  /** What a local reference `#/…` points to. */
  function Follow(doc: Value, ref: Text): Option<Value> {
    if |ref| < 2 || ref[..2] != [HASH, SLASH] then None else Walk(doc, Split(ref[2..]))
  }

  /** The source's loop, with `undefined` as None. */
  method PointerLookup(doc: Value, ref: Text) returns (target: Option<Value>)
    ensures target == Follow(doc, ref)
  {
    if |ref| < 2 || ref[..2] != [HASH, SLASH] {
      return None;
    }
    var parts := Split(ref[2..]);
    target := Some(doc);
    for i := 0 to |parts|
      invariant Walk(doc, parts) == if target.Some? then Walk(target.value, parts[i..]) else None
    {
      var key := UnescapeToken(parts[i]);
      assert parts[i..][1..] == parts[i + 1..];
      if target.Some? && !target.value.Leaf? {
        target := Child(target.value, key);
      } else {
        return None;
      }
    }
  }

  /** The value at the end of a list of keys. */
  function Reach(v: Value, keys: seq<Text>): Option<Value>
    decreases |keys|
  {
    if keys == [] then Some(v)
    else match Child(v, keys[0])
      case None => None
      case Some(x) => Reach(x, keys[1..])
  }

  lemma {:induction false} WalkEscaped(v: Value, keys: seq<Text>)
    ensures Walk(v, Escaped(keys)) == Reach(v, keys)
    decreases |keys|
  {
    if keys != [] {
      TokenRoundTrip(keys[0]);
      assert Escaped(keys)[1..] == Escaped(keys[1..]);
      if Child(v, keys[0]).Some? {
        WalkEscaped(Child(v, keys[0]).value, keys[1..]);
      }
    }
  }

  /** What a path points to: the whole value, or what the path reaches as a local reference. */
  function ReadBack(v: Value, path: Text): Option<Value> {
    if path == [] then Some(v) else Follow(v, [HASH] + path)
  }

  /** A path, read back as a local reference, reaches what its keys reach. */
  lemma FollowPath(doc: Value, keys: seq<Text>)
    requires keys != []
    ensures Follow(doc, [HASH] + PathOf(keys)) == Reach(doc, keys)
  {
    var ref := [HASH] + PathOf(keys);
    SplitPath(keys);
    assert ref[..2] == [HASH, SLASH] && ref[2..] == PathOf(keys)[1..];
    WalkEscaped(doc, keys);
  }

  lemma {:induction false} ReachSnoc(v: Value, keys: seq<Text>, key: Text)
    requires Reach(v, keys).Some?
    ensures Reach(v, keys + [key]) == Child(Reach(v, keys).value, key)
    decreases |keys|
  {
    if keys == [] {
      assert ([] + [key])[1..] == [];
    } else {
      assert (keys + [key])[1..] == keys[1..] + [key];
      ReachSnoc(Child(v, keys[0]).value, keys[1..], key);
    }
  }
}
