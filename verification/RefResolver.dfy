/**
 The inlining of local `$ref`s in an OpenAPI document. The document may be cyclic; a reference met
 again inside its own target is replaced by the empty schema.
 */
module RefResolver {
  import opened Texts
  import opened Json
  import opened Canonical
  import opened Enumeration
  import opened Pointers

  /** The key "$ref". */
  const REF: Text := Ascii("$ref")

  /** The reference an object is, if its `$ref` is a string. */
  function RefOf(ms: seq<Member>): Option<Text> {
    match Lookup(ms, REF)
    case Some(Leaf(Str(s))) => Some(s)
    case _ => None
  }

  // ----- Which references occur in a value -----

  /** Every string under a `$ref` key, anywhere in the value. */
  function AllRefs(v: Value): set<Text> {
    match v
    case Leaf(_) => {}
    case Arr(items) => AllRefsInItems(items)
    case Obj(members) => (if RefOf(members).Some? then {RefOf(members).value} else {}) + AllRefsInMembers(members)
  }

  function AllRefsInItems(items: seq<Value>): set<Text> {
    if items == [] then {} else AllRefs(items[0]) + AllRefsInItems(items[1..])
  }

  function AllRefsInMembers(ms: seq<Member>): set<Text> {
    if ms == [] then {} else AllRefs(ms[0].value) + AllRefsInMembers(ms[1..])
  }

  lemma {:induction false} LookupRefs(ms: seq<Member>, k: Text)
    ensures Lookup(ms, k).Some? ==> AllRefs(Lookup(ms, k).value) <= AllRefsInMembers(ms)
  {
    if ms != [] && ms[0].key != k {
      LookupRefs(ms[1..], k);
    }
  }

  lemma {:induction false} ItemRefs(items: seq<Value>, i: nat)
    requires i < |items|
    ensures AllRefs(items[i]) <= AllRefsInItems(items)
  {
    if i > 0 {
      ItemRefs(items[1..], i - 1);
    }
  }

  lemma {:induction false} WalkRefs(v: Value, parts: seq<Text>)
    ensures Walk(v, parts).Some? ==> AllRefs(Walk(v, parts).value) <= AllRefs(v)
    decreases |parts|
  {
    if parts != [] {
      var key := UnescapeToken(parts[0]);
      if Child(v, key).Some? {
        WalkRefs(Child(v, key).value, parts[1..]);
        match v
        case Arr(items) => if IsNumeral(key) && Parse(key) < |items| { ItemRefs(items, Parse(key)); }
        case Obj(members) => LookupRefs(members, key);
      }
    }
  }

  /** Following a reference meets only references of the document. */
  lemma FollowRefs(doc: Value, ref: Text)
    ensures Follow(doc, ref).Some? ==> AllRefs(Follow(doc, ref).value) <= AllRefs(doc)
  {
    if Follow(doc, ref).Some? {
      WalkRefs(doc, Split(ref[2..]));
    }
  }

  // ----- Inlining -----

  const EMPTY: Value := Obj([])

  /** Terminates on every document: following a reference uses it up, and all else descends. */
  function Resolve(node: Value, doc: Value, seen: set<Text>): Value
    decreases AllRefs(doc) + AllRefs(node) - seen, node
  {
    match node
    case Leaf(_) => node
    case Arr(items) => Arr(ResolveItems(items, doc, seen))
    case Obj(members) =>
      match RefOf(members)
      case None => Obj(ResolveMembers(members, doc, seen))
      case Some(ref) =>
        if ref in seen then EMPTY
        else
          match Follow(doc, ref)
          case None => EMPTY
          case Some(target) =>
            FollowRefs(doc, ref);
            assert ref in AllRefs(node) - seen;
            Resolve(target, doc, seen + {ref})
  }

  function ResolveItems(items: seq<Value>, doc: Value, seen: set<Text>): (r: seq<Value>)
    ensures |r| == |items|
    decreases AllRefs(doc) + AllRefsInItems(items) - seen, items
  {
    if items == [] then [] else [Resolve(items[0], doc, seen)] + ResolveItems(items[1..], doc, seen)
  }

  function ResolveMembers(ms: seq<Member>, doc: Value, seen: set<Text>): seq<Member>
    decreases AllRefs(doc) + AllRefsInMembers(ms) - seen, ms
  {
    if ms == [] then []
    else if ms[0].key == PROTO then ResolveMembers(ms[1..], doc, seen)
    else [Member(ms[0].key, Resolve(ms[0].value, doc, seen))] + ResolveMembers(ms[1..], doc, seen)
  }

  // ----- The objects that inlining builds -----

  /**
   The same with what becomes of `__proto__` members: assigning one sets the prototype of the object
   built, which later reads of missing keys see. It is kept here as a member of that name.
   */
  function Build(node: Value, doc: Value, seen: set<Text>): Value
    decreases AllRefs(doc) + AllRefs(node) - seen, node
  {
    match node
    case Leaf(_) => node
    case Arr(items) => Arr(BuildItems(items, doc, seen))
    case Obj(members) =>
      match RefOf(members)
      case None => Obj(BuildMembers(members, doc, seen))
      case Some(ref) =>
        if ref in seen then EMPTY
        else
          match Follow(doc, ref)
          case None => EMPTY
          case Some(target) =>
            FollowRefs(doc, ref);
            assert ref in AllRefs(node) - seen;
            Build(target, doc, seen + {ref})
  }

  function BuildItems(items: seq<Value>, doc: Value, seen: set<Text>): (r: seq<Value>)
    ensures |r| == |items|
    decreases AllRefs(doc) + AllRefsInItems(items) - seen, items
  {
    if items == [] then [] else [Build(items[0], doc, seen)] + BuildItems(items[1..], doc, seen)
  }

  function BuildMembers(ms: seq<Member>, doc: Value, seen: set<Text>): (r: seq<Member>)
    ensures |r| == |ms|
    decreases AllRefs(doc) + AllRefsInMembers(ms) - seen, ms
  {
    if ms == [] then [] else [Member(ms[0].key, Build(ms[0].value, doc, seen))] + BuildMembers(ms[1..], doc, seen)
  }

  /** A built value as JSON has it: own members only. */
  function Own(built: Value): Value {
    match built
    case Leaf(_) => built
    case Arr(items) => Arr(OwnItems(items))
    case Obj(members) => Obj(OwnMembers(members))
  }

  function OwnItems(items: seq<Value>): (r: seq<Value>)
    ensures |r| == |items|
  {
    if items == [] then [] else [Own(items[0])] + OwnItems(items[1..])
  }

  function OwnMembers(ms: seq<Member>): seq<Member> {
    if ms == [] then []
    else if ms[0].key == PROTO then OwnMembers(ms[1..])
    else [Member(ms[0].key, Own(ms[0].value))] + OwnMembers(ms[1..])
  }

  lemma {:induction false} BuiltIsResolved(node: Value, doc: Value, seen: set<Text>)
    ensures Own(Build(node, doc, seen)) == Resolve(node, doc, seen)
    decreases AllRefs(doc) + AllRefs(node) - seen, node
  {
    match node
    case Leaf(_) =>
    case Arr(items) => BuiltItems(items, doc, seen);
    case Obj(members) =>
      match RefOf(members)
      case None => BuiltMembers(members, doc, seen);
      case Some(ref) =>
        if ref !in seen && Follow(doc, ref).Some? {
          FollowRefs(doc, ref);
          assert ref in AllRefs(node) - seen;
          BuiltIsResolved(Follow(doc, ref).value, doc, seen + {ref});
        }
  }

  lemma {:induction false} BuiltItems(items: seq<Value>, doc: Value, seen: set<Text>)
    ensures OwnItems(BuildItems(items, doc, seen)) == ResolveItems(items, doc, seen)
    decreases AllRefs(doc) + AllRefsInItems(items) - seen, items
  {
    if items != [] {
      BuiltIsResolved(items[0], doc, seen);
      BuiltItems(items[1..], doc, seen);
      assert BuildItems(items, doc, seen)[1..] == BuildItems(items[1..], doc, seen);
    }
  }

  lemma {:induction false} BuiltMembers(ms: seq<Member>, doc: Value, seen: set<Text>)
    ensures OwnMembers(BuildMembers(ms, doc, seen)) == ResolveMembers(ms, doc, seen)
    decreases AllRefs(doc) + AllRefsInMembers(ms) - seen, ms
  {
    if ms != [] {
      BuiltIsResolved(ms[0].value, doc, seen);
      BuiltMembers(ms[1..], doc, seen);
      assert BuildMembers(ms, doc, seen)[1..] == BuildMembers(ms[1..], doc, seen);
    }
  }

  /** Assigning to an object under construction. */
  function Assign(ms: seq<Member>, k: Text, v: Value): seq<Member> {
    if k == PROTO then ms + [Member(k, v)] else SetOwn(ms, k, v)
  }

  // ----- The source's loops -----

  lemma {:induction false} BuildItemsSnoc(items: seq<Value>, x: Value, doc: Value, seen: set<Text>)
    ensures BuildItems(items + [x], doc, seen) == BuildItems(items, doc, seen) + [Build(x, doc, seen)]
  {
    if items == [] {
      assert [x][1..] == [];
    } else {
      BuildItemsSnoc(items[1..], x, doc, seen);
      assert (items + [x])[1..] == items[1..] + [x];
    }
  }

  lemma {:induction false} BuildMembersSnoc(ms: seq<Member>, m: Member, doc: Value, seen: set<Text>)
    ensures BuildMembers(ms + [m], doc, seen) == BuildMembers(ms, doc, seen) + [Member(m.key, Build(m.value, doc, seen))]
  {
    if ms == [] {
      assert ([] + [m])[1..] == [] && ([] + [m])[0] == m;
    } else {
      var all := ms + [m];
      assert all[1..] == ms[1..] + [m] && all[0] == ms[0];
      BuildMembersSnoc(ms[1..], m, doc, seen);
    }
  }

  lemma {:induction false} BuiltKeys(ms: seq<Member>, doc: Value, seen: set<Text>)
    ensures forall x | x in BuildMembers(ms, doc, seen) :: x.key in KeySet(ms)
  {
    if ms != [] {
      BuiltKeys(ms[1..], doc, seen);
      KeySetCons(ms);
    }
  }

  lemma {:induction false} MemberRefs(ms: seq<Member>, i: nat)
    requires i < |ms|
    ensures AllRefs(ms[i].value) <= AllRefsInMembers(ms)
  {
    if i > 0 {
      MemberRefs(ms[1..], i - 1);
    }
  }

  lemma {:induction false} FollowInOwnOrder(v: Value, parts: seq<Text>)
    requires InOwnOrder(v)
    ensures Walk(v, parts).Some? ==> InOwnOrder(Walk(v, parts).value)
    decreases |parts|
  {
    if parts != [] && Child(v, UnescapeToken(parts[0])).Some? {
      if v.Obj? {
        LookupFinds(v.members, UnescapeToken(parts[0]));
      }
      FollowInOwnOrder(Child(v, UnescapeToken(parts[0])).value, parts[1..]);
    }
  }

  lemma AssignStep(members: seq<Member>, i: nat, doc: Value, seen: set<Text>)
    requires i < |members| && Enumerable(members)
    ensures Assign(BuildMembers(members[..i], doc, seen), members[i].key, Build(members[i].value, doc, seen)) ==
      BuildMembers(members[..i + 1], doc, seen)
  {
    var out := BuildMembers(members[..i], doc, seen);
    BuildMembersSnoc(members[..i], members[i], doc, seen);
    assert members[..i] + [members[i]] == members[..i + 1];
    BuiltKeys(members[..i], doc, seen);
    assert KeySet(out) <= KeySet(members[..i]);
    KeysComeBefore(out, members, i);
    SetOwnLast(out, members[i].key, Build(members[i].value, doc, seen));
  }

  /** `resolveRefs`, with its loops, on objects in their own enumeration order. */
  method ResolveRefs(node: Value, doc: Value, seen: set<Text>) returns (r: Value)
    requires InOwnOrder(node) && InOwnOrder(doc)
    ensures r == Build(node, doc, seen) && Own(r) == Resolve(node, doc, seen)
    decreases AllRefs(doc) + AllRefs(node) - seen, node
  {
    BuiltIsResolved(node, doc, seen);
    match node
    case Leaf(_) => r := node;
    case Arr(items) =>
      var out := [];
      for i := 0 to |items|
        invariant out == BuildItems(items[..i], doc, seen)
      {
        ItemRefs(items, i);
        var x := ResolveRefs(items[i], doc, seen);
        BuildItemsSnoc(items[..i], items[i], doc, seen);
        assert items[..i] + [items[i]] == items[..i + 1];
        out := out + [x];
      }
      assert items[..|items|] == items;
      r := Arr(out);
    case Obj(members) =>
      var ref := RefOf(members);
      if ref.Some? {
        if ref.value in seen {
          return EMPTY;
        }
        var target := PointerLookup(doc, ref.value);
        if target.None? {
          return EMPTY;
        }
        FollowRefs(doc, ref.value);
        FollowInOwnOrder(doc, Split(ref.value[2..]));
        assert ref.value in AllRefs(node) - seen;
        r := ResolveRefs(target.value, doc, seen + {ref.value});
      } else {
        r := ResolveObject(node, doc, seen);
      }
  }

  method ResolveMember(node: Value, i: nat, doc: Value, seen: set<Text>) returns (x: Value)
    requires InOwnOrder(node) && InOwnOrder(doc) && node.Obj? && i < |node.members|
    ensures x == Build(node.members[i].value, doc, seen)
    decreases AllRefs(doc) + AllRefs(node) - seen, node, 0
  {
    MemberRefs(node.members, i);
    x := ResolveRefs(node.members[i].value, doc, seen);
  }

  method ResolveObject(node: Value, doc: Value, seen: set<Text>) returns (r: Value)
    requires InOwnOrder(node) && InOwnOrder(doc) && node.Obj? && RefOf(node.members).None?
    ensures r == Build(node, doc, seen)
    decreases AllRefs(doc) + AllRefs(node) - seen, node, 1
  {
    var members := node.members;
    var out := [];
    for i := 0 to |members|
      invariant out == BuildMembers(members[..i], doc, seen)
    {
      var x := ResolveMember(node, i, doc, seen);
      AssignStep(members, i, doc, seen);
      out := Assign(out, members[i].key, x);
    }
    assert members[..|members|] == members;
    r := Obj(out);
  }
}
