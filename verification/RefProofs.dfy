/** What inlining does: no reference is left, and without cycles it is full unfolding. */
module RefProofs {
  import opened Texts
  import opened Json
  import opened Canonical
  import opened Pointers
  import opened RefResolver

  // ----- Which references are left, and what a second pass changes -----

  predicate IsText(v: Value) {
    v.Leaf? && v.scalar.Str?
  }

  /** Some object has a `$ref` key; with `texts`, one whose value is a string, so that it is a reference. */
  predicate HasRef(v: Value, texts: bool) {
    match v
    case Leaf(_) => false
    case Arr(items) => HasRefInItems(items, texts)
    case Obj(members) => (Lookup(members, REF).Some? && (texts ==> RefOf(members).Some?)) || HasRefInMembers(members, texts)
  }

  predicate HasRefInItems(items: seq<Value>, texts: bool) {
    items != [] && (HasRef(items[0], texts) || HasRefInItems(items[1..], texts))
  }

  predicate HasRefInMembers(ms: seq<Member>, texts: bool) {
    ms != [] && (HasRef(ms[0].value, texts) || HasRefInMembers(ms[1..], texts))
  }

  /** Inlining meets, without cutting, an object whose `$ref` is no string; with `texts`, one whose `$ref` resolves to a string. */
  predicate MeetsOddRef(node: Value, doc: Value, seen: set<Text>, texts: bool)
    decreases AllRefs(doc) + AllRefs(node) - seen, node
  {
    match node
    case Leaf(_) => false
    case Arr(items) => MeetsInItems(items, doc, seen, texts)
    case Obj(members) =>
      match RefOf(members)
      case None =>
        (Lookup(members, REF).Some? && (texts ==> IsText(Resolve(Lookup(members, REF).value, doc, seen)))) ||
        MeetsInMembers(members, doc, seen, texts)
      case Some(ref) =>
        ref !in seen && Follow(doc, ref).Some? &&
        (FollowRefs(doc, ref);
         assert ref in AllRefs(node) - seen;
         MeetsOddRef(Follow(doc, ref).value, doc, seen + {ref}, texts))
  }

  predicate MeetsInItems(items: seq<Value>, doc: Value, seen: set<Text>, texts: bool)
    decreases AllRefs(doc) + AllRefsInItems(items) - seen, items
  {
    items != [] && (MeetsOddRef(items[0], doc, seen, texts) || MeetsInItems(items[1..], doc, seen, texts))
  }

  predicate MeetsInMembers(ms: seq<Member>, doc: Value, seen: set<Text>, texts: bool)
    decreases AllRefs(doc) + AllRefsInMembers(ms) - seen, ms
  {
    ms != [] &&
    ((ms[0].key != PROTO && MeetsOddRef(ms[0].value, doc, seen, texts)) || MeetsInMembers(ms[1..], doc, seen, texts))
  }

  lemma {:induction false} LookupResolved(ms: seq<Member>, doc: Value, seen: set<Text>, k: Text)
    requires k != PROTO
    ensures Lookup(ResolveMembers(ms, doc, seen), k).Some? <==> Lookup(ms, k).Some?
    ensures Lookup(ms, k).Some? ==> Lookup(ResolveMembers(ms, doc, seen), k) == Some(Resolve(Lookup(ms, k).value, doc, seen))
  {
    if ms != [] {
      LookupResolved(ms[1..], doc, seen, k);
      if ms[0].key != PROTO {
        assert ResolveMembers(ms, doc, seen)[1..] == ResolveMembers(ms[1..], doc, seen);
      }
    }
  }

  /**
   A `$ref` key is left exactly when inlining met one whose value is no string, and a reference
   exactly when that value resolved to a string.
   */
  lemma {:induction false} RefLeftExactly(node: Value, doc: Value, seen: set<Text>, texts: bool)
    ensures HasRef(Resolve(node, doc, seen), texts) <==> MeetsOddRef(node, doc, seen, texts)
    decreases AllRefs(doc) + AllRefs(node) - seen, node
  {
    match node
    case Leaf(_) =>
    case Arr(items) => RefLeftInItems(items, doc, seen, texts);
    case Obj(members) =>
      match RefOf(members)
      case None =>
        LookupResolved(members, doc, seen, REF);
        RefLeftInMembers(members, doc, seen, texts);
      case Some(ref) =>
        if ref !in seen && Follow(doc, ref).Some? {
          FollowRefs(doc, ref);
          assert ref in AllRefs(node) - seen;
          RefLeftExactly(Follow(doc, ref).value, doc, seen + {ref}, texts);
        }
  }

  lemma {:induction false} RefLeftInItems(items: seq<Value>, doc: Value, seen: set<Text>, texts: bool)
    ensures HasRefInItems(ResolveItems(items, doc, seen), texts) <==> MeetsInItems(items, doc, seen, texts)
    decreases AllRefs(doc) + AllRefsInItems(items) - seen, items
  {
    if items != [] {
      RefLeftExactly(items[0], doc, seen, texts);
      RefLeftInItems(items[1..], doc, seen, texts);
      assert ResolveItems(items, doc, seen)[1..] == ResolveItems(items[1..], doc, seen);
    }
  }

  lemma {:induction false} RefLeftInMembers(ms: seq<Member>, doc: Value, seen: set<Text>, texts: bool)
    ensures HasRefInMembers(ResolveMembers(ms, doc, seen), texts) <==> MeetsInMembers(ms, doc, seen, texts)
    decreases AllRefs(doc) + AllRefsInMembers(ms) - seen, ms
  {
    if ms != [] {
      RefLeftExactly(ms[0].value, doc, seen, texts);
      RefLeftInMembers(ms[1..], doc, seen, texts);
      if ms[0].key != PROTO {
        assert ResolveMembers(ms, doc, seen)[1..] == ResolveMembers(ms[1..], doc, seen);
      }
    }
  }

  /** Every `__proto__` member is lost. */
  lemma {:induction false} ResolveLosesProto(node: Value, doc: Value, seen: set<Text>)
    ensures NoProto(Resolve(node, doc, seen))
    decreases AllRefs(doc) + AllRefs(node) - seen, node
  {
    match node
    case Leaf(_) =>
    case Arr(items) => ItemsLoseProto(items, doc, seen);
    case Obj(members) =>
      match RefOf(members)
      case None => MembersLoseProto(members, doc, seen);
      case Some(ref) =>
        if ref !in seen && Follow(doc, ref).Some? {
          FollowRefs(doc, ref);
          assert ref in AllRefs(node) - seen;
          ResolveLosesProto(Follow(doc, ref).value, doc, seen + {ref});
        }
  }

  lemma {:induction false} ItemsLoseProto(items: seq<Value>, doc: Value, seen: set<Text>)
    ensures forall x | x in ResolveItems(items, doc, seen) :: NoProto(x)
    decreases AllRefs(doc) + AllRefsInItems(items) - seen, items
  {
    if items != [] {
      ResolveLosesProto(items[0], doc, seen);
      ItemsLoseProto(items[1..], doc, seen);
    }
  }

  lemma {:induction false} MembersLoseProto(ms: seq<Member>, doc: Value, seen: set<Text>)
    ensures forall m | m in ResolveMembers(ms, doc, seen) :: m.key != PROTO && NoProto(m.value)
    decreases AllRefs(doc) + AllRefsInMembers(ms) - seen, ms
  {
    if ms != [] {
      ResolveLosesProto(ms[0].value, doc, seen);
      MembersLoseProto(ms[1..], doc, seen);
    }
  }

  // ----- What a second pass reads -----

  /** The `$ref` that reading an object shows: its own, or without one its prototype's. */
  function SeenRef(ms: seq<Member>): Option<Text>
    decreases ms
  {
    match Lookup(ms, REF)
    case Some(Leaf(Str(s))) => Some(s)
    case Some(_) => None
    case None =>
      LookupFinds(ms, PROTO);
      match Lookup(ms, PROTO)
      case Some(Obj(inherited)) =>
        assert Member(PROTO, Obj(inherited)) in ms;
        SeenRef(inherited)
      case _ => None
  }

  /** A second pass, over what a first one built, against any parsed document. */
  function Again(built: Value, other: Value, seen: set<Text>): Value
    decreases built
  {
    match built
    case Leaf(_) => built
    case Arr(items) => Arr(AgainItems(items, other, seen))
    case Obj(members) =>
      match SeenRef(members)
      case None => Obj(AgainMembers(members, other, seen))
      case Some(ref) =>
        if ref in seen then EMPTY
        else match Follow(other, ref)
          case None => EMPTY
          case Some(target) => Resolve(target, other, seen + {ref})
  }

  function AgainItems(items: seq<Value>, other: Value, seen: set<Text>): (r: seq<Value>)
    ensures |r| == |items|
    decreases items
  {
    if items == [] then [] else [Again(items[0], other, seen)] + AgainItems(items[1..], other, seen)
  }

  function AgainMembers(ms: seq<Member>, other: Value, seen: set<Text>): seq<Member>
    decreases ms
  {
    if ms == [] then []
    else if ms[0].key == PROTO then AgainMembers(ms[1..], other, seen)
    else [Member(ms[0].key, Again(ms[0].value, other, seen))] + AgainMembers(ms[1..], other, seen)
  }

  predicate IsLocal(ref: Text) {
    |ref| >= 2 && ref[..2] == [HASH, SLASH]
  }

  /** Read again, the object is a reference, and not one that becomes the empty object it is already. */
  predicate Rereads(ms: seq<Member>) {
    SeenRef(ms).Some? && (OwnMembers(ms) != [] || IsLocal(SeenRef(ms).value))
  }

  predicate SomeRereads(built: Value) {
    match built
    case Leaf(_) => false
    case Arr(items) => SomeItemRereads(items)
    case Obj(members) => Rereads(members) || SomeMemberRereads(members)
  }

  predicate SomeItemRereads(items: seq<Value>) {
    items != [] && (SomeRereads(items[0]) || SomeItemRereads(items[1..]))
  }

  predicate SomeMemberRereads(ms: seq<Member>) {
    ms != [] && ((ms[0].key != PROTO && SomeRereads(ms[0].value)) || SomeMemberRereads(ms[1..]))
  }

  lemma {:induction false} NothingRereads(built: Value, other: Value, seen: set<Text>)
    requires !SomeRereads(built)
    ensures Again(built, other, seen) == Own(built)
    decreases built
  {
    match built
    case Leaf(_) =>
    case Arr(items) => NoItemRereads(items, other, seen);
    case Obj(members) => NoMemberRereads(members, other, seen);
  }

  lemma {:induction false} NoItemRereads(items: seq<Value>, other: Value, seen: set<Text>)
    requires !SomeItemRereads(items)
    ensures AgainItems(items, other, seen) == OwnItems(items)
    decreases items
  {
    if items != [] {
      NothingRereads(items[0], other, seen);
      NoItemRereads(items[1..], other, seen);
    }
  }

  lemma {:induction false} NoMemberRereads(ms: seq<Member>, other: Value, seen: set<Text>)
    requires !SomeMemberRereads(ms)
    ensures AgainMembers(ms, other, seen) == OwnMembers(ms)
    decreases ms
  {
    if ms != [] {
      if ms[0].key != PROTO { NothingRereads(ms[0].value, other, seen); }
      NoMemberRereads(ms[1..], other, seen);
    }
  }

  /** A document in which these parts lead to null. */
  function DocumentWith(parts: seq<Text>): Value {
    if parts == [] then Leaf(Null) else Obj([Member(UnescapeToken(parts[0]), DocumentWith(parts[1..]))])
  }

  lemma {:induction false} WalksToNull(parts: seq<Text>)
    ensures Walk(DocumentWith(parts), parts) == Some(Leaf(Null))
  {
    if parts != [] {
      WalksToNull(parts[1..]);
    }
  }

  /** What is read again differs, against the null document or against one in which the reference leads to null. */
  lemma {:induction false} SomethingRereads(built: Value) returns (other: Value)
    requires SomeRereads(built)
    ensures Again(built, other, {}) != Own(built)
    decreases built
  {
    other := Leaf(Null);
    match built
    case Leaf(_) =>
    case Arr(items) => other := SomeItemChanges(items);
    case Obj(members) =>
      if !Rereads(members) {
        OwnIfRereads(members);
        other := SomeMemberChanges(members);
      } else {
        var ref := SeenRef(members).value;
        if OwnMembers(members) == [] {
          other := DocumentWith(Split(ref[2..]));
          WalksToNull(Split(ref[2..]));
        } else {
          assert Follow(Leaf(Null), ref) == None;
        }
      }
  }

  lemma {:induction false} OwnIfRereads(ms: seq<Member>)
    requires SomeMemberRereads(ms)
    ensures OwnMembers(ms) != []
  {
    if ms[0].key == PROTO {
      OwnIfRereads(ms[1..]);
    }
  }

  lemma {:induction false} SomeItemChanges(items: seq<Value>) returns (other: Value)
    requires SomeItemRereads(items)
    ensures AgainItems(items, other, {}) != OwnItems(items)
    decreases items
  {
    if SomeRereads(items[0]) {
      other := SomethingRereads(items[0]);
      assert AgainItems(items, other, {})[0] != OwnItems(items)[0];
    } else {
      other := SomeItemChanges(items[1..]);
      assert AgainItems(items, other, {})[1..] == AgainItems(items[1..], other, {}) && OwnItems(items)[1..] == OwnItems(items[1..]);
    }
  }

  lemma {:induction false} SomeMemberChanges(ms: seq<Member>) returns (other: Value)
    requires SomeMemberRereads(ms)
    ensures AgainMembers(ms, other, {}) != OwnMembers(ms)
    decreases ms
  {
    if ms[0].key != PROTO && SomeRereads(ms[0].value) {
      other := SomethingRereads(ms[0].value);
      assert AgainMembers(ms, other, {})[0] != OwnMembers(ms)[0];
    } else {
      other := SomeMemberChanges(ms[1..]);
      if ms[0].key != PROTO {
        assert AgainMembers(ms, other, {})[1..] == AgainMembers(ms[1..], other, {}) && OwnMembers(ms)[1..] == OwnMembers(ms[1..]);
      }
    }
  }

  // ----- When a second pass changes nothing -----

  function ShownRef(built: Value): Option<Text> {
    if built.Obj? then SeenRef(built.members) else None
  }

  /**
   The object inlining builds of these members is read as a reference by the next pass: its `$ref` is
   no string but resolves to one; or it has none, and its `__proto__` member resolves to an object that
   shows one. The latter does not matter if the reference is not local and there is nothing to lose.
   */
  predicate Misreads(ms: seq<Member>, doc: Value, seen: set<Text>) {
    match Lookup(ms, REF)
    case Some(x) => IsText(Resolve(x, doc, seen))
    case None =>
      match Lookup(ms, PROTO)
      case None => false
      case Some(p) =>
        var shown := ShownRef(Build(p, doc, seen));
        shown.Some? && (IsLocal(shown.value) || exists m :: m in ms && m.key != PROTO)
  }

  /** Inlining meets, without cutting, an object that the next pass reads as a reference. */
  predicate MeetsMisread(node: Value, doc: Value, seen: set<Text>)
    decreases AllRefs(doc) + AllRefs(node) - seen, node
  {
    match node
    case Leaf(_) => false
    case Arr(items) => MeetsMisreadItem(items, doc, seen)
    case Obj(members) =>
      match RefOf(members)
      case None => Misreads(members, doc, seen) || MeetsMisreadMember(members, doc, seen)
      case Some(ref) =>
        ref !in seen && Follow(doc, ref).Some? &&
        (FollowRefs(doc, ref);
         assert ref in AllRefs(node) - seen;
         MeetsMisread(Follow(doc, ref).value, doc, seen + {ref}))
  }

  predicate MeetsMisreadItem(items: seq<Value>, doc: Value, seen: set<Text>)
    decreases AllRefs(doc) + AllRefsInItems(items) - seen, items
  {
    items != [] && (MeetsMisread(items[0], doc, seen) || MeetsMisreadItem(items[1..], doc, seen))
  }

  predicate MeetsMisreadMember(ms: seq<Member>, doc: Value, seen: set<Text>)
    decreases AllRefs(doc) + AllRefsInMembers(ms) - seen, ms
  {
    ms != [] &&
    ((ms[0].key != PROTO && MeetsMisread(ms[0].value, doc, seen)) || MeetsMisreadMember(ms[1..], doc, seen))
  }

  lemma {:induction false} LookupBuilt(ms: seq<Member>, doc: Value, seen: set<Text>, k: Text)
    ensures Lookup(BuildMembers(ms, doc, seen), k).Some? <==> Lookup(ms, k).Some?
    ensures Lookup(ms, k).Some? ==> Lookup(BuildMembers(ms, doc, seen), k) == Some(Build(Lookup(ms, k).value, doc, seen))
  {
    if ms != [] {
      LookupBuilt(ms[1..], doc, seen, k);
      assert BuildMembers(ms, doc, seen)[1..] == BuildMembers(ms[1..], doc, seen);
    }
  }

  lemma {:induction false} BuiltOwn(ms: seq<Member>, doc: Value, seen: set<Text>)
    ensures OwnMembers(BuildMembers(ms, doc, seen)) != [] <==> exists m :: m in ms && m.key != PROTO
  {
    if ms != [] {
      BuiltOwn(ms[1..], doc, seen);
      assert ms == [ms[0]] + ms[1..];
      assert BuildMembers(ms, doc, seen)[1..] == BuildMembers(ms[1..], doc, seen);
    }
  }

  lemma MisreadsExactly(ms: seq<Member>, doc: Value, seen: set<Text>)
    requires RefOf(ms).None?
    ensures Rereads(BuildMembers(ms, doc, seen)) <==> Misreads(ms, doc, seen)
  {
    LookupBuilt(ms, doc, seen, REF);
    LookupBuilt(ms, doc, seen, PROTO);
    BuiltOwn(ms, doc, seen);
    match Lookup(ms, REF)
    case Some(x) =>
      BuiltIsResolved(x, doc, seen);
      LookupFinds(ms, REF);
      assert Member(REF, x) in ms && REF != PROTO;
    case None =>
  }

  lemma {:induction false} BuiltRereadsExactly(node: Value, doc: Value, seen: set<Text>)
    ensures SomeRereads(Build(node, doc, seen)) <==> MeetsMisread(node, doc, seen)
    decreases AllRefs(doc) + AllRefs(node) - seen, node
  {
    match node
    case Leaf(_) =>
    case Arr(items) => BuiltItemRereads(items, doc, seen);
    case Obj(members) =>
      match RefOf(members)
      case None =>
        MisreadsExactly(members, doc, seen);
        BuiltMemberRereads(members, doc, seen);
      case Some(ref) =>
        if ref !in seen && Follow(doc, ref).Some? {
          FollowRefs(doc, ref);
          assert ref in AllRefs(node) - seen;
          BuiltRereadsExactly(Follow(doc, ref).value, doc, seen + {ref});
        }
  }

  lemma {:induction false} BuiltItemRereads(items: seq<Value>, doc: Value, seen: set<Text>)
    ensures SomeItemRereads(BuildItems(items, doc, seen)) <==> MeetsMisreadItem(items, doc, seen)
    decreases AllRefs(doc) + AllRefsInItems(items) - seen, items
  {
    if items != [] {
      BuiltRereadsExactly(items[0], doc, seen);
      BuiltItemRereads(items[1..], doc, seen);
      assert BuildItems(items, doc, seen)[1..] == BuildItems(items[1..], doc, seen);
    }
  }

  lemma {:induction false} BuiltMemberRereads(ms: seq<Member>, doc: Value, seen: set<Text>)
    ensures SomeMemberRereads(BuildMembers(ms, doc, seen)) <==> MeetsMisreadMember(ms, doc, seen)
    decreases AllRefs(doc) + AllRefsInMembers(ms) - seen, ms
  {
    if ms != [] {
      BuiltRereadsExactly(ms[0].value, doc, seen);
      BuiltMemberRereads(ms[1..], doc, seen);
      assert BuildMembers(ms, doc, seen)[1..] == BuildMembers(ms[1..], doc, seen);
    }
  }

  /**
   A second pass changes nothing, whatever the document it runs against, exactly when the first met,
   without cutting, no object that the next pass reads as a reference.
   */
  lemma SecondPassExactly(node: Value, doc: Value, seen: set<Text>)
    ensures !MeetsMisread(node, doc, seen) <==>
      forall other, otherSeen :: Again(Build(node, doc, seen), other, otherSeen) == Resolve(node, doc, seen)
  {
    var built := Build(node, doc, seen);
    BuiltIsResolved(node, doc, seen);
    BuiltRereadsExactly(node, doc, seen);
    if MeetsMisread(node, doc, seen) {
      var other := SomethingRereads(built);
      assert Again(built, other, {}) != Resolve(node, doc, seen);
    } else {
      forall other, otherSeen ensures Again(built, other, otherSeen) == Resolve(node, doc, seen) {
        NothingRereads(built, other, otherSeen);
      }
    }
  }

  /** Every `$ref` value is a string. */
  predicate RefsAreTexts(v: Value) {
    match v
    case Leaf(_) => true
    case Arr(items) => forall x | x in items :: RefsAreTexts(x)
    case Obj(members) => (forall m | m in members :: RefsAreTexts(m.value)) && (REF in KeySet(members) ==> RefOf(members).Some?)
  }

  lemma {:induction false} WalkRefsAreTexts(v: Value, parts: seq<Text>)
    requires RefsAreTexts(v)
    ensures Walk(v, parts).Some? ==> RefsAreTexts(Walk(v, parts).value)
    decreases |parts|
  {
    if parts != [] && Child(v, UnescapeToken(parts[0])).Some? {
      if v.Obj? {
        LookupFinds(v.members, UnescapeToken(parts[0]));
      }
      WalkRefsAreTexts(Child(v, UnescapeToken(parts[0])).value, parts[1..]);
    }
  }

  lemma {:induction false} TextsAreNotOdd(node: Value, doc: Value, seen: set<Text>, texts: bool)
    requires RefsAreTexts(node) && RefsAreTexts(doc)
    ensures !MeetsOddRef(node, doc, seen, texts)
    decreases AllRefs(doc) + AllRefs(node) - seen, node
  {
    match node
    case Leaf(_) =>
    case Arr(items) => TextItemsAreNotOdd(items, doc, seen, texts);
    case Obj(members) =>
      LookupFinds(members, REF);
      match RefOf(members)
      case None => TextMembersAreNotOdd(members, doc, seen, texts);
      case Some(ref) =>
        if ref !in seen && Follow(doc, ref).Some? {
          FollowRefs(doc, ref);
          WalkRefsAreTexts(doc, Split(ref[2..]));
          assert ref in AllRefs(node) - seen;
          TextsAreNotOdd(Follow(doc, ref).value, doc, seen + {ref}, texts);
        }
  }

  lemma {:induction false} TextItemsAreNotOdd(items: seq<Value>, doc: Value, seen: set<Text>, texts: bool)
    requires RefsAreTexts(doc) && forall x | x in items :: RefsAreTexts(x)
    ensures !MeetsInItems(items, doc, seen, texts)
    decreases AllRefs(doc) + AllRefsInItems(items) - seen, items
  {
    if items != [] {
      TextsAreNotOdd(items[0], doc, seen, texts);
      TextItemsAreNotOdd(items[1..], doc, seen, texts);
    }
  }

  lemma {:induction false} TextMembersAreNotOdd(ms: seq<Member>, doc: Value, seen: set<Text>, texts: bool)
    requires RefsAreTexts(doc) && forall m | m in ms :: RefsAreTexts(m.value)
    ensures !MeetsInMembers(ms, doc, seen, texts)
    decreases AllRefs(doc) + AllRefsInMembers(ms) - seen, ms
  {
    if ms != [] {
      TextsAreNotOdd(ms[0].value, doc, seen, texts);
      TextMembersAreNotOdd(ms[1..], doc, seen, texts);
    }
  }

  lemma {:induction false} TextsShowNoRef(node: Value, doc: Value, seen: set<Text>)
    requires RefsAreTexts(node) && RefsAreTexts(doc)
    ensures ShownRef(Build(node, doc, seen)) == None
    decreases AllRefs(doc) + AllRefs(node) - seen, node
  {
    match node
    case Leaf(_) =>
    case Arr(_) =>
    case Obj(members) =>
      LookupFinds(members, REF);
      match RefOf(members)
      case None =>
        LookupBuilt(members, doc, seen, REF);
        LookupBuilt(members, doc, seen, PROTO);
        LookupFinds(members, PROTO);
        if Lookup(members, PROTO).Some? {
          LookupRefs(members, PROTO);
          assert Member(PROTO, Lookup(members, PROTO).value) in members;
          TextsShowNoRef(Lookup(members, PROTO).value, doc, seen);
        }
      case Some(ref) =>
        if ref !in seen && Follow(doc, ref).Some? {
          FollowRefs(doc, ref);
          WalkRefsAreTexts(doc, Split(ref[2..]));
          assert ref in AllRefs(node) - seen;
          TextsShowNoRef(Follow(doc, ref).value, doc, seen + {ref});
        }
  }

  lemma {:induction false} TextsAreNotMisread(node: Value, doc: Value, seen: set<Text>)
    requires RefsAreTexts(node) && RefsAreTexts(doc)
    ensures !MeetsMisread(node, doc, seen)
    decreases AllRefs(doc) + AllRefs(node) - seen, node
  {
    match node
    case Leaf(_) =>
    case Arr(items) => TextItemsAreNotMisread(items, doc, seen);
    case Obj(members) =>
      LookupFinds(members, REF);
      match RefOf(members)
      case None =>
        LookupFinds(members, PROTO);
        if Lookup(members, PROTO).Some? { TextsShowNoRef(Lookup(members, PROTO).value, doc, seen); }
        TextMembersAreNotMisread(members, doc, seen);
      case Some(ref) =>
        if ref !in seen && Follow(doc, ref).Some? {
          FollowRefs(doc, ref);
          WalkRefsAreTexts(doc, Split(ref[2..]));
          assert ref in AllRefs(node) - seen;
          TextsAreNotMisread(Follow(doc, ref).value, doc, seen + {ref});
        }
  }

  lemma {:induction false} TextItemsAreNotMisread(items: seq<Value>, doc: Value, seen: set<Text>)
    requires RefsAreTexts(doc) && forall x | x in items :: RefsAreTexts(x)
    ensures !MeetsMisreadItem(items, doc, seen)
    decreases AllRefs(doc) + AllRefsInItems(items) - seen, items
  {
    if items != [] {
      TextsAreNotMisread(items[0], doc, seen);
      TextItemsAreNotMisread(items[1..], doc, seen);
    }
  }

  lemma {:induction false} TextMembersAreNotMisread(ms: seq<Member>, doc: Value, seen: set<Text>)
    requires RefsAreTexts(doc) && forall m | m in ms :: RefsAreTexts(m.value)
    ensures !MeetsMisreadMember(ms, doc, seen)
    decreases AllRefs(doc) + AllRefsInMembers(ms) - seen, ms
  {
    if ms != [] {
      TextsAreNotMisread(ms[0].value, doc, seen);
      TextMembersAreNotMisread(ms[1..], doc, seen);
    }
  }

  /** Where every `$ref` is a string, the output has no `$ref` key, in cyclic documents too, and a second pass changes nothing. */
  lemma ResolveLeavesNoRef(node: Value, doc: Value, seen: set<Text>)
    requires RefsAreTexts(node) && RefsAreTexts(doc)
    ensures !HasRef(Resolve(node, doc, seen), false)
    ensures forall other, otherSeen :: Again(Build(node, doc, seen), other, otherSeen) == Resolve(node, doc, seen)
  {
    TextsAreNotOdd(node, doc, seen, false);
    RefLeftExactly(node, doc, seen, false);
    TextsAreNotMisread(node, doc, seen);
    SecondPassExactly(node, doc, seen);
  }

  /** The text "#/x", and the document in which it leads to itself. */
  const X: Text := [HASH, SLASH, 120]

  const X_DOCUMENT: Value := Obj([Member([120], Leaf(Str(X)))])

  /** The object {"$ref": {"$ref": "#/x"}}, which that document makes an object {"$ref": "#/x"}. */
  const NESTED: Value := Obj([Member(REF, Obj([Member(REF, Leaf(Str(X)))]))])

  lemma NestedBuilt()
    ensures Build(NESTED, X_DOCUMENT, {}) == Obj([Member(REF, Leaf(Str(X)))])
  {
    var inner := Obj([Member(REF, Leaf(Str(X)))]);
    FollowX(X, X_DOCUMENT.members);
    assert Build(inner, X_DOCUMENT, {}) == Leaf(Str(X));
    assert NESTED.members[1..] == [] && RefOf(NESTED.members) == None;
    assert BuildMembers(NESTED.members, X_DOCUMENT, {}) == [Member(REF, Build(inner, X_DOCUMENT, {}))] + BuildMembers([], X_DOCUMENT, {});
  }

  /**
   Against the same document too, a second pass may change the value: here an inner reference
   resolves to a string, and that string becomes a reference.
   */
  lemma NestedRefBreaksSecondPass()
    ensures Resolve(NESTED, X_DOCUMENT, {}) == Obj([Member(REF, Leaf(Str(X)))])
    ensures Again(Build(NESTED, X_DOCUMENT, {}), X_DOCUMENT, {}) == Leaf(Str(X))
  {
    var ms := [Member(REF, Leaf(Str(X)))];
    NestedBuilt();
    BuiltIsResolved(NESTED, X_DOCUMENT, {});
    assert ms[1..] == [];
    assert OwnMembers(ms) == [Member(REF, Own(Leaf(Str(X))))] + OwnMembers([]);
    FollowX(X, X_DOCUMENT.members);
  }

  /** A `__proto__` member does the same unseen: the output is the empty object, and reading it again gives a string. */
  lemma InheritedRefBreaksSecondPass()
    ensures var node := Obj([Member(PROTO, NESTED)]);
      Resolve(node, X_DOCUMENT, {}) == EMPTY && Again(Build(node, X_DOCUMENT, {}), X_DOCUMENT, {}) == Leaf(Str(X))
  {
    var node := Obj([Member(PROTO, NESTED)]);
    var prototype := Obj([Member(REF, Leaf(Str(X)))]);
    NestedBuilt();
    assert |PROTO| != |REF|;
    assert node.members[0].key == PROTO && node.members[1..] == [] && Lookup([], REF) == None;
    assert Lookup(node.members, REF) == None;
    assert RefOf(node.members) == None;
    assert ResolveMembers(node.members, X_DOCUMENT, {}) == ResolveMembers([], X_DOCUMENT, {}) == [];
    var built := BuildMembers(node.members, X_DOCUMENT, {});
    assert built == [Member(PROTO, prototype)] + BuildMembers([], X_DOCUMENT, {}) == [Member(PROTO, prototype)];
    assert Lookup(built, REF) == None && Lookup(built, PROTO) == Some(prototype);
    assert SeenRef(prototype.members) == Some(X) == SeenRef(built);
    FollowX(X, X_DOCUMENT.members);
  }

  lemma FollowX(x: Text, ms: seq<Member>)
    requires x == [HASH, SLASH, 120] && ms == [Member([120], Leaf(Str(x)))]
    ensures Follow(Obj(ms), x) == Some(Leaf(Str(x)))
  {
    var part: Text := [120];
    assert x[2..] == part && x[..2] == [HASH, SLASH];
    SplitAfter(part, []);
    assert part + [] == part;
    assert part[1..] == [];
    assert UnescapeDigit(part, ONE, SLASH) == part && UnescapeDigit(part, ZERO, TILDE) == part;
    assert [part][1..] == [];
    assert Walk(Obj(ms), [part]) == Some(ms[0].value);
  }

  // ----- Without cycles, inlining is unfolding -----

  /** Replacing references by their targets, with at most `depth` references inside one another. */
  function Unfold(node: Value, doc: Value, depth: nat): Option<Value>
    decreases depth, node
  {
    match node
    case Leaf(_) => Some(node)
    case Arr(items) =>
      (match UnfoldItems(items, doc, depth)
       case None => None
       case Some(xs) => Some(Arr(xs)))
    case Obj(members) =>
      match RefOf(members)
      case None =>
        (match UnfoldMembers(members, doc, depth)
         case None => None
         case Some(ms) => Some(Obj(ms)))
      case Some(ref) =>
        match Follow(doc, ref)
        case None => Some(EMPTY)
        case Some(target) => if depth == 0 then None else Unfold(target, doc, depth - 1)
  }

  function UnfoldItems(items: seq<Value>, doc: Value, depth: nat): Option<seq<Value>>
    decreases depth, items
  {
    if items == [] then Some([])
    else match (Unfold(items[0], doc, depth), UnfoldItems(items[1..], doc, depth))
      case (Some(x), Some(xs)) => Some([x] + xs)
      case _ => None
  }

  function UnfoldMembers(ms: seq<Member>, doc: Value, depth: nat): Option<seq<Member>>
    decreases depth, ms
  {
    if ms == [] then Some([])
    else match (Unfold(ms[0].value, doc, depth), UnfoldMembers(ms[1..], doc, depth))
      case (Some(x), Some(xs)) => Some(if ms[0].key == PROTO then xs else [Member(ms[0].key, x)] + xs)
      case _ => None
  }

  /** Inlining meets a reference of `seen`, or one inside its own target: the only places where it cuts. */
  predicate Cuts(node: Value, doc: Value, seen: set<Text>)
    decreases AllRefs(doc) + AllRefs(node) - seen, node
  {
    match node
    case Leaf(_) => false
    case Arr(items) => CutsInItems(items, doc, seen)
    case Obj(members) =>
      match RefOf(members)
      case None => CutsInMembers(members, doc, seen)
      case Some(ref) =>
        Follow(doc, ref).Some? &&
        (ref in seen ||
         (FollowRefs(doc, ref);
          assert ref in AllRefs(node) - seen;
          Cuts(Follow(doc, ref).value, doc, seen + {ref})))
  }

  predicate CutsInItems(items: seq<Value>, doc: Value, seen: set<Text>)
    decreases AllRefs(doc) + AllRefsInItems(items) - seen, items
  {
    items != [] && (Cuts(items[0], doc, seen) || CutsInItems(items[1..], doc, seen))
  }

  predicate CutsInMembers(ms: seq<Member>, doc: Value, seen: set<Text>)
    decreases AllRefs(doc) + AllRefsInMembers(ms) - seen, ms
  {
    ms != [] && (Cuts(ms[0].value, doc, seen) || CutsInMembers(ms[1..], doc, seen))
  }

  lemma {:induction false} DeeperIsSame(node: Value, doc: Value, depth: nat, deeper: nat)
    requires Unfold(node, doc, depth).Some? && depth <= deeper
    ensures Unfold(node, doc, deeper) == Unfold(node, doc, depth)
    decreases depth, node
  {
    match node
    case Leaf(_) =>
    case Arr(items) => DeeperItems(items, doc, depth, deeper);
    case Obj(members) =>
      match RefOf(members)
      case None => DeeperMembers(members, doc, depth, deeper);
      case Some(ref) =>
        if Follow(doc, ref).Some? {
          DeeperIsSame(Follow(doc, ref).value, doc, depth - 1, deeper - 1);
        }
  }

  lemma {:induction false} DeeperItems(items: seq<Value>, doc: Value, depth: nat, deeper: nat)
    requires UnfoldItems(items, doc, depth).Some? && depth <= deeper
    ensures UnfoldItems(items, doc, deeper) == UnfoldItems(items, doc, depth)
    decreases depth, items
  {
    if items != [] {
      DeeperIsSame(items[0], doc, depth, deeper);
      DeeperItems(items[1..], doc, depth, deeper);
    }
  }

  lemma {:induction false} DeeperMembers(ms: seq<Member>, doc: Value, depth: nat, deeper: nat)
    requires UnfoldMembers(ms, doc, depth).Some? && depth <= deeper
    ensures UnfoldMembers(ms, doc, deeper) == UnfoldMembers(ms, doc, depth)
    decreases depth, ms
  {
    if ms != [] {
      DeeperIsSame(ms[0].value, doc, depth, deeper);
      DeeperMembers(ms[1..], doc, depth, deeper);
    }
  }

  /** No reference of `seen` unfolds within `depth`. */
  ghost predicate AllDeeper(doc: Value, seen: set<Text>, depth: nat) {
    forall s | s in seen && Follow(doc, s).Some? :: depth == 0 || Unfold(Follow(doc, s).value, doc, depth - 1).None?
  }

  function LeastDepth(node: Value, doc: Value, depth: nat): (d: nat)
    requires Unfold(node, doc, depth).Some?
    ensures d <= depth && Unfold(node, doc, d).Some? && (d == 0 || Unfold(node, doc, d - 1).None?)
  {
    if depth == 0 || Unfold(node, doc, depth - 1).None? then depth else LeastDepth(node, doc, depth - 1)
  }

  lemma ShallowerStillDeeper(doc: Value, seen: set<Text>, depth: nat, d: nat)
    requires AllDeeper(doc, seen, depth) && d <= depth
    ensures AllDeeper(doc, seen, d)
  {
    forall s | s in seen && Follow(doc, s).Some? ensures d == 0 || Unfold(Follow(doc, s).value, doc, d - 1).None? {
      if d > 0 && Unfold(Follow(doc, s).value, doc, d - 1).Some? {
        DeeperIsSame(Follow(doc, s).value, doc, d - 1, depth - 1);
      }
    }
  }

  /** What unfolds is inlined without a cut, and to the same value. */
  lemma {:induction false} UnfoldingIsInlining(node: Value, doc: Value, seen: set<Text>, depth: nat)
    requires Unfold(node, doc, depth).Some? && AllDeeper(doc, seen, depth)
    ensures !Cuts(node, doc, seen) && Some(Resolve(node, doc, seen)) == Unfold(node, doc, depth)
    decreases depth, node
  {
    match node
    case Leaf(_) =>
    case Arr(items) => UnfoldingItems(items, doc, seen, depth);
    case Obj(members) =>
      match RefOf(members)
      case None => UnfoldingMembers(members, doc, seen, depth);
      case Some(ref) =>
        if Follow(doc, ref).Some? {
          var target := Follow(doc, ref).value;
          var d := LeastDepth(target, doc, depth - 1);
          ShallowerStillDeeper(doc, seen, depth, d);
          assert AllDeeper(doc, seen + {ref}, d);
          UnfoldingIsInlining(target, doc, seen + {ref}, d);
          DeeperIsSame(target, doc, d, depth - 1);
        }
  }

  lemma {:induction false} UnfoldingItems(items: seq<Value>, doc: Value, seen: set<Text>, depth: nat)
    requires UnfoldItems(items, doc, depth).Some? && AllDeeper(doc, seen, depth)
    ensures !CutsInItems(items, doc, seen) && Some(ResolveItems(items, doc, seen)) == UnfoldItems(items, doc, depth)
    decreases depth, items
  {
    if items != [] {
      UnfoldingIsInlining(items[0], doc, seen, depth);
      UnfoldingItems(items[1..], doc, seen, depth);
    }
  }

  lemma {:induction false} UnfoldingMembers(ms: seq<Member>, doc: Value, seen: set<Text>, depth: nat)
    requires UnfoldMembers(ms, doc, depth).Some? && AllDeeper(doc, seen, depth)
    ensures !CutsInMembers(ms, doc, seen) && Some(ResolveMembers(ms, doc, seen)) == UnfoldMembers(ms, doc, depth)
    decreases depth, ms
  {
    if ms != [] {
      UnfoldingIsInlining(ms[0].value, doc, seen, depth);
      UnfoldingMembers(ms[1..], doc, seen, depth);
    }
  }

  /** What is inlined without a cut unfolds. */
  lemma {:induction false} UncutUnfolds(node: Value, doc: Value, seen: set<Text>) returns (depth: nat)
    requires !Cuts(node, doc, seen)
    ensures Unfold(node, doc, depth) == Some(Resolve(node, doc, seen))
    decreases AllRefs(doc) + AllRefs(node) - seen, node
  {
    match node
    case Leaf(_) => depth := 0;
    case Arr(items) => depth := UncutItems(items, doc, seen);
    case Obj(members) =>
      match RefOf(members)
      case None => depth := UncutMembers(members, doc, seen);
      case Some(ref) =>
        depth := 0;
        if Follow(doc, ref).Some? {
          FollowRefs(doc, ref);
          assert ref in AllRefs(node) - seen;
          var d := UncutUnfolds(Follow(doc, ref).value, doc, seen + {ref});
          depth := d + 1;
        }
  }

  function Max(a: nat, b: nat): nat {
    if a < b then b else a
  }

  lemma {:induction false} UncutItems(items: seq<Value>, doc: Value, seen: set<Text>) returns (depth: nat)
    requires !CutsInItems(items, doc, seen)
    ensures UnfoldItems(items, doc, depth) == Some(ResolveItems(items, doc, seen))
    decreases AllRefs(doc) + AllRefsInItems(items) - seen, items
  {
    depth := 0;
    if items != [] {
      var a := UncutUnfolds(items[0], doc, seen);
      var b := UncutItems(items[1..], doc, seen);
      depth := Max(a, b);
      DeeperIsSame(items[0], doc, a, depth);
      DeeperItems(items[1..], doc, b, depth);
    }
  }

  lemma {:induction false} UncutMembers(ms: seq<Member>, doc: Value, seen: set<Text>) returns (depth: nat)
    requires !CutsInMembers(ms, doc, seen)
    ensures UnfoldMembers(ms, doc, depth) == Some(ResolveMembers(ms, doc, seen))
    decreases AllRefs(doc) + AllRefsInMembers(ms) - seen, ms
  {
    depth := 0;
    if ms != [] {
      var a := UncutUnfolds(ms[0].value, doc, seen);
      var b := UncutMembers(ms[1..], doc, seen);
      depth := Max(a, b);
      DeeperIsSame(ms[0].value, doc, a, depth);
      DeeperMembers(ms[1..], doc, b, depth);
    }
  }

  /**
   Inlining cuts nothing exactly when the node unfolds completely, and then it is that unfolding,
   at whatever depth.
   */
  lemma InliningIsUnfoldingExactly(node: Value, doc: Value)
    ensures !Cuts(node, doc, {}) <==> exists depth: nat :: Unfold(node, doc, depth).Some?
    ensures forall depth: nat :: Unfold(node, doc, depth).Some? ==> Unfold(node, doc, depth) == Some(Resolve(node, doc, {}))
  {
    forall depth: nat | Unfold(node, doc, depth).Some?
      ensures !Cuts(node, doc, {}) && Unfold(node, doc, depth) == Some(Resolve(node, doc, {}))
    {
      UnfoldingIsInlining(node, doc, {}, depth);
    }
    if !Cuts(node, doc, {}) {
      var depth := UncutUnfolds(node, doc, {});
    }
  }

  /** Where nothing is cut, the result does not depend on what was seen before. */
  lemma UncutIgnoresSeen(node: Value, doc: Value, seen: set<Text>)
    requires !Cuts(node, doc, seen)
    ensures !Cuts(node, doc, {}) && Resolve(node, doc, seen) == Resolve(node, doc, {})
  {
    var depth := UncutUnfolds(node, doc, seen);
    UnfoldingIsInlining(node, doc, {}, depth);
  }

  // ----- Acyclic reference graphs -----

  /** The references inlining meets in a value before it follows one. */
  function OpenRefs(v: Value): set<Text> {
    match v
    case Leaf(_) => {}
    case Arr(items) => OpenRefsInItems(items)
    case Obj(members) => if RefOf(members).Some? then {RefOf(members).value} else OpenRefsInMembers(members)
  }

  function OpenRefsInItems(items: seq<Value>): set<Text> {
    if items == [] then {} else OpenRefs(items[0]) + OpenRefsInItems(items[1..])
  }

  function OpenRefsInMembers(ms: seq<Member>): set<Text> {
    if ms == [] then {} else OpenRefs(ms[0].value) + OpenRefsInMembers(ms[1..])
  }

  /** `rank` falls along every edge of the reference graph, so the graph has no cycle. */
  ghost predicate Acyclic(doc: Value, rank: Text -> nat) {
    forall r, s :: Follow(doc, r).Some? && s in OpenRefs(Follow(doc, r).value) ==> rank(s) < rank(r)
  }

  lemma {:induction false} AcyclicUnfolds(node: Value, doc: Value, rank: Text -> nat, depth: nat)
    requires Acyclic(doc, rank) && forall r | r in OpenRefs(node) :: rank(r) < depth
    ensures Unfold(node, doc, depth).Some?
    decreases depth, node
  {
    match node
    case Leaf(_) =>
    case Arr(items) => AcyclicItems(items, doc, rank, depth);
    case Obj(members) =>
      match RefOf(members)
      case None => AcyclicMembers(members, doc, rank, depth);
      case Some(ref) =>
        if Follow(doc, ref).Some? {
          assert ref in OpenRefs(node);
          AcyclicUnfolds(Follow(doc, ref).value, doc, rank, depth - 1);
        }
  }

  lemma {:induction false} AcyclicItems(items: seq<Value>, doc: Value, rank: Text -> nat, depth: nat)
    requires Acyclic(doc, rank) && forall r | r in OpenRefsInItems(items) :: rank(r) < depth
    ensures UnfoldItems(items, doc, depth).Some?
    decreases depth, items
  {
    if items != [] {
      AcyclicUnfolds(items[0], doc, rank, depth);
      AcyclicItems(items[1..], doc, rank, depth);
    }
  }

  lemma {:induction false} AcyclicMembers(ms: seq<Member>, doc: Value, rank: Text -> nat, depth: nat)
    requires Acyclic(doc, rank) && forall r | r in OpenRefsInMembers(ms) :: rank(r) < depth
    ensures UnfoldMembers(ms, doc, depth).Some?
    decreases depth, ms
  {
    if ms != [] {
      AcyclicUnfolds(ms[0].value, doc, rank, depth);
      AcyclicMembers(ms[1..], doc, rank, depth);
    }
  }

  lemma {:induction false} RankBound(refs: set<Text>, rank: Text -> nat) returns (depth: nat)
    ensures forall r | r in refs :: rank(r) < depth
  {
    depth := 0;
    if refs != {} {
      var r :| r in refs;
      var d := RankBound(refs - {r}, rank);
      depth := Max(d, rank(r) + 1);
    }
  }

  /** In a document whose reference graph is acyclic, inlining any node is its full unfolding. */
  lemma AcyclicInliningIsUnfolding(node: Value, doc: Value, rank: Text -> nat)
    requires Acyclic(doc, rank)
    ensures !Cuts(node, doc, {}) && exists depth: nat :: Unfold(node, doc, depth) == Some(Resolve(node, doc, {}))
  {
    var depth := RankBound(OpenRefs(node), rank);
    AcyclicUnfolds(node, doc, rank, depth);
    UnfoldingIsInlining(node, doc, {}, depth);
  }

  /**
   An object whose `$ref` is a path of the document stands for what that path reaches: for its target
   inlined in turn, or for the empty schema if the path leads nowhere or is being inlined already.
   */
  lemma ReferenceIsItsTarget(ms: seq<Member>, doc: Value, seen: set<Text>, keys: seq<Text>)
    requires keys != [] && Lookup(ms, Ascii("$ref")) == Some(Leaf(Str(['#' as int] + PathOf(keys))))
    ensures var ref := ['#' as int] + PathOf(keys);
      Resolve(Obj(ms), doc, seen) ==
        if ref in seen || Reach(doc, keys).None? then Obj([]) else Resolve(Reach(doc, keys).value, doc, seen + {ref})
  {
    FollowPath(doc, keys);
  }
}
