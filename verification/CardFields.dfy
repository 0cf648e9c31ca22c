/** The fields of a card by the names they have in its canonical record, and what the diff says of them. */
module CardFields {
  import opened Texts
  import opened Json
  import opened Canonical
  import opened Cards
  import opened Promotion

  // ----- Reading a card by name -----

  /** A member of the record that is hashed. */
  function FieldNamed(card: Card, name: string): Option<Value> {
    Lookup(PickedMembers(card, CANONICAL_FIELDS), Ascii(name))
  }

  /** A member of the cost in that record. */
  function CostNamed(card: Card, name: string): Option<Value> {
    match FieldNamed(card, "cost")
    case Some(Obj(members)) => Lookup(members, Ascii(name))
    case _ => None
  }

  lemma {:induction false} PickedLookup(card: Card, fields: seq<Field>, f: Field)
    ensures Lookup(PickedMembers(card, fields), FieldKey(f)) == if f in fields then FieldValue(card, f) else None
  {
    if fields != [] {
      PickedLookup(card, fields[1..], f);
      FieldKeysDistinct(f, fields[0]);
      assert fields == [fields[0]] + fields[1..];
      var rest := PickedMembers(card, fields[1..]);
      if FieldValue(card, fields[0]).Some? {
        assert PickedMembers(card, fields)[1..] == rest;
      }
    }
  }

  lemma NamedIs(card: Card, f: Field)
    ensures Lookup(PickedMembers(card, CANONICAL_FIELDS), FieldKey(f)) == FieldValue(card, f)
  {
    CanonicalFieldsDistinct();
    PickedLookup(card, CANONICAL_FIELDS, f);
  }

  /** Each of the thirteen canonical fields stands in the record under its own name. */
  lemma RecordNames(card: Card)
    ensures FieldNamed(card, "version") == FieldValue(card, Version) && FieldNamed(card, "name") == Some(Leaf(Str(card.name)))
    ensures FieldNamed(card, "intent") == FieldValue(card, Intent) && FieldNamed(card, "tags") == FieldValue(card, Tags)
    ensures FieldNamed(card, "cost") == FieldValue(card, Cost) && FieldNamed(card, "idempotent") == FieldValue(card, Idempotent)
    ensures FieldNamed(card, "input") == FieldValue(card, Input) && FieldNamed(card, "output") == FieldValue(card, Output)
    ensures FieldNamed(card, "examples") == FieldValue(card, Examples) && FieldNamed(card, "failureModes") == FieldValue(card, FailureModes)
    ensures FieldNamed(card, "provider") == FieldValue(card, Provider) && FieldNamed(card, "attestation") == FieldValue(card, Attestation)
    ensures FieldNamed(card, "requiredScopes") == FieldValue(card, RequiredScopes)
  {
    NamedIs(card, Version);
    NamedIs(card, Name);
    NamedIs(card, Intent);
    NamedIs(card, Tags);
    NamedIs(card, Cost);
    NamedIs(card, Idempotent);
    NamedIs(card, Input);
    NamedIs(card, Output);
    NamedIs(card, Examples);
    NamedIs(card, FailureModes);
    NamedIs(card, Provider);
    NamedIs(card, RequiredScopes);
    NamedIs(card, Attestation);
  }

  const FIELD_NAMES: seq<string> :=
    ["version", "name", "intent", "tags", "cost", "idempotent", "input", "output",
     "examples", "failureModes", "provider", "requiredScopes", "attestation"]

  lemma {:induction false} PickedKeys(card: Card, fields: seq<Field>, m: Member)
    requires m in PickedMembers(card, fields)
    ensures exists f :: f in fields && m.key == FieldKey(f)
  {
    var rest := PickedMembers(card, fields[1..]);
    assert fields[0] in fields;
    if m in rest {
      PickedKeys(card, fields[1..], m);
    }
  }

  /** And the record has no other members. */
  lemma RecordHasNoOtherNames(card: Card, m: Member)
    requires m in PickedMembers(card, CANONICAL_FIELDS)
    ensures exists i :: 0 <= i < |FIELD_NAMES| && m.key == Ascii(FIELD_NAMES[i])
  {
    PickedKeys(card, CANONICAL_FIELDS, m);
    var f :| f in CANONICAL_FIELDS && m.key == FieldKey(f);
    FieldIsNamed(f);
  }

  lemma FieldIsNamed(f: Field)
    ensures exists i :: 0 <= i < |FIELD_NAMES| && FieldKey(f) == Ascii(FIELD_NAMES[i])
  {
    var i := match f
      case Version => 0 case Name => 1 case Intent => 2 case Tags => 3 case Cost => 4 case Idempotent => 5
      case Input => 6 case Output => 7 case Examples => 8 case FailureModes => 9 case Provider => 10
      case RequiredScopes => 11 case Attestation => 12;
    assert FieldKey(f) == Ascii(FIELD_NAMES[i]);
  }

  /** The declared parts of the cost stand in it under their names. */
  lemma CostNames(card: Card)
    ensures CostNamed(card, "latency") == CostValue(card, Latency)
    ensures CostNamed(card, "sideEffects") == CostValue(card, SideEffects)
    ensures CostNamed(card, "reversible") == CostValue(card, Reversible)
    ensures CostNamed(card, "riskTier") == CostValue(card, RiskTier)
    ensures CostNamed(card, "requiresConfirmation") == CostValue(card, RequiresConfirmation)
  {
    RecordNames(card);
  }

  // ----- What needs approval, by name -----

  predicate SameNamed(a: Card, b: Card, name: string) {
    CanonEqual(FieldNamed(a, name), FieldNamed(b, name))
  }

  predicate SameCostNamed(a: Card, b: Card, name: string) {
    CanonEqual(CostNamed(a, name), CostNamed(b, name))
  }

  /** The fields a client relies on are the same in both cards. */
  predicate SameContract(a: Card, b: Card) {
    SameNamed(a, b, "version") && SameNamed(a, b, "idempotent") && SameNamed(a, b, "input") && SameNamed(a, b, "output") &&
    SameNamed(a, b, "provider") && SameNamed(a, b, "requiredScopes") && SameNamed(a, b, "attestation") &&
    SameCostNamed(a, b, "sideEffects") && SameCostNamed(a, b, "reversible") && SameCostNamed(a, b, "riskTier") &&
    SameCostNamed(a, b, "requiresConfirmation") && a.publicKey == b.publicKey
  }

  /** The fields that only describe a tool are the same in both cards. */
  predicate SameDescription(a: Card, b: Card) {
    SameNamed(a, b, "name") && SameNamed(a, b, "intent") && SameNamed(a, b, "tags") && SameNamed(a, b, "examples") &&
    SameNamed(a, b, "failureModes") && SameCostNamed(a, b, "latency")
  }

  lemma AgreesByName(a: Card, b: Card)
    ensures Agree(a, b, Whole(Version)) == SameNamed(a, b, "version") && Agree(a, b, Whole(Name)) == SameNamed(a, b, "name")
    ensures Agree(a, b, Whole(Intent)) == SameNamed(a, b, "intent") && Agree(a, b, Whole(Tags)) == SameNamed(a, b, "tags")
    ensures Agree(a, b, Whole(Idempotent)) == SameNamed(a, b, "idempotent") && Agree(a, b, Whole(Input)) == SameNamed(a, b, "input")
    ensures Agree(a, b, Whole(Output)) == SameNamed(a, b, "output") && Agree(a, b, Whole(Examples)) == SameNamed(a, b, "examples")
    ensures Agree(a, b, Whole(FailureModes)) == SameNamed(a, b, "failureModes")
    ensures Agree(a, b, Whole(Provider)) == SameNamed(a, b, "provider")
    ensures Agree(a, b, Whole(RequiredScopes)) == SameNamed(a, b, "requiredScopes")
    ensures Agree(a, b, Whole(Attestation)) == SameNamed(a, b, "attestation")
  {
    RecordNames(a);
    RecordNames(b);
  }

  lemma CostAgreesByName(a: Card, b: Card)
    ensures Agree(a, b, CostPart(Latency)) == SameCostNamed(a, b, "latency")
    ensures Agree(a, b, CostPart(SideEffects)) == SameCostNamed(a, b, "sideEffects")
    ensures Agree(a, b, CostPart(Reversible)) == SameCostNamed(a, b, "reversible")
    ensures Agree(a, b, CostPart(RiskTier)) == SameCostNamed(a, b, "riskTier")
    ensures Agree(a, b, CostPart(RequiresConfirmation)) == SameCostNamed(a, b, "requiresConfirmation")
    ensures Agree(a, b, PublicKey) == (a.publicKey == b.publicKey)
  {
    CostNames(a);
    CostNames(b);
    PublicKeyAgrees(a, b);
  }

  predicate Gating(d: DiffField) {
    d != Whole(Cost) && SeverityOf(d) == Breaking
  }

  /** The severity table, row by row. */
  lemma BreakingFields(p: DiffField -> bool)
    ensures (forall d: DiffField :: Gating(d) ==> p(d)) <==>
      p(Whole(Version)) && p(Whole(Idempotent)) && p(Whole(Input)) && p(Whole(Output)) && p(Whole(Provider)) &&
      p(Whole(RequiredScopes)) && p(Whole(Attestation)) && p(CostPart(SideEffects)) && p(CostPart(Reversible)) &&
      p(CostPart(RiskTier)) && p(CostPart(RequiresConfirmation)) && p(PublicKey)
  {
    if forall d: DiffField :: Gating(d) ==> p(d) {
      assert Gating(Whole(Version)) && Gating(Whole(Idempotent)) && Gating(Whole(Input)) && Gating(Whole(Output));
      assert Gating(Whole(Provider)) && Gating(Whole(RequiredScopes)) && Gating(Whole(Attestation)) && Gating(PublicKey);
      assert Gating(CostPart(SideEffects)) && Gating(CostPart(Reversible)) && Gating(CostPart(RiskTier));
      assert Gating(CostPart(RequiresConfirmation));
    }
  }

  lemma ReviewFields(p: DiffField -> bool)
    ensures (forall d: DiffField :: SeverityOf(d) == Review ==> p(d)) <==>
      p(Whole(Name)) && p(Whole(Intent)) && p(Whole(Tags)) && p(Whole(Examples)) && p(Whole(FailureModes)) && p(CostPart(Latency))
  {
    if forall d: DiffField :: SeverityOf(d) == Review ==> p(d) {
      assert SeverityOf(Whole(Name)) == SeverityOf(Whole(Intent)) == SeverityOf(Whole(Tags)) == Review;
      assert SeverityOf(Whole(Examples)) == SeverityOf(Whole(FailureModes)) == SeverityOf(CostPart(Latency)) == Review;
    }
  }

  function Agreement(a: Card, b: Card): DiffField -> bool {
    (d: DiffField) => Agree(a, b, d)
  }

  /** The severity of each field: breaking exactly for those of `SameContract`. */
  lemma BreakingByName(a: Card, b: Card)
    ensures SameContract(a, b) <==> forall d: DiffField :: Gating(d) ==> Agree(a, b, d)
    ensures SameDescription(a, b) <==> forall d: DiffField :: SeverityOf(d) == Review ==> Agree(a, b, d)
  {
    AgreesByName(a, b);
    CostAgreesByName(a, b);
    BreakingFields(Agreement(a, b));
    ReviewFields(Agreement(a, b));
    assert forall d: DiffField :: Agreement(a, b)(d) == Agree(a, b, d);
  }

  /**
   A diff requires approval exactly when the cards differ in version, idempotent, input, output,
   provider, requiredScopes, attestation, the key, or the side effects, reversibility, risk tier or
   confirmation part of the cost.
   */
  lemma ApprovalRequiredByName(a: Card, b: Card)
    ensures Diff(a, b).requiresApproval <==> !SameContract(a, b)
  {
    ApprovalRequiredExactly(a, b);
    BreakingByName(a, b);
    assert (exists d: DiffField :: Gating(d) && !Agree(a, b, d)) <==> !SameContract(a, b);
  }

  /** It reports a change exactly when they differ in one of these or in a descriptive field. */
  lemma ChangedByName(a: Card, b: Card)
    ensures Diff(a, b).changed <==> !SameContract(a, b) || !SameDescription(a, b)
    ensures Diff(a, b).idChanged <==> a.id != b.id
    ensures Diff(a, b).keyChanged <==> a.publicKey != b.publicKey
  {
    ChangedExactly(a, b);
    BreakingByName(a, b);
    if SameContract(a, b) && SameDescription(a, b) {
      forall d: DiffField | d != Whole(Cost) ensures Agree(a, b, d) {
        assert Gating(d) || SeverityOf(d) == Review;
      }
    } else {
      assert exists d: DiffField :: d != Whole(Cost) && !Agree(a, b, d);
    }
  }

  /** Where a field stands in a diff's list of changes; the cost as a whole stands nowhere. */
  function Place(d: DiffField): nat {
    match d
    case Whole(Version) => 0 case Whole(Name) => 1 case Whole(Intent) => 2 case Whole(Tags) => 3
    case CostPart(Latency) => 4 case CostPart(SideEffects) => 5 case CostPart(Reversible) => 6
    case CostPart(RiskTier) => 7 case CostPart(RequiresConfirmation) => 8
    case Whole(Idempotent) => 9 case Whole(Input) => 10 case Whole(Output) => 11 case Whole(Examples) => 12
    case Whole(FailureModes) => 13 case Whole(Provider) => 14 case Whole(RequiredScopes) => 15
    case PublicKey => 16 case Whole(Attestation) => 17 case Whole(Cost) => 18
  }

  predicate InPlaces(ds: seq<DiffField>) {
    forall i, j :: 0 <= i < j < |ds| ==> Place(ds[i]) < Place(ds[j])
  }

  predicate ListedInPlaces(changes: seq<Change>) {
    forall i, j :: 0 <= i < j < |changes| ==> Place(changes[i].field) < Place(changes[j].field)
  }

  lemma ListedCons(x: Change, changes: seq<Change>)
    requires ListedInPlaces(changes) && forall y | y in changes :: Place(x.field) < Place(y.field)
    ensures ListedInPlaces([x] + changes)
  {
    var all := [x] + changes;
    forall i, j | 0 <= i < j < |all| ensures Place(all[i].field) < Place(all[j].field) {
      assert all[j] == changes[j - 1] && changes[j - 1] in changes;
    }
  }

  lemma {:induction false} ChangesInPlaces(a: Card, b: Card, ds: seq<DiffField>)
    requires InPlaces(ds)
    ensures (forall x | x in Changes(a, b, ds) :: x.field in ds) && ListedInPlaces(Changes(a, b, ds))
  {
    if ds != [] {
      var rest := ds[1..];
      ChangesInPlaces(a, b, rest);
      forall d | d in rest ensures Place(ds[0]) < Place(d) {
        var i :| 0 <= i < |rest| && rest[i] == d;
        assert ds[i + 1] == d;
      }
      ListedCons(Change(ds[0], SeverityOf(ds[0]), DiffValue(a, ds[0]), DiffValue(b, ds[0])), Changes(a, b, rest));
    }
  }

  /** A diff lists its changes once each and in this order. */
  lemma ChangesInOrder(a: Card, b: Card, i: nat, j: nat)
    requires i < j < |Diff(a, b).changes|
    ensures Place(Diff(a, b).changes[i].field) < Place(Diff(a, b).changes[j].field)
  {
    FieldsInPlaces();
    ChangesInPlaces(a, b, DIFF_FIELDS);
  }

  lemma FieldsInPlaces()
    ensures InPlaces(DIFF_FIELDS)
  {
    assert forall i: nat | i < 18 :: i < |DIFF_FIELDS| && Place(DIFF_FIELDS[i]) == i;
  }

  // ----- The risk tier by name -----

  predicate IsTier(v: Option<Value>, tier: string) {
    v == Some(Leaf(Str(Ascii(tier))))
  }

  /** Danger ranks above caution, and caution above every other text and above no tier at all. */
  lemma TiersRanked(v: Option<Value>, w: Option<Value>)
    ensures IsTier(v, "danger") && IsTier(w, "caution") ==> RiskRank(v) > RiskRank(w)
    ensures IsTier(v, "caution") && (w.None? || (w.value.Leaf? && !IsTier(w, "danger") && !IsTier(w, "caution"))) ==>
      RiskRank(v) > RiskRank(w)
    ensures v.Some? && v.value.Leaf? && w.Some? && w.value.Leaf? && RiskRank(v) == RiskRank(w) ==>
      (IsTier(v, "danger") <==> IsTier(w, "danger")) && (IsTier(v, "caution") <==> IsTier(w, "caution"))
  {
    assert Ascii("danger") != Ascii("caution") by { assert |Ascii("danger")| != |Ascii("caution")|; }
  }

  // ----- Conditions -----

  /** A JSON value that is true where JavaScript asks for a condition. */
  predicate IsTruthy(v: Value) {
    v != Leaf(Null) && v != Leaf(Bool(false)) && v != Leaf(Num([48])) && v != Leaf(Str([]))
  }

  lemma TruthyIs(v: Option<Value>)
    ensures Falsy(v) <==> v.None? || !IsTruthy(v.value)
  {
  }
}
