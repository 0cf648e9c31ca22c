/** Glyph cards: the content-addressed id, the signature check, and the diff between two cards. */
module Cards {
  import opened Texts
  import opened Json
  import opened Canonical
  import opened Crypto

  datatype Field =
    | Version | Name | Intent | Tags | Cost | Idempotent | Input | Output
    | Examples | FailureModes | Provider | RequiredScopes | Attestation

  datatype CostKey = Latency | SideEffects | Reversible | RiskTier | RequiresConfirmation

  /**
   A card as received. `body` holds every canonical field except the name; a field that is
   absent from it is undefined. Id, key and signature are not part of the canonical content.
   */
  datatype Card = Card(
    id: Text,
    name: Text,
    body: map<Field, Value>,
    publicKey: Option<Text>,
    signature: Option<Text>)

  const CANONICAL_FIELDS: seq<Field> :=
    [Version, Name, Intent, Tags, Cost, Idempotent, Input, Output,
     Examples, FailureModes, Provider, RequiredScopes, Attestation]

  function FieldKey(f: Field): Text {
    match f
    case Version => Ascii("version")
    case Name => Ascii("name")
    case Intent => Ascii("intent")
    case Tags => Ascii("tags")
    case Cost => Ascii("cost")
    case Idempotent => Ascii("idempotent")
    case Input => Ascii("input")
    case Output => Ascii("output")
    case Examples => Ascii("examples")
    case FailureModes => Ascii("failureModes")
    case Provider => Ascii("provider")
    case RequiredScopes => Ascii("requiredScopes")
    case Attestation => Ascii("attestation")
  }

  function CostKeyText(k: CostKey): Text {
    match k
    case Latency => Ascii("latency")
    case SideEffects => Ascii("sideEffects")
    case Reversible => Ascii("reversible")
    case RiskTier => Ascii("riskTier")
    case RequiresConfirmation => Ascii("requiresConfirmation")
  }

  function FieldValue(card: Card, f: Field): Option<Value> {
    if f == Name then Some(Leaf(Str(card.name)))
    else if f in card.body then Some(card.body[f])
    else None
  }

  /** One part of the cost record, undefined on a card without one. */
  function CostValue(card: Card, k: CostKey): Option<Value> {
    match FieldValue(card, Cost)
    case Some(Obj(members)) => Lookup(members, CostKeyText(k))
    case _ => None
  }

  predicate CardWellFormed(card: Card) {
    forall f | f in card.body :: WellFormed(card.body[f])
  }

  // ----- The id -----

  function PickedMembers(card: Card, fields: seq<Field>): seq<Member> {
    if fields == [] then []
    else
      var rest := PickedMembers(card, fields[1..]);
      match FieldValue(card, fields[0])
      case Some(v) => [Member(FieldKey(fields[0]), v)] + rest
      case None => rest
  }

  /** The record that is hashed: the canonical fields a card has. */
  function Picked(card: Card): Value {
    Obj(PickedMembers(card, CANONICAL_FIELDS))
  }

  function GlyphId(c: Suite, card: Card): Text {
    c.sha(CanonText(Picked(card)))
  }

  predicate Honest(c: Suite, card: Card) {
    card.id == GlyphId(c, card)
  }

  lemma FieldKeysDistinct(f: Field, g: Field)
    ensures FieldKey(f) == FieldKey(g) ==> f == g
    ensures FieldKey(f) != PROTO && ArrayIndex(FieldKey(f)).None?
  {
    var i, j := FieldKey(f), FieldKey(g);
    assert !IsDigit(i[0]);
    assert |i| != |PROTO|;
    assert i == j ==> |i| == |j| && i[0] == j[0];
  }

  lemma {:induction false} PickedMembersAre(card: Card, fields: seq<Field>)
    requires CardWellFormed(card)
    requires forall i, j :: 0 <= i < j < |fields| ==> fields[i] != fields[j]
    ensures WellFormedMembers(PickedMembers(card, fields))
    ensures forall k :: k in KeySet(PickedMembers(card, fields)) <==>
      exists f :: f in fields && FieldValue(card, f).Some? && FieldKey(f) == k
    ensures forall f | f in fields ::
      (FieldKey(f) in ForgetMembers(PickedMembers(card, fields)) <==> FieldValue(card, f).Some?) &&
      (FieldValue(card, f).Some? ==>
        ForgetMembers(PickedMembers(card, fields))[FieldKey(f)] == Forget(FieldValue(card, f).value))
  {
    if fields != [] {
      var f0, rest, ms := fields[0], fields[1..], PickedMembers(card, fields);
      PickedMembersAre(card, rest);
      ForgetMembersKeys(PickedMembers(card, rest));
      assert fields == [f0] + rest;
      forall f | f in fields ensures FieldKey(f) == FieldKey(f0) ==> f == f0 {
        FieldKeysDistinct(f, f0);
      }
      FieldKeysDistinct(f0, f0);
      if FieldValue(card, f0).Some? {
        KeySetCons(ms);
        assert ms[1..] == PickedMembers(card, rest);
      }
    }
  }

  lemma CanonicalFieldsDistinct()
    ensures forall i, j :: 0 <= i < j < |CANONICAL_FIELDS| ==> CANONICAL_FIELDS[i] != CANONICAL_FIELDS[j]
    ensures forall f: Field :: f in CANONICAL_FIELDS
  {
    forall f: Field ensures f in CANONICAL_FIELDS {
      var i := match f
        case Version => 0 case Name => 1 case Intent => 2 case Tags => 3 case Cost => 4 case Idempotent => 5
        case Input => 6 case Output => 7 case Examples => 8 case FailureModes => 9 case Provider => 10
        case RequiredScopes => 11 case Attestation => 12;
      assert CANONICAL_FIELDS[i] == f;
    }
  }

  // ----- Comparing field values -----

  /** Both undefined, or both with the same canonical text. */
  predicate CanonEqual(a: Option<Value>, b: Option<Value>) {
    match (a, b)
    case (None, None) => true
    case (Some(x), Some(y)) => CanonText(x) == CanonText(y)
    case _ => false
  }

  lemma CanonEqualIsForget(a: Option<Value>, b: Option<Value>)
    requires a.Some? ==> WellFormed(a.value)
    requires b.Some? ==> WellFormed(b.value)
    ensures CanonEqual(a, b) <==> (a.Some? == b.Some? && (a.Some? ==> Forget(a.value) == Forget(b.value)))
  {
    if a.Some? && b.Some? {
      CanonTextCharacterizes(a.value, b.value);
    }
  }

  /** The canonical record of a card, up to key order: one entry per field it has. */
  function Record(card: Card): map<Text, Tree> {
    ForgetMembers(PickedMembers(card, CANONICAL_FIELDS))
  }

  lemma RecordEntry(card: Card, f: Field)
    requires CardWellFormed(card)
    ensures FieldKey(f) in Record(card) <==> FieldValue(card, f).Some?
    ensures FieldValue(card, f).Some? ==> Record(card)[FieldKey(f)] == Forget(FieldValue(card, f).value)
  {
    CanonicalFieldsDistinct();
    PickedMembersAre(card, CANONICAL_FIELDS);
  }

  lemma RecordKey(card: Card, k: Text)
    requires CardWellFormed(card) && k in Record(card)
    ensures exists f :: FieldKey(f) == k
  {
    CanonicalFieldsDistinct();
    PickedMembersAre(card, CANONICAL_FIELDS);
    ForgetMembersKeys(PickedMembers(card, CANONICAL_FIELDS));
  }

  predicate SameFields(a: Card, b: Card) {
    forall f: Field :: CanonEqual(FieldValue(a, f), FieldValue(b, f))
  }

  lemma RecordEqualIffFields(a: Card, b: Card)
    requires CardWellFormed(a) && CardWellFormed(b)
    ensures Record(a) == Record(b) <==> SameFields(a, b)
  {
    forall f: Field
      ensures CanonEqual(FieldValue(a, f), FieldValue(b, f)) <==>
        (FieldKey(f) in Record(a) <==> FieldKey(f) in Record(b)) &&
        (FieldKey(f) in Record(a) && FieldKey(f) in Record(b) ==> Record(a)[FieldKey(f)] == Record(b)[FieldKey(f)])
    {
      RecordEntry(a, f);
      RecordEntry(b, f);
      CanonEqualIsForget(FieldValue(a, f), FieldValue(b, f));
    }
    if SameFields(a, b) {
      forall k
        ensures k in Record(a) <==> k in Record(b)
        ensures k in Record(a) && k in Record(b) ==> Record(a)[k] == Record(b)[k]
      {
        if k in Record(a) { RecordKey(a, k); }
        if k in Record(b) { RecordKey(b, k); }
      }
      assert Record(a) == Record(b);
    }
  }

  /** Equality of the whole canonical record is equality field by field. */
  lemma CanonicalRecordDecomposes(a: Card, b: Card)
    requires CardWellFormed(a) && CardWellFormed(b)
    ensures CanonText(Picked(a)) == CanonText(Picked(b)) <==>
      forall f: Field :: CanonEqual(FieldValue(a, f), FieldValue(b, f))
  {
    CanonicalFieldsDistinct();
    PickedMembersAre(a, CANONICAL_FIELDS);
    PickedMembersAre(b, CANONICAL_FIELDS);
    CanonTextCharacterizes(Picked(a), Picked(b));
    RecordEqualIffFields(a, b);
  }

  lemma {:induction false} PickedSnoc(card: Card, fields: seq<Field>, f: Field)
    ensures PickedMembers(card, fields + [f]) == PickedMembers(card, fields) + PickedMembers(card, [f])
  {
    if fields == [] {
      assert [] + [f] == [f];
    } else {
      PickedSnoc(card, fields[1..], f);
      assert (fields + [f])[1..] == fields[1..] + [f];
    }
  }

  lemma PickOne(card: Card, fields: seq<Field>, f: Field)
    requires CardWellFormed(card) && f !in fields
    requires forall i, j :: 0 <= i < j < |fields| ==> fields[i] != fields[j]
    ensures FieldValue(card, f).None? ==> PickedMembers(card, fields + [f]) == PickedMembers(card, fields)
    ensures FieldValue(card, f).Some? ==>
      PickedMembers(card, fields + [f]) == SetOwn(PickedMembers(card, fields), FieldKey(f), FieldValue(card, f).value)
  {
    PickedSnoc(card, fields, f);
    assert [f][1..] == [];
    PickedMembersAre(card, fields);
    FieldKeysDistinct(f, f);
    if FieldKey(f) in KeySet(PickedMembers(card, fields)) {
      var g :| g in fields && FieldKey(g) == FieldKey(f);
      FieldKeysDistinct(f, g);
    }
  }

  /** The source's `computeGlyphId`: picks the canonical fields one by one, then hashes. */
  method ComputeGlyphId(c: Suite, card: Card) returns (id: Text)
    requires CardWellFormed(card)
    ensures id == GlyphId(c, card)
  {
    var fields := CANONICAL_FIELDS;
    CanonicalFieldsDistinct();
    var picked := PickRecord(card, fields);
    PickedMembersAre(card, fields);
    var canonical := Canonicalize(Obj(picked));
    id := c.sha(Print(canonical));
  }

  method PickRecord(card: Card, fields: seq<Field>) returns (picked: seq<Member>)
    requires CardWellFormed(card)
    requires forall i, j :: 0 <= i < j < |fields| ==> fields[i] != fields[j]
    ensures picked == PickedMembers(card, fields)
  {
    picked := [];
    for i := 0 to |fields|
      invariant picked == PickedMembers(card, fields[..i])
    {
      PickOne(card, fields[..i], fields[i]);
      assert fields[..i] + [fields[i]] == fields[..i + 1];
      match FieldValue(card, fields[i])
      case None =>
      case Some(v) => picked := SetOwn(picked, FieldKey(fields[i]), v);
    }
    assert fields[..|fields|] == fields;
  }

  /** The source's `verifyGlyph`. */
  predicate VerifyGlyph(c: Suite, card: Card) {
    Truthy(card.signature) && Truthy(card.publicKey) && Honest(c, card) &&
    c.verify(card.publicKey.value, card.id, card.signature.value)
  }

  /** A card signed over its honest id verifies; any change of canonical content breaks it. */
  lemma SignedCardVerifies(c: Suite, card: Card, sk: Text)
    requires SignaturesVerify(c) && Honest(c, card)
    requires card.publicKey == Some(c.publicKeyOf(sk)) && card.signature == Some(c.sign(sk, card.id))
    ensures VerifyGlyph(c, card)
  {
    assert c.verify(c.publicKeyOf(sk), card.id, c.sign(sk, card.id));
  }

  /** Two verified cards under one id have the same content in every canonical field. */
  lemma VerifiedIdBindsContent(c: Suite, a: Card, b: Card)
    requires CollisionFree(c) && CardWellFormed(a) && CardWellFormed(b)
    requires VerifyGlyph(c, a) && VerifyGlyph(c, b)
    ensures a.id == b.id <==> forall f: Field :: CanonEqual(FieldValue(a, f), FieldValue(b, f))
  {
    CanonicalRecordDecomposes(a, b);
  }

  // ----- The diff -----

  datatype DiffField = Whole(field: Field) | CostPart(part: CostKey) | PublicKey

  datatype Severity = Breaking | Review

  datatype Change = Change(field: DiffField, severity: Severity, before: Option<Value>, after: Option<Value>)

  datatype CardDiff = CardDiff(
    changed: bool, idChanged: bool, keyChanged: bool, changes: seq<Change>, requiresApproval: bool)

  /** The comparisons of the source's `diffCards`, in its order. */
  const DIFF_FIELDS: seq<DiffField> :=
    [Whole(Version), Whole(Name), Whole(Intent), Whole(Tags),
     CostPart(Latency), CostPart(SideEffects), CostPart(Reversible), CostPart(RiskTier), CostPart(RequiresConfirmation),
     Whole(Idempotent), Whole(Input), Whole(Output), Whole(Examples), Whole(FailureModes), Whole(Provider),
     Whole(RequiredScopes), PublicKey, Whole(Attestation)]

  function SeverityOf(d: DiffField): Severity {
    match d
    case Whole(Name) => Review
    case Whole(Intent) => Review
    case Whole(Tags) => Review
    case CostPart(Latency) => Review
    case Whole(Examples) => Review
    case Whole(FailureModes) => Review
    case _ => Breaking
  }

  function DiffValue(card: Card, d: DiffField): Option<Value> {
    match d
    case Whole(f) => FieldValue(card, f)
    case CostPart(k) => CostValue(card, k)
    case PublicKey => if card.publicKey.Some? then Some(Leaf(Str(card.publicKey.value))) else None
  }

  predicate Agree(a: Card, b: Card, d: DiffField) {
    CanonEqual(DiffValue(a, d), DiffValue(b, d))
  }

  function Changes(a: Card, b: Card, ds: seq<DiffField>): seq<Change> {
    if ds == [] then []
    else
      (if Agree(a, b, ds[0]) then []
       else [Change(ds[0], SeverityOf(ds[0]), DiffValue(a, ds[0]), DiffValue(b, ds[0]))])
      + Changes(a, b, ds[1..])
  }

  function Diff(a: Card, b: Card): CardDiff {
    var changes := Changes(a, b, DIFF_FIELDS);
    CardDiff(
      |changes| > 0,
      a.id != b.id,
      a.publicKey != b.publicKey,
      changes,
      exists x | x in changes :: x.severity == Breaking)
  }

  lemma {:induction false} ChangesSnoc(a: Card, b: Card, ds: seq<DiffField>, d: DiffField)
    ensures Changes(a, b, ds + [d]) ==
      Changes(a, b, ds) + if Agree(a, b, d) then [] else [Change(d, SeverityOf(d), DiffValue(a, d), DiffValue(b, d))]
  {
    if ds == [] {
      assert [d][1..] == [];
    } else {
      ChangesSnoc(a, b, ds[1..], d);
      assert (ds + [d])[1..] == ds[1..] + [d] && (ds + [d])[0] == ds[0];
      var tail := if Agree(a, b, d) then [] else [ChangeOf(a, b, d)];
      var head := if Agree(a, b, ds[0]) then [] else [ChangeOf(a, b, ds[0])];
      assert head + (Changes(a, b, ds[1..]) + tail) == head + Changes(a, b, ds[1..]) + tail;
    }
  }

  /** Compares the given fields one after the other, and records those that differ. */
  method CollectChanges(approved: Card, next: Card, fields: seq<DiffField>) returns (changes: seq<Change>, breaking: bool)
    ensures changes == Changes(approved, next, fields)
    ensures breaking <==> exists x | x in changes :: x.severity == Breaking
  {
    changes, breaking := [], false;
    for i := 0 to |fields|
      invariant changes == Changes(approved, next, fields[..i])
      invariant breaking <==> exists x | x in changes :: x.severity == Breaking
    {
      ChangesSnoc(approved, next, fields[..i], fields[i]);
      assert fields[..i] + [fields[i]] == fields[..i + 1];
      if !Agree(approved, next, fields[i]) {
        var change := Change(fields[i], SeverityOf(fields[i]), DiffValue(approved, fields[i]), DiffValue(next, fields[i]));
        changes := changes + [change];
        assert change in changes;
        breaking := breaking || change.severity == Breaking;
      }
    }
    assert fields[..|fields|] == fields;
  }

  /** The source's `diffCards`. */
  method DiffCards(approved: Card, next: Card) returns (diff: CardDiff)
    ensures diff == Diff(approved, next)
  {
    var changes, breaking := CollectChanges(approved, next, DIFF_FIELDS);
    diff := CardDiff(|changes| > 0, approved.id != next.id, approved.publicKey != next.publicKey, changes, breaking);
  }

  lemma DiffFieldsComplete(d: DiffField)
    ensures d in DIFF_FIELDS <==> d != Whole(Cost)
  {
    if d != Whole(Cost) {
      var i := match d
        case Whole(Version) => 0 case Whole(Name) => 1 case Whole(Intent) => 2 case Whole(Tags) => 3
        case CostPart(Latency) => 4 case CostPart(SideEffects) => 5 case CostPart(Reversible) => 6
        case CostPart(RiskTier) => 7 case CostPart(RequiresConfirmation) => 8
        case Whole(Idempotent) => 9 case Whole(Input) => 10 case Whole(Output) => 11 case Whole(Examples) => 12
        case Whole(FailureModes) => 13 case Whole(Provider) => 14 case Whole(RequiredScopes) => 15
        case PublicKey => 16 case Whole(Attestation) => 17 case _ => 0;
      assert DIFF_FIELDS[i] == d;
    }
  }

  lemma {:induction false} ChangesExact(a: Card, b: Card, ds: seq<DiffField>, x: Change)
    ensures x in Changes(a, b, ds) <==>
      x.field in ds && !Agree(a, b, x.field) &&
      x == Change(x.field, SeverityOf(x.field), DiffValue(a, x.field), DiffValue(b, x.field))
  {
    if ds != [] {
      ChangesExact(a, b, ds[1..], x);
      assert ds == [ds[0]] + ds[1..];
    }
  }

  function ChangeOf(a: Card, b: Card, d: DiffField): Change {
    Change(d, SeverityOf(d), DiffValue(a, d), DiffValue(b, d))
  }

  /** The diff lists a change for exactly the fields that differ, with both values and the severity. */
  lemma DiffListsDifferences(a: Card, b: Card, d: DiffField)
    requires d != Whole(Cost)
    ensures ChangeOf(a, b, d) in Diff(a, b).changes <==> !Agree(a, b, d)
    ensures forall x | x in Diff(a, b).changes :: x == ChangeOf(a, b, x.field) && !Agree(a, b, x.field)
  {
    DiffFieldsComplete(d);
    ChangesExact(a, b, DIFF_FIELDS, ChangeOf(a, b, d));
    forall x | x in Diff(a, b).changes ensures x == ChangeOf(a, b, x.field) && !Agree(a, b, x.field) {
      ChangesExact(a, b, DIFF_FIELDS, x);
    }
  }

  /** Approval is required exactly when some breaking field differs. */
  lemma ApprovalRequiredExactly(a: Card, b: Card)
    ensures Diff(a, b).requiresApproval <==>
      exists d: DiffField :: d != Whole(Cost) && SeverityOf(d) == Breaking && !Agree(a, b, d)
  {
    if x :| x in Diff(a, b).changes && x.severity == Breaking {
      ChangesExact(a, b, DIFF_FIELDS, x);
      DiffFieldsComplete(x.field);
    }
    if d: DiffField :| d != Whole(Cost) && SeverityOf(d) == Breaking && !Agree(a, b, d) {
      DiffListsDifferences(a, b, d);
      assert ChangeOf(a, b, d).severity == Breaking;
    }
  }

  lemma ChangedExactly(a: Card, b: Card)
    ensures Diff(a, b).changed <==> exists d: DiffField :: d != Whole(Cost) && !Agree(a, b, d)
  {
    var changes := Diff(a, b).changes;
    if |changes| > 0 {
      ChangesExact(a, b, DIFF_FIELDS, changes[0]);
      DiffFieldsComplete(changes[0].field);
    }
    if d: DiffField :| d != Whole(Cost) && !Agree(a, b, d) {
      DiffListsDifferences(a, b, d);
    }
  }

  // ----- The diff explains the id -----

  /** The cost record is an object with none but the declared members. */
  predicate DeclaredCost(card: Card) {
    match FieldValue(card, Cost)
    case Some(Obj(members)) => forall k | k in KeySet(members) :: exists part: CostKey :: CostKeyText(part) == k
    case _ => false
  }

  lemma PublicKeyAgrees(a: Card, b: Card)
    ensures Agree(a, b, PublicKey) <==> a.publicKey == b.publicKey
  {
    if a.publicKey.Some? && b.publicKey.Some? && Agree(a, b, PublicKey) {
      PrintInjective(Leaf(Str(a.publicKey.value)), Leaf(Str(b.publicKey.value)));
    }
  }

  lemma CostKeyIsNotProto(k: CostKey)
    ensures CostKeyText(k) != PROTO
  {
    assert CostKeyText(k)[0] != PROTO[0];
  }

  lemma CostPartInRecord(card: Card, members: seq<Member>, k: CostKey)
    requires CardWellFormed(card) && FieldValue(card, Cost) == Some(Obj(members))
    ensures WellFormedMembers(members)
    ensures CostKeyText(k) in ForgetMembers(members) <==> CostValue(card, k).Some?
    ensures CostValue(card, k).Some? ==>
      WellFormed(CostValue(card, k).value) && ForgetMembers(members)[CostKeyText(k)] == Forget(CostValue(card, k).value)
  {
    assert WellFormed(Obj(members));
    CostKeyIsNotProto(k);
    LookupFinds(members, CostKeyText(k));
    ForgetMembersKeys(members);
    if CostValue(card, k).Some? {
      ForgetMemberAt(members, CostKeyText(k));
    }
  }

  /** If whole cost records agree, so do their parts. */
  lemma CostAgreesInParts(a: Card, b: Card, k: CostKey)
    requires CardWellFormed(a) && CardWellFormed(b) && Agree(a, b, Whole(Cost))
    ensures Agree(a, b, CostPart(k))
  {
    CanonEqualIsForget(FieldValue(a, Cost), FieldValue(b, Cost));
    match (FieldValue(a, Cost), FieldValue(b, Cost))
    case (Some(Obj(x)), Some(Obj(y))) =>
      CostPartInRecord(a, x, k);
      CostPartInRecord(b, y, k);
      CanonEqualIsForget(CostValue(a, k), CostValue(b, k));
    case _ =>
  }

  /** With declared members only, the five parts determine the cost record. */
  lemma DeclaredCostIsItsParts(a: Card, b: Card)
    requires CardWellFormed(a) && CardWellFormed(b) && DeclaredCost(a) && DeclaredCost(b)
    requires forall k: CostKey :: Agree(a, b, CostPart(k))
    ensures Agree(a, b, Whole(Cost))
  {
    var x, y := FieldValue(a, Cost).value.members, FieldValue(b, Cost).value.members;
    forall k: CostKey
      ensures CostKeyText(k) in ForgetMembers(x) <==> CostKeyText(k) in ForgetMembers(y)
      ensures CostKeyText(k) in ForgetMembers(x) ==>
        ForgetMembers(x)[CostKeyText(k)] == ForgetMembers(y)[CostKeyText(k)]
    {
      CostPartInRecord(a, x, k);
      CostPartInRecord(b, y, k);
      assert Agree(a, b, CostPart(k));
      CanonEqualIsForget(CostValue(a, k), CostValue(b, k));
    }
    ForgetMembersKeys(x);
    ForgetMembersKeys(y);
    assert ForgetMembers(x) == ForgetMembers(y);
    CanonEqualIsForget(FieldValue(a, Cost), FieldValue(b, Cost));
  }

  lemma IdDetects(c: Suite, a: Card, b: Card)
    requires CollisionFree(c) && CardWellFormed(a) && CardWellFormed(b) && Honest(c, a) && Honest(c, b)
    ensures a.id == b.id <==> forall f: Field :: Agree(a, b, Whole(f))
  {
    CanonicalRecordDecomposes(a, b);
    if a.id == b.id {
      forall f: Field ensures Agree(a, b, Whole(f)) {
        assert CanonEqual(FieldValue(a, f), FieldValue(b, f));
      }
    }
    if forall f: Field :: Agree(a, b, Whole(f)) {
      forall f: Field ensures CanonEqual(FieldValue(a, f), FieldValue(b, f)) {
        assert Agree(a, b, Whole(f));
      }
    }
  }

  /** An unreported change: the cost records differ although their five declared parts agree. */
  predicate CostHidesChange(a: Card, b: Card) {
    !Agree(a, b, Whole(Cost)) && forall k: CostKey :: Agree(a, b, CostPart(k))
  }

  /**
   The diff explains what the id and the key detect. A reported change is always detected, and a
   detected change is reported unless the cost records alone differ, outside their declared parts.
   */
  lemma DiffExplainsId(c: Suite, a: Card, b: Card)
    requires CollisionFree(c) && CardWellFormed(a) && CardWellFormed(b) && Honest(c, a) && Honest(c, b)
    ensures var d := Diff(a, b);
      (d.changed ==> d.idChanged || d.keyChanged) &&
      ((d.idChanged || d.keyChanged) && !d.changed <==>
        CostHidesChange(a, b) && a.publicKey == b.publicKey && forall f: Field :: f != Cost ==> Agree(a, b, Whole(f)))
  {
    IdDetects(c, a, b);
    ChangedExactly(a, b);
    PublicKeyAgrees(a, b);
    if Agree(a, b, Whole(Cost)) {
      forall k: CostKey ensures Agree(a, b, CostPart(k)) { CostAgreesInParts(a, b, k); }
    }
    if !Diff(a, b).changed {
      assert forall d: DiffField :: d != Whole(Cost) ==> Agree(a, b, d);
    }
  }

  /** For cards that declare their cost as the protocol says, the diff is a complete explanation. */
  lemma DiffIsCompleteExplainer(c: Suite, a: Card, b: Card)
    requires CollisionFree(c) && CardWellFormed(a) && CardWellFormed(b) && Honest(c, a) && Honest(c, b)
    requires DeclaredCost(a) && DeclaredCost(b)
    ensures Diff(a, b).changed <==> Diff(a, b).idChanged || Diff(a, b).keyChanged
  {
    DiffExplainsId(c, a, b);
    if CostHidesChange(a, b) {
      DeclaredCostIsItsParts(a, b);
    }
  }

  lemma {:induction false} PickedIgnoresId(card: Card, id: Text, fields: seq<Field>)
    ensures PickedMembers(card.(id := id), fields) == PickedMembers(card, fields)
  {
    if fields != [] {
      PickedIgnoresId(card, id, fields[1..]);
    }
  }

  lemma UndeclaredCostHides(x: Card, y: Card, extra: Text)
    requires CardWellFormed(x) && CardWellFormed(y)
    requires FieldValue(x, Cost) == Some(Obj([])) && FieldValue(y, Cost) == Some(Obj([Member(extra, Leaf(Null))]))
    requires extra != PROTO && forall k: CostKey :: CostKeyText(k) != extra
    ensures CostHidesChange(x, y)
  {
    CanonEqualIsForget(FieldValue(x, Cost), FieldValue(y, Cost));
    var ms: seq<Member> := [Member(extra, Leaf(Null))];
    assert ms[1..] == [];
    assert extra in ForgetMembers(ms);
    forall k: CostKey ensures Agree(x, y, CostPart(k)) {
      assert CostKeyText(k) != extra;
      assert FieldValue(y, Cost).value.members == ms;
      assert Lookup(ms, CostKeyText(k)) == Lookup(ms[1..], CostKeyText(k)) == None;
    }
  }

  lemma OnlyCostDiffers(c: Suite, x: Card, y: Card)
    requires CollisionFree(c) && CardWellFormed(x) && CardWellFormed(y) && Honest(c, x) && Honest(c, y)
    requires CostHidesChange(x, y)
    requires x.publicKey == y.publicKey && forall f: Field :: f != Cost ==> FieldValue(x, f) == FieldValue(y, f)
    ensures x.id != y.id && !Diff(x, y).changed
  {
    forall f: Field | f != Cost ensures Agree(x, y, Whole(f)) {
      assert FieldValue(x, f) == FieldValue(y, f);
    }
    DiffExplainsId(c, x, y);
    IdDetects(c, x, y);
    assert !Agree(x, y, Whole(Cost));
  }

  /** The card with its cost replaced, under its own new id. */
  function WithCost(c: Suite, card: Card, cost: Value): Card {
    var changed := card.(body := card.body[Cost := cost]);
    changed.(id := GlyphId(c, changed))
  }

  lemma WithCostIsHonest(c: Suite, card: Card, cost: Value)
    requires CardWellFormed(card) && WellFormed(cost)
    ensures Honest(c, WithCost(c, card, cost)) && CardWellFormed(WithCost(c, card, cost))
    ensures FieldValue(WithCost(c, card, cost), Cost) == Some(cost)
  {
    var changed := card.(body := card.body[Cost := cost]);
    PickedIgnoresId(changed, GlyphId(c, changed), CANONICAL_FIELDS);
  }

  /** An undeclared cost member changes the id, yet the diff of the two cards reports nothing. */
  lemma UndeclaredCostGoesUnreported(c: Suite, card: Card, extra: Text)
    requires CollisionFree(c) && CardWellFormed(card)
    requires extra != PROTO && forall k: CostKey :: CostKeyText(k) != extra
    ensures var x, y := WithCost(c, card, Obj([])), WithCost(c, card, Obj([Member(extra, Leaf(Null))]));
      x.id != y.id && !Diff(x, y).changed
  {
    var ms: seq<Member> := [Member(extra, Leaf(Null))];
    var x, y := WithCost(c, card, Obj([])), WithCost(c, card, Obj(ms));
    assert ms[1..] == [];
    WithCostIsHonest(c, card, Obj([]));
    WithCostIsHonest(c, card, Obj(ms));
    UndeclaredCostHides(x, y, extra);
    OnlyCostDiffers(c, x, y);
  }
}
