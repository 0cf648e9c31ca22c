/**
 Call receipts, end to end: the envelope the server seals around an output, and the six checks
 the client makes before it hands the payload to its caller.
 */
module Receipts {
  import opened Texts
  import opened Json
  import opened Canonical
  import opened Crypto
  import opened Cards

  datatype ReceiptKey =
    | ReceiptVersion | CallId | ClientCallId | GlyphIdKey | GlyphName | InputHash | OutputHash | InspectionHash
    | RiskTierKey | ProviderKey | LatencyMs | Timestamp | ServerPublicKey

  function ReceiptKeyText(k: ReceiptKey): Text {
    match k
    case ReceiptVersion => Ascii("receiptVersion")
    case CallId => Ascii("callId")
    case ClientCallId => Ascii("clientCallId")
    case GlyphIdKey => Ascii("glyphId")
    case GlyphName => Ascii("glyphName")
    case InputHash => Ascii("inputHash")
    case OutputHash => Ascii("outputHash")
    case InspectionHash => Ascii("inspectionHash")
    case RiskTierKey => Ascii("riskTier")
    case ProviderKey => Ascii("provider")
    case LatencyMs => Ascii("latencyMs")
    case Timestamp => Ascii("timestamp")
    case ServerPublicKey => Ascii("serverPublicKey")
  }

  /** A receipt as parsed: its signature, and every other member in `rest`. */
  datatype Receipt = Receipt(rest: seq<Member>, signature: Option<Text>)

  datatype Envelope = Envelope(
    glyphId: Text, callId: Text, payload: Option<Value>, inspection: Option<Value>, receipt: Option<Receipt>)

  function ReceiptField(r: Receipt, k: ReceiptKey): Option<Value> {
    Lookup(r.rest, ReceiptKeyText(k))
  }

  /** An optional text as the JSON value it is compared with. */
  function TextValue(t: Option<Text>): Option<Value> {
    if t.Some? then Some(Leaf(Str(t.value))) else None
  }

  /** The value, or the default in place of undefined and null. */
  function Coalesce(v: Option<Value>, d: Option<Value>): Option<Value> {
    if v.None? || v == Some(Leaf(Null)) then d else v
  }

  // ----- The client's side -----

  /** The source's core `verifyReceipt`: a truthy key and signature, and the signature verifies. */
  predicate CoreVerifyReceipt(c: Suite, r: Receipt) {
    match ReceiptField(r, ServerPublicKey)
    case Some(Leaf(Str(key))) =>
      key != [] && Truthy(r.signature) && c.verify(key, CanonicalHash(c, Obj(r.rest)), r.signature.value)
    case _ => false
  }

  /** The client's `verifyReceipt`: checks (a) to (f) against the pinned card and this call's id. */
  predicate Accepts(c: Suite, e: Envelope, card: Card, callId: Text) {
    e.receipt.Some? &&
    var r := e.receipt.value;
    ReceiptField(r, ServerPublicKey) == TextValue(card.publicKey) &&
    CoreVerifyReceipt(c, r) &&
    ReceiptField(r, GlyphIdKey) == TextValue(Some(card.id)) &&
    e.payload.Some? && TextValue(Some(CanonicalHash(c, e.payload.value))) == ReceiptField(r, OutputHash) &&
    TextValue(Some(CanonicalHash(c, Coalesce(e.inspection, Some(Obj([]))).value))) == ReceiptField(r, InspectionHash) &&
    Coalesce(ReceiptField(r, ClientCallId), ReceiptField(r, CallId)) == TextValue(Some(callId))
  }

  // ----- The server's side -----

  datatype Execution = Execution(
    card: Card,
    callId: Text,
    clientCallId: Option<Text>,
    input: Value,
    output: Value,        // sanitized
    inspection: Value,    // the sanitizer's report
    latencyMs: NumberLiteral,
    timestamp: Text)

  function Named(fields: seq<(ReceiptKey, Value)>): seq<Member> {
    if fields == [] then [] else [Member(ReceiptKeyText(fields[0].0), fields[0].1)] + Named(fields[1..])
  }

  function Find(fields: seq<(ReceiptKey, Value)>, k: ReceiptKey): Option<Value> {
    if fields == [] then None else if fields[0].0 == k then Some(fields[0].1) else Find(fields[1..], k)
  }

  /** A field that is left out when its value is undefined. */
  function Optional(k: ReceiptKey, v: Option<Value>): seq<(ReceiptKey, Value)> {
    if v.Some? then [(k, v.value)] else []
  }

  function FixedFields(c: Suite, x: Execution, publicKey: Text): seq<(ReceiptKey, Value)> {
    [(ReceiptVersion, Leaf(Str(Ascii("0.3")))),
     (CallId, Leaf(Str(x.callId))),
     (GlyphIdKey, Leaf(Str(x.card.id))),
     (GlyphName, Leaf(Str(x.card.name))),
     (InputHash, Leaf(Str(CanonicalHash(c, x.input)))),
     (OutputHash, Leaf(Str(CanonicalHash(c, x.output)))),
     (InspectionHash, Leaf(Str(CanonicalHash(c, x.inspection)))),
     (LatencyMs, Leaf(Num(x.latencyMs))),
     (Timestamp, Leaf(Str(x.timestamp))),
     (ServerPublicKey, Leaf(Str(publicKey)))]
  }

  function OptionalFields(x: Execution): seq<(ReceiptKey, Value)> {
    Optional(RiskTierKey, CostValue(x.card, RiskTier)) + Optional(ProviderKey, FieldValue(x.card, Provider))
    + Optional(ClientCallId, if Truthy(x.clientCallId) then TextValue(x.clientCallId) else None)
  }

  /** The fields of the receipt. Their order is of no account: only the canonical hash of the receipt and single fields are read. */
  function ReceiptFields(c: Suite, x: Execution, publicKey: Text): seq<(ReceiptKey, Value)> {
    FixedFields(c, x, publicKey) + OptionalFields(x)
  }

  function SignedReceipt(c: Suite, x: Execution, sk: Text): Receipt {
    var rest := Named(ReceiptFields(c, x, c.publicKeyOf(sk)));
    Receipt(rest, Some(c.sign(sk, CanonicalHash(c, Obj(rest)))))
  }

  /** What the call handler responds: the sealed result and its receipt. */
  function Seal(c: Suite, x: Execution, sk: Text): Envelope {
    Envelope(x.card.id, x.callId, Some(x.output), Some(x.inspection), Some(SignedReceipt(c, x, sk)))
  }

  // ----- Looking members up by name -----

  lemma ReceiptKeysDistinct(k: ReceiptKey, l: ReceiptKey)
    ensures ReceiptKeyText(k) == ReceiptKeyText(l) ==> k == l
    ensures ReceiptKeyText(k) != PROTO
  {
    var s, t := ReceiptKeyText(k), ReceiptKeyText(l);
    assert s[0] != PROTO[0];
    assert s == t ==> |s| == |t| && s[0] == t[0] && s[2] == t[2];
  }

  lemma {:induction false} LookupNamed(fields: seq<(ReceiptKey, Value)>, k: ReceiptKey)
    ensures Lookup(Named(fields), ReceiptKeyText(k)) == Find(fields, k)
  {
    if fields != [] {
      ReceiptKeysDistinct(fields[0].0, k);
      LookupNamed(fields[1..], k);
      assert Named(fields)[1..] == Named(fields[1..]);
    }
  }

  lemma SignedReceiptFields(c: Suite, x: Execution, sk: Text)
    ensures var r := SignedReceipt(c, x, sk);
      ReceiptField(r, ServerPublicKey) == TextValue(Some(c.publicKeyOf(sk))) &&
      ReceiptField(r, GlyphIdKey) == TextValue(Some(x.card.id)) &&
      ReceiptField(r, OutputHash) == TextValue(Some(CanonicalHash(c, x.output))) &&
      ReceiptField(r, InspectionHash) == TextValue(Some(CanonicalHash(c, x.inspection))) &&
      ReceiptField(r, CallId) == TextValue(Some(x.callId)) &&
      ReceiptField(r, ClientCallId) == if Truthy(x.clientCallId) then TextValue(x.clientCallId) else None
  {
    var fields := ReceiptFields(c, x, c.publicKeyOf(sk));
    FindFixedFields(c, x, c.publicKeyOf(sk));
    FindHashes(c, x, c.publicKeyOf(sk));
    FindClientCallId(c, x, c.publicKeyOf(sk));
    LookupNamed(fields, ServerPublicKey);
    LookupNamed(fields, GlyphIdKey);
    LookupNamed(fields, OutputHash);
    LookupNamed(fields, InspectionHash);
    LookupNamed(fields, CallId);
    LookupNamed(fields, ClientCallId);
  }

  lemma {:induction false} FindConcat(a: seq<(ReceiptKey, Value)>, b: seq<(ReceiptKey, Value)>, k: ReceiptKey)
    ensures Find(a + b, k) == if Find(a, k).Some? then Find(a, k) else Find(b, k)
  {
    if a == [] {
      assert a + b == b;
    } else {
      assert (a + b)[1..] == a[1..] + b;
      FindConcat(a[1..], b, k);
    }
  }

  lemma {:induction false} FindAt(fields: seq<(ReceiptKey, Value)>, i: nat)
    requires i < |fields| && forall j :: 0 <= j < i ==> fields[j].0 != fields[i].0
    ensures Find(fields, fields[i].0) == Some(fields[i].1)
  {
    if i > 0 {
      FindAt(fields[1..], i - 1);
    }
  }

  lemma {:induction false} FindNone(fields: seq<(ReceiptKey, Value)>, k: ReceiptKey)
    requires forall j :: 0 <= j < |fields| ==> fields[j].0 != k
    ensures Find(fields, k) == None
  {
    if fields != [] {
      FindNone(fields[1..], k);
    }
  }

  /** A fixed field is found where it stands. */
  lemma FindFixed(c: Suite, x: Execution, publicKey: Text, i: nat)
    requires i < 10
    ensures var fixed := FixedFields(c, x, publicKey);
      i < |fixed| && Find(ReceiptFields(c, x, publicKey), fixed[i].0) == Some(fixed[i].1)
  {
    var fixed := FixedFields(c, x, publicKey);
    FindAt(fixed, i);
    FindConcat(fixed, OptionalFields(x), fixed[i].0);
  }

  lemma FindFixedFields(c: Suite, x: Execution, publicKey: Text)
    ensures var fields := ReceiptFields(c, x, publicKey);
      Find(fields, ServerPublicKey) == TextValue(Some(publicKey)) &&
      Find(fields, GlyphIdKey) == TextValue(Some(x.card.id)) &&
      Find(fields, CallId) == TextValue(Some(x.callId))
  {
    FindFixed(c, x, publicKey, 1);
    FindFixed(c, x, publicKey, 2);
    FindFixed(c, x, publicKey, 9);
  }

  lemma FindHashes(c: Suite, x: Execution, publicKey: Text)
    ensures var fields := ReceiptFields(c, x, publicKey);
      Find(fields, OutputHash) == TextValue(Some(CanonicalHash(c, x.output))) &&
      Find(fields, InspectionHash) == TextValue(Some(CanonicalHash(c, x.inspection)))
  {
    FindFixed(c, x, publicKey, 5);
    FindFixed(c, x, publicKey, 6);
  }

  lemma FindOptional(k: ReceiptKey, v: Option<Value>, l: ReceiptKey)
    ensures Find(Optional(k, v), l) == if k == l then v else None
  {
  }

  lemma FindClientCallId(c: Suite, x: Execution, publicKey: Text)
    ensures Find(ReceiptFields(c, x, publicKey), ClientCallId) == if Truthy(x.clientCallId) then TextValue(x.clientCallId) else None
  {
    var fixed := FixedFields(c, x, publicKey);
    var tier, provider := Optional(RiskTierKey, CostValue(x.card, RiskTier)), Optional(ProviderKey, FieldValue(x.card, Provider));
    var id := Optional(ClientCallId, if Truthy(x.clientCallId) then TextValue(x.clientCallId) else None);
    FindNone(fixed, ClientCallId);
    FindConcat(fixed, OptionalFields(x), ClientCallId);
    FindConcat(tier + provider, id, ClientCallId);
    FindConcat(tier, provider, ClientCallId);
    FindOptional(RiskTierKey, CostValue(x.card, RiskTier), ClientCallId);
    FindOptional(ProviderKey, FieldValue(x.card, Provider), ClientCallId);
    FindOptional(ClientCallId, if Truthy(x.clientCallId) then TextValue(x.clientCallId) else None, ClientCallId);
  }

  // ----- Main results -----

  /**
   Every envelope the handler seals passes all six client checks, when the pin is the served card
   and the call id is the one the client sent.
   */
  lemma SealedEnvelopeAccepted(c: Suite, x: Execution, sk: Text, pinned: Card, callId: Text)
    requires SignaturesVerify(c)
    requires pinned.id == x.card.id && pinned.publicKey == Some(c.publicKeyOf(sk))
    requires x.clientCallId == Some(callId) && callId != []
    requires x.inspection != Leaf(Null)
    ensures Accepts(c, Seal(c, x, sk), pinned, callId)
  {
    SignedReceiptFields(c, x, sk);
    var m := CanonicalHash(c, Obj(SignedReceipt(c, x, sk).rest));
    assert c.verify(c.publicKeyOf(sk), m, c.sign(sk, m)) && c.sign(sk, m) != [];
    assert c.publicKeyOf(sk) != [];
  }

  /** A member of the receipt, by its name. */
  function Says(r: Receipt, name: string): Option<Value> {
    Lookup(r.rest, Ascii(name))
  }

  predicate Nullish(v: Option<Value>) {
    v.None? || v.value == Leaf(Null)
  }

  /**
   The six checks on the members of the receipt: the pinned key signed it, it is about the pinned card,
   this payload, this inspection (or none) and this call, by the client's id of it if there is one.
   */
  lemma AcceptedExactly(c: Suite, e: Envelope, card: Card, callId: Text)
    requires e.receipt.Some?
    ensures var r, key := e.receipt.value, card.publicKey;
      Accepts(c, e, card, callId) <==>
        key.Some? && key.value != [] && Says(r, "serverPublicKey") == Some(Leaf(Str(key.value))) &&
        r.signature.Some? && r.signature.value != [] && c.verify(key.value, CanonicalHash(c, Obj(r.rest)), r.signature.value) &&
        Says(r, "glyphId") == Some(Leaf(Str(card.id))) &&
        e.payload.Some? && Says(r, "outputHash") == Some(Leaf(Str(CanonicalHash(c, e.payload.value)))) &&
        Says(r, "inspectionHash") ==
          Some(Leaf(Str(CanonicalHash(c, if Nullish(e.inspection) then Obj([]) else e.inspection.value)))) &&
        (if Nullish(Says(r, "clientCallId")) then Says(r, "callId") else Says(r, "clientCallId")) == Some(Leaf(Str(callId)))
  {
    var r := e.receipt.value;
    assert ReceiptField(r, ServerPublicKey) == Says(r, "serverPublicKey") && ReceiptField(r, GlyphIdKey) == Says(r, "glyphId");
    assert ReceiptField(r, OutputHash) == Says(r, "outputHash") && ReceiptField(r, InspectionHash) == Says(r, "inspectionHash");
    assert ReceiptField(r, CallId) == Says(r, "callId") && ReceiptField(r, ClientCallId) == Says(r, "clientCallId");
  }

  /** One receipt answers one call: it is never accepted for two call ids, whatever envelope carries it. */
  lemma ReceiptAnswersOneCall(c: Suite, e: Envelope, f: Envelope, card: Card, other: Card, callId: Text, otherId: Text)
    requires Accepts(c, e, card, callId) && Accepts(c, f, other, otherId) && e.receipt == f.receipt
    ensures callId == otherId && card.id == other.id && card.publicKey == other.publicKey
  {
  }

  /** An accepted receipt fixes the payload and the inspection report, up to the order of keys. */
  lemma ReceiptBindsPayload(c: Suite, e: Envelope, f: Envelope, card: Card, other: Card, callId: Text, otherId: Text)
    requires CollisionFree(c)
    requires Accepts(c, e, card, callId) && Accepts(c, f, other, otherId) && e.receipt == f.receipt
    requires WellFormed(e.payload.value) && WellFormed(f.payload.value)
    requires e.inspection.Some? && f.inspection.Some?
    requires WellFormed(e.inspection.value) && WellFormed(f.inspection.value)
    requires e.inspection != Some(Leaf(Null)) && f.inspection != Some(Leaf(Null))
    ensures Forget(e.payload.value) == Forget(f.payload.value)
    ensures Forget(e.inspection.value) == Forget(f.inspection.value)
  {
    CanonicalHashBinds(c, e.payload.value, f.payload.value);
    CanonicalHashBinds(c, e.inspection.value, f.inspection.value);
  }

  // ----- What acceptance proves when the server's key is used for what the protocol signs -----

  /**
   A message that a key of the protocol signs: the id of a card, the hash of a receipt, or the hash
   of any other object, which has no `glyphId`: a manifest, a key registry, an entry of one.
   */
  datatype Signed = CardId(card: Card) | OtherHash(other: Value) | ReceiptHash(x: Execution)

  function SignedMessage(c: Suite, sk: Text, s: Signed): Text {
    match s
    case CardId(card) => card.id
    case OtherHash(m) => CanonicalHash(c, m)
    case ReceiptHash(x) => CanonicalHash(c, Obj(SignedReceipt(c, x, sk).rest))
  }

  /** Only messages on the record verify under the key: nobody else can sign with it. */
  ghost predicate Unforgeable(c: Suite, sk: Text, record: iset<Signed>) {
    forall m, s :: c.verify(c.publicKeyOf(sk), m, s) ==> exists e :: e in record && SignedMessage(c, sk, e) == m
  }

  predicate ExecutionWellFormed(x: Execution) {
    CardWellFormed(x.card) && WellFormed(x.input) && WellFormed(x.output) && WellFormed(x.inspection) &&
    (CostValue(x.card, RiskTier).Some? ==> WellFormed(CostValue(x.card, RiskTier).value)) && x.inspection != Leaf(Null)
  }

  /** Cards are signed under their honest ids, and other objects have no `glyphId`. */
  ghost predicate RecordWellFormed(c: Suite, s: Signed) {
    match s
    case CardId(card) => CardWellFormed(card) && Honest(c, card)
    case OtherHash(m) =>
      WellFormed(m) && m.Obj? && ReceiptKeyText(GlyphIdKey) !in KeySet(m.members)
    case ReceiptHash(x) => ExecutionWellFormed(x)
  }

  lemma {:induction false} NamedKeys(fields: seq<(ReceiptKey, Value)>, k: Text)
    requires k in KeySet(Named(fields))
    ensures exists i :: 0 <= i < |fields| && ReceiptKeyText(fields[i].0) == k
  {
    var ms := Named(fields);
    KeySetCons(ms);
    if k == ms[0].key {
      assert ReceiptKeyText(fields[0].0) == k;
    } else {
      assert ms[1..] == Named(fields[1..]);
      NamedKeys(fields[1..], k);
      var i :| 0 <= i < |fields[1..]| && ReceiptKeyText(fields[1..][i].0) == k;
      assert fields[1..][i] == fields[i + 1];
    }
  }

  lemma NamedOnce(fields: seq<(ReceiptKey, Value)>)
    requires fields != [] && forall i, j :: 0 <= i < j < |fields| ==> fields[i].0 != fields[j].0
    ensures ReceiptKeyText(fields[0].0) !in KeySet(Named(fields[1..]))
  {
    var rest, k := fields[1..], fields[0].0;
    forall i | 0 <= i < |rest| ensures ReceiptKeyText(rest[i].0) != ReceiptKeyText(k) {
      ReceiptKeysDistinct(rest[i].0, k);
      assert rest[i] == fields[i + 1];
    }
    if ReceiptKeyText(k) in KeySet(Named(rest)) {
      NamedKeys(rest, ReceiptKeyText(k));
    }
  }

  lemma {:induction false} NamedWellFormed(fields: seq<(ReceiptKey, Value)>)
    requires forall i, j :: 0 <= i < j < |fields| ==> fields[i].0 != fields[j].0
    requires forall i :: 0 <= i < |fields| ==> WellFormed(fields[i].1)
    ensures WellFormedMembers(Named(fields))
  {
    if fields != [] {
      NamedOnce(fields);
      NamedWellFormed(fields[1..]);
      assert Named(fields)[1..] == Named(fields[1..]);
    }
  }

  lemma SignedReceiptWellFormed(c: Suite, x: Execution, sk: Text)
    requires ExecutionWellFormed(x)
    ensures WellFormedMembers(SignedReceipt(c, x, sk).rest)
  {
    NamedWellFormed(ReceiptFields(c, x, c.publicKeyOf(sk)));
  }

  /** Equal up to key order means equal when looked up, for texts. */
  lemma ForgetLookupText(xs: seq<Member>, ys: seq<Member>, k: ReceiptKey, t: Text)
    requires WellFormedMembers(xs) && WellFormedMembers(ys) && ForgetMembers(xs) == ForgetMembers(ys)
    requires Lookup(xs, ReceiptKeyText(k)) == TextValue(Some(t))
    ensures Lookup(ys, ReceiptKeyText(k)) == TextValue(Some(t))
  {
    var key := ReceiptKeyText(k);
    ReceiptKeysDistinct(k, k);
    LookupFinds(xs, key);
    ForgetMembersKeys(xs);
    ForgetMembersKeys(ys);
    ForgetMemberAt(xs, key);
    assert key in ForgetMembers(ys);
    ForgetMemberAt(ys, key);
    assert Forget(Lookup(ys, key).value) == Atom(Str(t));
  }

  lemma GlyphIdIsNoCardField(f: Field)
    ensures FieldKey(f) != ReceiptKeyText(GlyphIdKey)
  {
    assert |FieldKey(f)| == 7 ==> FieldKey(f)[0] != ReceiptKeyText(GlyphIdKey)[0];
  }

  lemma SameTextSameKeys(xs: seq<Member>, ys: seq<Member>, k: Text)
    requires WellFormedMembers(xs) && WellFormedMembers(ys) && CanonText(Obj(xs)) == CanonText(Obj(ys))
    requires k in KeySet(ys) && k != PROTO
    ensures k in KeySet(xs)
  {
    CanonTextCharacterizes(Obj(xs), Obj(ys));
    ForgetMembersKeys(xs);
    ForgetMembersKeys(ys);
    assert k in ForgetMembers(ys);
  }

  /** A signature made for a card, a manifest or an object of a key registry never passes for one over a receipt of some glyph. */
  lemma OnlyReceiptsPassForReceipts(c: Suite, sk: Text, rest: seq<Member>, s: Signed)
    requires CollisionFree(c) && WellFormedMembers(rest) && RecordWellFormed(c, s)
    requires ReceiptKeyText(GlyphIdKey) in KeySet(rest)
    requires SignedMessage(c, sk, s) == CanonicalHash(c, Obj(rest))
    ensures s.ReceiptHash?
  {
    var key := ReceiptKeyText(GlyphIdKey);
    ReceiptKeysDistinct(GlyphIdKey, GlyphIdKey);
    ForgetMembersKeys(rest);
    match s
    case CardId(card) =>
      CanonicalFieldsDistinct();
      PickedMembersAre(card, CANONICAL_FIELDS);
      CanonTextCharacterizes(Picked(card), Obj(rest));
      RecordKey(card, key);
      var f :| FieldKey(f) == key;
      GlyphIdIsNoCardField(f);
    case OtherHash(m) =>
      SameTextSameKeys(m.members, rest, key);
    case ReceiptHash(_) =>
  }

  /** The execution was one of the pinned card for this call, with this payload up to the order of keys. */
  predicate ServedFor(x: Execution, payload: Value, pinned: Card, callId: Text) {
    x.card.id == pinned.id && Forget(x.output) == Forget(payload) &&
    if Truthy(x.clientCallId) then x.clientCallId == Some(callId) else x.callId == callId
  }

  /**
   Under a key that nobody else can use, every accepted payload is what the server sealed for this
   very call of the pinned card, up to the order of keys.
   */
  lemma AcceptedWasServed(c: Suite, sk: Text, record: iset<Signed>, e: Envelope, pinned: Card, callId: Text)
    requires CollisionFree(c) && Unforgeable(c, sk, record) && forall s | s in record :: RecordWellFormed(c, s)
    requires pinned.publicKey == Some(c.publicKeyOf(sk)) && Accepts(c, e, pinned, callId)
    requires WellFormedMembers(e.receipt.value.rest) && WellFormed(e.payload.value)
    ensures exists x: Execution :: ReceiptHash(x) in record && ServedFor(x, e.payload.value, pinned, callId)
  {
    var rest := e.receipt.value.rest;
    assert c.verify(c.publicKeyOf(sk), CanonicalHash(c, Obj(rest)), e.receipt.value.signature.value);
    var s :| s in record && SignedMessage(c, sk, s) == CanonicalHash(c, Obj(rest));
    LookupFinds(rest, ReceiptKeyText(GlyphIdKey));
    OnlyReceiptsPassForReceipts(c, sk, rest, s);
    var x := s.x;
    AcceptedMatchesExecution(c, sk, e, pinned, callId, x);
  }

  lemma AcceptedMatchesExecution(c: Suite, sk: Text, e: Envelope, pinned: Card, callId: Text, x: Execution)
    requires CollisionFree(c) && Accepts(c, e, pinned, callId) && ExecutionWellFormed(x)
    requires WellFormedMembers(e.receipt.value.rest) && WellFormed(e.payload.value)
    requires CanonicalHash(c, Obj(SignedReceipt(c, x, sk).rest)) == CanonicalHash(c, Obj(e.receipt.value.rest))
    ensures x.card.id == pinned.id && Forget(x.output) == Forget(e.payload.value)
    ensures if Truthy(x.clientCallId) then x.clientCallId == Some(callId) else x.callId == callId
  {
    var r, issued := e.receipt.value, SignedReceipt(c, x, sk);
    SignedReceiptWellFormed(c, x, sk);
    SignedReceiptFields(c, x, sk);
    CanonTextCharacterizes(Obj(issued.rest), Obj(r.rest));
    ForgetLookupText(issued.rest, r.rest, GlyphIdKey, x.card.id);
    ForgetLookupText(issued.rest, r.rest, OutputHash, CanonicalHash(c, x.output));
    CanonicalHashBinds(c, x.output, e.payload.value);
    SameCallId(issued, r, x.clientCallId, x.callId);
  }

  lemma SameCallId(issued: Receipt, r: Receipt, clientCallId: Option<Text>, callId: Text)
    requires WellFormedMembers(issued.rest) && WellFormedMembers(r.rest) && ForgetMembers(issued.rest) == ForgetMembers(r.rest)
    requires ReceiptField(issued, CallId) == TextValue(Some(callId))
    requires ReceiptField(issued, ClientCallId) == if Truthy(clientCallId) then TextValue(clientCallId) else None
    ensures Coalesce(ReceiptField(r, ClientCallId), ReceiptField(r, CallId)) ==
      TextValue(Some(if Truthy(clientCallId) then clientCallId.value else callId))
  {
    ForgetLookupText(issued.rest, r.rest, CallId, callId);
    if Truthy(clientCallId) {
      ForgetLookupText(issued.rest, r.rest, ClientCallId, clientCallId.value);
    } else {
      var key := ReceiptKeyText(ClientCallId);
      LookupFinds(issued.rest, key);
      LookupFinds(r.rest, key);
      ForgetMembersKeys(issued.rest);
      ForgetMembersKeys(r.rest);
      ReceiptKeysDistinct(ClientCallId, ClientCallId);
      assert key in KeySet(r.rest) ==> key in ForgetMembers(r.rest) && key in KeySet(issued.rest);
    }
  }
}
