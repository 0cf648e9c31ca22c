/** Where a verified card comes from, when nobody but its owner can sign with a key. */
module CardProvenance {
  import opened Texts
  import opened Json
  import opened Canonical
  import opened Crypto
  import opened CardFields
  import opened Cards
  import opened Receipts
  import opened Governance
  import opened GovernanceProofs

  /** No other object this key signs has a member `name`: not a manifest, not a key registry, not an entry of one. */
  ghost predicate OthersUnnamed(record: iset<Signed>) {
    forall m :: OtherHash(m) in record ==> m.Obj? && Ascii("name") !in KeySet(m.members)
  }

  lemma CardHasName(card: Card)
    requires CardWellFormed(card)
    ensures var ms := PickedMembers(card, CANONICAL_FIELDS); WellFormedMembers(ms) && Ascii("name") in KeySet(ms)
    ensures ReceiptKeyText(GlyphIdKey) !in KeySet(PickedMembers(card, CANONICAL_FIELDS))
  {
    var ms, key := PickedMembers(card, CANONICAL_FIELDS), ReceiptKeyText(GlyphIdKey);
    CanonicalFieldsDistinct();
    PickedMembersAre(card, CANONICAL_FIELDS);
    NamedIs(card, Name);
    LookupFinds(ms, Ascii("name"));
    if key in KeySet(ms) {
      var f :| f in CANONICAL_FIELDS && FieldKey(f) == key;
      GlyphIdIsNoCardField(f);
    }
  }

  lemma ReceiptHasGlyphId(c: Suite, x: Receipts.Execution, sk: Text)
    requires ExecutionWellFormed(x)
    ensures WellFormedMembers(SignedReceipt(c, x, sk).rest) && ReceiptKeyText(GlyphIdKey) in KeySet(SignedReceipt(c, x, sk).rest)
  {
    SignedReceiptWellFormed(c, x, sk);
    SignedReceiptFields(c, x, sk);
    LookupFinds(SignedReceipt(c, x, sk).rest, ReceiptKeyText(GlyphIdKey));
  }

  /** What was signed, when it is the id of a card that verifies, is the id of a card. */
  lemma OnlyCardsPassForCards(c: Suite, sk: Text, card: Card, s: Signed)
    requires CollisionFree(c) && CardWellFormed(card) && Honest(c, card) && RecordWellFormed(c, s)
    requires s.OtherHash? ==> s.other.Obj? && Ascii("name") !in KeySet(s.other.members)
    requires SignedMessage(c, sk, s) == card.id
    ensures s.CardId?
  {
    var ms := PickedMembers(card, CANONICAL_FIELDS);
    CardHasName(card);
    ReceiptKeysDistinct(GlyphIdKey, GlyphIdKey);
    match s
    case CardId(_) =>
    case OtherHash(m) =>
      FieldKeysDistinct(Name, Name);
      SameTextSameKeys(m.members, ms, Ascii("name"));
    case ReceiptHash(x) =>
      ReceiptHasGlyphId(c, x, sk);
      SameTextSameKeys(ms, SignedReceipt(c, x, sk).rest, ReceiptKeyText(GlyphIdKey));
  }

  /** The same content in every canonical field, under the same id. */
  predicate SameCanonicalCard(a: Card, b: Card) {
    a.id == b.id && a.name == b.name && forall f: Field :: CanonEqual(FieldValue(a, f), FieldValue(b, f))
  }

  /**
   A card that verifies under a key only its owner can use is one that the owner signed: it has the
   id of a card on the record and its content in every canonical field.
   */
  lemma VerifiedCardWasSigned(c: Suite, sk: Text, record: iset<Signed>, card: Card)
    requires CollisionFree(c) && Unforgeable(c, sk, record) && OthersUnnamed(record) && forall s | s in record :: RecordWellFormed(c, s)
    requires CardWellFormed(card) && VerifyGlyph(c, card) && card.publicKey == Some(c.publicKeyOf(sk))
    ensures exists signed: Card :: CardId(signed) in record && SameCanonicalCard(signed, card)
  {
    assert c.verify(c.publicKeyOf(sk), card.id, card.signature.value);
    var s :| s in record && SignedMessage(c, sk, s) == card.id;
    OnlyCardsPassForCards(c, sk, card, s);
    CanonicalRecordDecomposes(s.card, card);
    SameName(s.card, card);
  }

  lemma SameName(a: Card, b: Card)
    requires CanonEqual(FieldValue(a, Name), FieldValue(b, Name))
    ensures a.name == b.name
  {
    CanonTextCharacterizes(Leaf(Str(a.name)), Leaf(Str(b.name)));
  }

  /** So in strict secure mode every pin whose card carries such a key, after any history, is a card its owner signed. */
  lemma PinnedCardWasSigned(cfg: Config, c: Suite, steps: seq<Step>, t: Text, sk: Text, record: iset<Signed>)
    requires cfg.secureMode && !cfg.autoApproveReviewChanges
    requires CollisionFree(c) && Unforgeable(c, sk, record) && OthersUnnamed(record) && forall s | s in record :: RecordWellFormed(c, s)
    requires t in Run(cfg, c, EMPTY, steps).pins
    requires var card := Run(cfg, c, EMPTY, steps).pins[t].card; CardWellFormed(card) && card.publicKey == Some(c.publicKeyOf(sk))
    ensures exists signed: Card ::
      CardId(signed) in record && signed.name == t &&
      SameCanonicalCard(signed, Run(cfg, c, EMPTY, steps).pins[t].card)
  {
    var card := Run(cfg, c, EMPTY, steps).pins[t].card;
    StrictPinsAreVerified(cfg, c, steps, t);
    VerifiedCardWasSigned(c, sk, record, card);
    var signed: Card :| CardId(signed) in record && SameCanonicalCard(signed, card);
    assert signed.name == t;
  }
}
