/** Whom the client's gates let through, and what approval, revocation and audits do, in terms of the cards. */
module ClientGates {
  import opened Texts
  import opened Json
  import opened Crypto
  import opened CardFields
  import opened Cards
  import opened Receipts
  import opened Promotion
  import opened JsMaps
  import opened Governance
  import opened GovernanceProofs

  // ----- The card at hand -----

  /** The cached card, or else the one served now, if it is unsigned or verifies. */
  function AtHand(c: Suite, cache: map<Text, Card>, name: Text, served: Option<Card>): Option<Card> {
    if name in cache then Some(cache[name])
    else if served.Some? && Truthy(served.value.signature) && !VerifyGlyph(c, served.value) then None
    else served
  }

  /** A card is cached exactly when it was served and verifies. */
  function CacheAfter(c: Suite, cache: map<Text, Card>, name: Text, served: Option<Card>): map<Text, Card> {
    if name !in cache && served.Some? && VerifyGlyph(c, served.value) then cache[name := served.value] else cache
  }

  lemma FetchedCard(c: Suite, s: State, name: Text, served: Option<Card>)
    ensures var (s', r) := CachedCard(c, s, name, served);
      s' == s.(cache := CacheAfter(c, s.cache, name, served)) &&
      (r.Ok? <==> AtHand(c, s.cache, name, served).Some?) && (r.Ok? ==> Some(r.value) == AtHand(c, s.cache, name, served))
  {
  }

  /** A fetch, which asks the server even for a cached card. */
  lemma FetchExactly(c: Suite, s: State, name: Text, served: Option<Card>)
    ensures var (s', r) := GetCard(c, s, name, served);
      s'.pins == s.pins && s'.queue == s.queue &&
      s'.cache == (if served.Some? && VerifyGlyph(c, served.value) then s.cache[name := served.value] else s.cache) &&
      (r.Ok? <==> served.Some? && (Truthy(served.value.signature) ==> VerifyGlyph(c, served.value))) &&
      (r.Ok? ==> Some(r.value) == served)
  {
  }

  // ----- The pin gate -----

  predicate SamePinned(pin: Pin, card: Card) {
    pin.card.id == card.id && pin.card.publicKey == card.publicKey
  }

  /** The client accepts changes that keep the contract, and this is one. */
  predicate ReviewOnly(cfg: Config, pin: Pin, card: Card) {
    (!cfg.secureMode || cfg.autoApproveReviewChanges) && SameContract(pin.card, card)
  }

  predicate PassesPins(cfg: Config, c: Suite, pins: map<Text, Pin>, name: Text, card: Card) {
    card.name == name &&
    if name in pins then
      !pins[name].revoked && (SamePinned(pins[name], card) || ReviewOnly(cfg, pins[name], card) || cfg.resilientUpdates)
    else cfg.tofu && VerifyGlyph(c, card)
  }

  /** The pins after the gate: a new card that passes is pinned, and so is a review-only change of a pinned one. */
  function PinsAfter(cfg: Config, c: Suite, pins: map<Text, Pin>, name: Text, card: Card): map<Text, Pin> {
    if !PassesPins(cfg, c, pins, name, card) || (name in pins && (SamePinned(pins[name], card) || !ReviewOnly(cfg, pins[name], card)))
    then pins
    else pins[name := Pin(name, card, false)]
  }

  /** The queue after the gate: any other change of a pinned card that passes is parked. */
  function QueueAfter(cfg: Config, c: Suite, s: State, name: Text, card: Card): JsMap<Text, Entry> {
    if PassesPins(cfg, c, s.pins, name, card) && name in s.pins && !SamePinned(s.pins[name], card) && !ReviewOnly(cfg, s.pins[name], card)
    then Put(s.queue, name, Entry(name, card, Diff(s.pins[name].card, card)))
    else s.queue
  }

  lemma ReviewOnlyIs(cfg: Config, pin: Pin, card: Card)
    ensures ReviewOnly(cfg, pin, card) <==> (!cfg.secureMode || cfg.autoApproveReviewChanges) && !Diff(pin.card, card).requiresApproval
  {
    ApprovalRequiredByName(pin.card, card);
  }

  lemma NewCardAtGate(cfg: Config, c: Suite, s: State, name: Text, card: Card)
    requires name !in s.pins || card.name != name
    ensures var (s', error) := Approve(cfg, c, s, name, card);
      var passes := card.name == name && cfg.tofu && VerifyGlyph(c, card);
      (error.None? <==> passes) && s' == if passes then s.(pins := s.pins[name := Pin(name, card, false)]) else s
  {
  }

  lemma KnownCardAtGate(cfg: Config, c: Suite, s: State, name: Text, card: Card)
    requires Shape(c, s) && name in s.pins && card.name == name
    ensures var (s', error) := Approve(cfg, c, s, name, card);
      var pin, same, review := s.pins[name], SamePinned(s.pins[name], card), ReviewOnly(cfg, s.pins[name], card);
      (error.None? <==> !pin.revoked && (same || review || cfg.resilientUpdates)) &&
      s' == if error.Some? || same then s
        else if review then s.(pins := s.pins[name := Pin(name, card, false)])
        else s.(queue := Put(s.queue, name, Entry(name, card, Diff(pin.card, card))))
  {
    ReviewOnlyIs(cfg, s.pins[name], card);
  }

  lemma PinGateExactly(cfg: Config, c: Suite, s: State, name: Text, card: Card)
    requires Shape(c, s)
    ensures var (s', error) := Approve(cfg, c, s, name, card);
      (error.None? <==> PassesPins(cfg, c, s.pins, name, card)) && s'.cache == s.cache &&
      s'.pins == PinsAfter(cfg, c, s.pins, name, card) && s'.queue == QueueAfter(cfg, c, s, name, card)
  {
    if name in s.pins && card.name == name {
      KnownCardAtGate(cfg, c, s, name, card);
    } else {
      NewCardAtGate(cfg, c, s, name, card);
    }
  }

  // ----- The trust gate and the attestation gate -----

  /** The registry knows the provider and lists the card's key; or it does not know it, and that is allowed. */
  predicate Trusted(cfg: Config, env: CallEnv, card: Card) {
    match env.trustedKeys(FieldNamed(card, "provider"))
    case None => cfg.trustAllowUnknown
    case Some(keys) => exists k :: k in keys && k != [] && card.publicKey == Some(k)
  }

  /** The rule asks for no attestation of this card, or it carries one that a verifier trusts. */
  predicate Attested(cfg: Config, env: CallEnv, card: Card) {
    (cfg.requireAttestation.DangerOnly? && !IsTier(CostNamed(card, "riskTier"), "danger")) ||
    (FieldNamed(card, "attestation").Some? && IsTruthy(FieldNamed(card, "attestation").value) && env.attested(card))
  }

  lemma TrustExactly(cfg: Config, c: Suite, s: State, name: Text, env: CallEnv)
    requires cfg.trustEnabled
    ensures var (s', error) := EnforceTrust(cfg, c, s, name, env);
      var card := AtHand(c, s.cache, name, env.servedToTrust);
      s' == s.(cache := CacheAfter(c, s.cache, name, env.servedToTrust)) &&
      (error.None? <==> card.Some? && Trusted(cfg, env, card.value))
  {
    FetchedCard(c, s, name, env.servedToTrust);
    var card := AtHand(c, s.cache, name, env.servedToTrust);
    if card.Some? { RecordNames(card.value); }
  }

  lemma AttestedIs(cfg: Config, env: CallEnv, card: Card)
    ensures Attested(cfg, env, card) <==>
      (cfg.requireAttestation.DangerOnly? && CostValue(card, RiskTier) != Some(Leaf(Str(Ascii("danger"))))) ||
      (!Falsy(FieldValue(card, Attestation)) && env.attested(card))
  {
    RecordNames(card);
    CostNames(card);
    TruthyIs(FieldValue(card, Attestation));
  }

  lemma AttestationExactly(cfg: Config, c: Suite, s: State, name: Text, env: CallEnv)
    requires !cfg.requireAttestation.NeverRequired?
    ensures var (s', error) := EnsureAttested(cfg, c, s, name, env);
      var card := AtHand(c, s.cache, name, env.servedToAttest);
      s' == s.(cache := CacheAfter(c, s.cache, name, env.servedToAttest)) &&
      (error.None? <==> card.Some? && card.value.name == name && Attested(cfg, env, card.value))
  {
    FetchedCard(c, s, name, env.servedToAttest);
    var (s1, fetched) := CachedCard(c, s, name, env.servedToAttest);
    if fetched.Ok? { AttestedIs(cfg, env, fetched.value); }
  }

  // ----- A call -----

  /** The caches before the trust gate and before the attestation gate. */
  function CacheAtTrust(c: Suite, s: State, name: Text, env: CallEnv): map<Text, Card> {
    CacheAfter(c, s.cache, name, env.served)
  }

  function CacheAtAttestation(cfg: Config, c: Suite, s: State, name: Text, env: CallEnv): map<Text, Card> {
    var cache := CacheAtTrust(c, s, name, env);
    if cfg.trustEnabled then CacheAfter(c, cache, name, env.servedToTrust) else cache
  }

  predicate ThroughPins(cfg: Config, c: Suite, s: State, name: Text, env: CallEnv) {
    var card := AtHand(c, s.cache, name, env.served);
    card.Some? && PassesPins(cfg, c, s.pins, name, card.value)
  }

  predicate ThroughTrust(cfg: Config, c: Suite, s: State, name: Text, env: CallEnv) {
    var card := AtHand(c, CacheAtTrust(c, s, name, env), name, env.servedToTrust);
    cfg.trustEnabled ==> card.Some? && Trusted(cfg, env, card.value)
  }

  predicate ThroughAttestation(cfg: Config, c: Suite, s: State, name: Text, env: CallEnv) {
    var card := AtHand(c, CacheAtAttestation(cfg, c, s, name, env), name, env.servedToAttest);
    !cfg.requireAttestation.NeverRequired? ==> card.Some? && card.value.name == name && Attested(cfg, env, card.value)
  }

  lemma ApprovedExactly(cfg: Config, c: Suite, s: State, name: Text, env: CallEnv)
    requires Shape(c, s)
    ensures var (s', error) := EnsureApproved(cfg, c, s, name, env.served);
      var card := AtHand(c, s.cache, name, env.served);
      s'.cache == CacheAtTrust(c, s, name, env) && (error.None? <==> ThroughPins(cfg, c, s, name, env)) &&
      s'.pins == (if card.Some? then PinsAfter(cfg, c, s.pins, name, card.value) else s.pins) &&
      s'.queue == (if card.Some? then QueueAfter(cfg, c, s, name, card.value) else s.queue)
  {
    FetchedCard(c, s, name, env.served);
    var (s0, fetched) := CachedCard(c, s, name, env.served);
    GetCardKeepsCache(c, s, name, env.served);
    if fetched.Ok? {
      PinGateExactly(cfg, c, s0, name, fetched.value);
    }
  }

  lemma ThroughTrustExactly(cfg: Config, c: Suite, s: State, name: Text, env: CallEnv, s1: State)
    requires s1.cache == CacheAtTrust(c, s, name, env)
    ensures var (s2, error) := EnforceTrust(cfg, c, s1, name, env);
      (error.None? <==> ThroughTrust(cfg, c, s, name, env)) && s2.cache == CacheAtAttestation(cfg, c, s, name, env)
  {
    if cfg.trustEnabled { TrustExactly(cfg, c, s1, name, env); }
  }

  lemma ThroughAttestationExactly(cfg: Config, c: Suite, s: State, name: Text, env: CallEnv, s2: State)
    requires s2.cache == CacheAtAttestation(cfg, c, s, name, env)
    ensures EnsureAttested(cfg, c, s2, name, env).1.None? <==> ThroughAttestation(cfg, c, s, name, env)
  {
    if !cfg.requireAttestation.NeverRequired? { AttestationExactly(cfg, c, s2, name, env); }
  }

  lemma CallPassesGates(cfg: Config, c: Suite, s: State, name: Text, env: CallEnv)
    ensures var (s1, e1) := EnsureApproved(cfg, c, s, name, env.served);
      var (s2, e2) := EnforceTrust(cfg, c, s1, name, env);
      Call(cfg, c, s, name, env).1.Posted? <==> e1.None? && e2.None? && EnsureAttested(cfg, c, s2, name, env).1.None?
  {
  }

  /** A call reaches the server exactly when all three gates let it through. */
  lemma CallPostedExactly(cfg: Config, c: Suite, s: State, name: Text, env: CallEnv)
    requires Shape(c, s)
    ensures Call(cfg, c, s, name, env).1.Posted? <==>
      ThroughPins(cfg, c, s, name, env) && ThroughTrust(cfg, c, s, name, env) && ThroughAttestation(cfg, c, s, name, env)
  {
    ApprovedExactly(cfg, c, s, name, env);
    var s1 := EnsureApproved(cfg, c, s, name, env.served).0;
    ThroughTrustExactly(cfg, c, s, name, env, s1);
    ThroughAttestationExactly(cfg, c, s, name, env, EnforceTrust(cfg, c, s1, name, env).0);
    CallPassesGates(cfg, c, s, name, env);
  }

  /** Why the pin gate refuses a card at hand: its tool is revoked, it waits for a human, or it is not what it says. */
  function PinRefusal(cfg: Config, pins: map<Text, Pin>, name: Text, card: Card): Error {
    if card.name != name then VerificationFailed
    else if name in pins then (if pins[name].revoked then ToolRevoked else NotApproved)
    else if cfg.tofu then VerificationFailed else NotApproved
  }

  /** Why there is no card at hand. */
  function FetchRefusal(served: Option<Card>): Error {
    if served.None? then FetchFailed else VerificationFailed
  }

  lemma PinRefusalExactly(cfg: Config, c: Suite, s: State, name: Text, card: Card)
    requires Shape(c, s) && !PassesPins(cfg, c, s.pins, name, card)
    ensures Approve(cfg, c, s, name, card).1 == Some(PinRefusal(cfg, s.pins, name, card))
  {
    PinGateExactly(cfg, c, s, name, card);
    if name in s.pins { ReviewOnlyIs(cfg, s.pins[name], card); }
  }

  lemma ApprovalRefusal(cfg: Config, c: Suite, s: State, name: Text, env: CallEnv)
    requires Shape(c, s) && !ThroughPins(cfg, c, s, name, env)
    ensures var card := AtHand(c, s.cache, name, env.served);
      EnsureApproved(cfg, c, s, name, env.served).1 ==
        Some(if card.Some? then PinRefusal(cfg, s.pins, name, card.value) else FetchRefusal(env.served))
  {
    FetchedCard(c, s, name, env.served);
    GetCardKeepsCache(c, s, name, env.served);
    var (s0, fetched) := CachedCard(c, s, name, env.served);
    if fetched.Ok? { PinRefusalExactly(cfg, c, s0, name, fetched.value); }
  }

  /** The error a blocked call ends with is that of the first gate that refuses. */
  lemma BlockedBecause(cfg: Config, c: Suite, s: State, name: Text, env: CallEnv)
    requires Shape(c, s)
    ensures !ThroughPins(cfg, c, s, name, env) ==>
      var card := AtHand(c, s.cache, name, env.served);
      Call(cfg, c, s, name, env).1 ==
        Blocked(if card.Some? then PinRefusal(cfg, s.pins, name, card.value) else FetchRefusal(env.served))
    ensures ThroughPins(cfg, c, s, name, env) && !ThroughTrust(cfg, c, s, name, env) ==>
      var card := AtHand(c, CacheAtTrust(c, s, name, env), name, env.servedToTrust);
      Call(cfg, c, s, name, env).1 == Blocked(if card.Some? then TrustFailed else FetchRefusal(env.servedToTrust))
    ensures ThroughPins(cfg, c, s, name, env) && ThroughTrust(cfg, c, s, name, env) && !ThroughAttestation(cfg, c, s, name, env) ==>
      var card := AtHand(c, CacheAtAttestation(cfg, c, s, name, env), name, env.servedToAttest);
      Call(cfg, c, s, name, env).1 == Blocked(
        if card.None? then FetchRefusal(env.servedToAttest)
        else if card.value.name != name then VerificationFailed else AttestationFailed)
  {
    ApprovedExactly(cfg, c, s, name, env);
    if !ThroughPins(cfg, c, s, name, env) { ApprovalRefusal(cfg, c, s, name, env); }
    var s1 := EnsureApproved(cfg, c, s, name, env.served).0;
    var s2 := EnforceTrust(cfg, c, s1, name, env).0;
    ThroughTrustExactly(cfg, c, s, name, env, s1);
    ThroughAttestationExactly(cfg, c, s, name, env, s2);
    TrustRefusal(cfg, c, s1, name, env);
    AttestationRefusal(cfg, c, s2, name, env);
    CallEndsAt(cfg, c, s, name, env);
  }

  lemma TrustRefusal(cfg: Config, c: Suite, s: State, name: Text, env: CallEnv)
    ensures var error := EnforceTrust(cfg, c, s, name, env).1;
      error.None? || error.value == (
        if AtHand(c, s.cache, name, env.servedToTrust).Some? then TrustFailed else FetchRefusal(env.servedToTrust))
  {
    FetchedCard(c, s, name, env.servedToTrust);
  }

  lemma AttestationRefusal(cfg: Config, c: Suite, s: State, name: Text, env: CallEnv)
    ensures var error, card := EnsureAttested(cfg, c, s, name, env).1, AtHand(c, s.cache, name, env.servedToAttest);
      error.None? || error.value == (
        if card.None? then FetchRefusal(env.servedToAttest)
        else if card.value.name != name then VerificationFailed else AttestationFailed)
  {
    FetchedCard(c, s, name, env.servedToAttest);
  }

  lemma CallEndsAt(cfg: Config, c: Suite, s: State, name: Text, env: CallEnv)
    ensures var (s1, e1) := EnsureApproved(cfg, c, s, name, env.served);
      var (s2, e2) := EnforceTrust(cfg, c, s1, name, env);
      var e3 := EnsureAttested(cfg, c, s2, name, env).1;
      var outcome := Call(cfg, c, s, name, env).1;
      (e1.Some? ==> outcome == Blocked(e1.value)) && (e1.None? && e2.Some? ==> outcome == Blocked(e2.value)) &&
      (e1.None? && e2.None? && e3.Some? ==> outcome == Blocked(e3.value))
  {
  }

  /** Posted or not, it leaves the pins and the queue as the pin gate left them. */
  lemma CallLeavesExactly(cfg: Config, c: Suite, s: State, name: Text, env: CallEnv)
    requires Shape(c, s)
    ensures var s' := Call(cfg, c, s, name, env).0;
      var card := AtHand(c, s.cache, name, env.served);
      s'.pins == (if card.Some? then PinsAfter(cfg, c, s.pins, name, card.value) else s.pins) &&
      s'.queue == (if card.Some? then QueueAfter(cfg, c, s, name, card.value) else s.queue)
  {
    ApprovedExactly(cfg, c, s, name, env);
    CallPins(cfg, c, s, name, env);
  }

  /** A posted call returns the server's response exactly when receipts are not verified or this one is accepted for the pin. */
  lemma ReturnedExactly(cfg: Config, c: Suite, s: State, name: Text, env: CallEnv, e: Envelope)
    requires Shape(c, s) && Call(cfg, c, s, name, env).1.Posted?
    ensures var (s', outcome) := Call(cfg, c, s, name, env);
      outcome.result == Ok(e) <==>
      env.response == Some(e) &&
      (cfg.secureMode && cfg.verifyReceipts ==> name in s'.pins && Accepts(c, e, s'.pins[name].card, env.callId))
  {
  }

  // ----- Approval and revocation -----

  /** An approval pins the card exactly when it verifies and its tool is not revoked, or is to be reinstated. */
  lemma ApproveExactly(c: Suite, s: State, card: Card, reinstate: bool)
    ensures var (s', error) := ApproveCard(c, s, card, reinstate);
      (error.None? <==> VerifyGlyph(c, card) && (card.name in s.pins && s.pins[card.name].revoked ==> reinstate)) &&
      s' == if error.None? then s.(pins := s.pins[card.name := Pin(card.name, card, false)]) else s
  {
  }

  /** A revocation marks the pin of its tool, which keeps its card, and changes nothing else. */
  lemma RevokeExactly(c: Suite, s: State, t: Text)
    requires Shape(c, s)
    ensures var (s', error) := RevokeTool(s, t);
      (error.None? <==> t in s.pins) &&
      s' == if t in s.pins then s.(pins := s.pins[t := Pin(t, s.pins[t].card, true)]) else s
  {
    if t in s.pins && s.pins[t].revoked {
      assert s.pins[t] == Pin(t, s.pins[t].card, true);
      assert s.pins == s.pins[t := Pin(t, s.pins[t].card, true)];
    }
  }

  lemma {:induction false} RunConcat(cfg: Config, c: Suite, s: State, a: seq<Step>, b: seq<Step>)
    ensures Run(cfg, c, s, a + b) == Run(cfg, c, Run(cfg, c, s, a), b)
    decreases |a|
  {
    if a == [] {
      assert a + b == b;
    } else {
      assert (a + b)[1..] == a[1..] + b;
      RunConcat(cfg, c, Next(cfg, c, s, a[0]), a[1..], b);
    }
  }

  /**
   After any history of an empty client that pins a tool, revoking it blocks every later call of it,
   until a human reinstates it.
   */
  lemma RevocationBlocks(cfg: Config, c: Suite, before: seq<Step>, after: seq<Step>, t: Text, env: CallEnv)
    requires t in Run(cfg, c, EMPTY, before).pins
    requires forall i :: 0 <= i < |after| && after[i].HumanApproves? && after[i].card.name == t ==> !after[i].reinstate
    ensures Call(cfg, c, Run(cfg, c, EMPTY, before + [HumanRevokes(t)] + after), t, env).1.Blocked?
    ensures var s := Run(cfg, c, EMPTY, before);
      var s' := Run(cfg, c, EMPTY, before + [HumanRevokes(t)] + after);
      t in s'.pins && s'.pins[t] == Pin(t, s.pins[t].card, true)
  {
    var s := Run(cfg, c, EMPTY, before);
    var revoke := [HumanRevokes(t)];
    RunKeepsShape(cfg, c, EMPTY, before);
    RevokeExactly(c, s, t);
    RunConcat(cfg, c, EMPTY, before, revoke);
    RunConcat(cfg, c, EMPTY, before + revoke, after);
    assert revoke[1..] == [] && Run(cfg, c, s, revoke) == Next(cfg, c, s, revoke[0]);
    RevokedFromTheStart(cfg, c, before + revoke, after, t);
    RevokedIsNeverPosted(cfg, c, before + revoke + after, t, env);
  }

  // ----- Audits -----

  /** A manifest that verifies under the pinned key and describes the step from the pin to the new card. */
  predicate DescribesUpdate(c: Suite, m: Receipt, tool: Text, pin: Option<Pin>, newId: Text) {
    Lookup(m.rest, Ascii("toolName")) == Some(Leaf(Str(tool))) &&
    Lookup(m.rest, Ascii("newCardId")) == Some(Leaf(Str(newId))) &&
    SelfSigned(c, m) &&
    (pin.Some? ==>
      Lookup(m.rest, Ascii("previousCardId")) == Some(Leaf(Str(pin.value.card.id))) &&
      pin.value.card.publicKey.Some? &&
      Lookup(m.rest, Ascii("serverPublicKey")) == Some(Leaf(Str(pin.value.card.publicKey.value))))
  }

  /** Its signature over all its other members verifies under the key it names. */
  predicate SelfSigned(c: Suite, m: Receipt) {
    match Lookup(m.rest, Ascii("serverPublicKey"))
    case Some(Leaf(Str(key))) =>
      key != [] && m.signature.Some? && m.signature.value != [] && c.verify(key, CanonicalHash(c, Obj(m.rest)), m.signature.value)
    case _ => false
  }

  function PinOf(s: State, t: Text): Option<Pin> {
    if t in s.pins then Some(s.pins[t]) else None
  }

  /** The verdict on the manifest: none if none is served, and valid exactly if it describes this update. */
  lemma ManifestJudgedExactly(c: Suite, s: State, e: Entry, env: AuditEnv)
    ensures var reply, verdict := env.manifests(e.toolName), AuditEntry(c, s, e, env).manifest;
      (verdict == Absent <==> reply.NoManifest?) &&
      (verdict == Valid <==> reply.Served? && DescribesUpdate(c, reply.manifest, e.toolName, PinOf(s, e.toolName), e.newCard.id))
  {
    var reply := env.manifests(e.toolName);
    if reply.Served? {
      assert ReceiptField(reply.manifest, ServerPublicKey) == Lookup(reply.manifest.rest, Ascii("serverPublicKey"));
    }
  }

  /** The rest of the report. */
  lemma ReportExactly(c: Suite, s: State, e: Entry, env: AuditEnv)
    ensures var r, attestation := AuditEntry(c, s, e, env), FieldNamed(e.newCard, "attestation");
      r.toolName == e.toolName && r.newCardId == e.newCard.id && r.diff == e.diff &&
      (r.signatureValid <==> VerifyGlyph(c, e.newCard)) &&
      (r.attestation == Absent <==> attestation.None? || !IsTruthy(attestation.value)) &&
      (r.attestation == Valid <==> attestation.Some? && IsTruthy(attestation.value) && env.attested(e.newCard)) &&
      (r.ok <==> r.signatureValid && r.manifest != Invalid && r.attestation != Invalid)
  {
    RecordNames(e.newCard);
    TruthyIs(FieldValue(e.newCard, Attestation));
  }

  /** A policy promotes a passed audit exactly when each thing it withholds is absent. */
  lemma PromotesExactly(r: AuditReport, policy: Policy)
    ensures Promotes(r, policy) <==>
      r.signatureValid && r.ok && (policy.requireManifest ==> r.manifest == Valid) &&
      (policy.requireAttestation ==> r.attestation == Valid) && (r.diff.requiresApproval ==> policy.allowBreaking) &&
      (r.diff.keyChanged ==> policy.allowKeyChange) && (Escalates(r.diff) ==> policy.allowRiskEscalation)
  {
  }

  /** The reasons in the order of the checks. */
  const CHECKS: seq<Reason> :=
    [SignatureInvalid, AuditFailed, NeedsManifest, NeedsAttestation, BreakingNotAllowed, KeyChangeNotAllowed, EscalationNotAllowed]

  /** A reason is given exactly when its check fails. */
  predicate Fails(r: AuditReport, policy: Policy, reason: Reason) {
    match reason
    case SignatureInvalid => !r.signatureValid
    case AuditFailed => !r.ok
    case NeedsManifest => policy.requireManifest && r.manifest != Valid
    case NeedsAttestation => policy.requireAttestation && r.attestation != Valid
    case BreakingNotAllowed => r.diff.requiresApproval && !policy.allowBreaking
    case KeyChangeNotAllowed => r.diff.keyChanged && !policy.allowKeyChange
    case EscalationNotAllowed => Escalates(r.diff) && !policy.allowRiskEscalation
  }

  /** The reasons that the first `n` checks give. */
  function Failing(r: AuditReport, policy: Policy, n: nat): seq<Reason>
    requires n <= |CHECKS|
  {
    if n == 0 then [] else Failing(r, policy, n - 1) + if Fails(r, policy, CHECKS[n - 1]) then [CHECKS[n - 1]] else []
  }

  /** A decision gives the reasons of the checks that fail, once each and in this order. */
  lemma ReasonsExactly(r: AuditReport, policy: Policy)
    ensures Reasons(r, policy) == Failing(r, policy, 7)
  {
    var n4 := Failing(r, policy, 4);
    FourReasons(r, policy);
    assert Failing(r, policy, 5) == Unless(n4, !Fails(r, policy, BreakingNotAllowed), BreakingNotAllowed);
    assert Failing(r, policy, 6) == Unless(Failing(r, policy, 5), !Fails(r, policy, KeyChangeNotAllowed), KeyChangeNotAllowed);
  }

  lemma FourReasons(r: AuditReport, policy: Policy)
    ensures var r1 := Unless([], r.signatureValid, SignatureInvalid);
      var r2 := Unless(r1, r.ok, AuditFailed);
      var r3 := Unless(r2, policy.requireManifest ==> r.manifest == Valid, NeedsManifest);
      Failing(r, policy, 4) == Unless(r3, policy.requireAttestation ==> r.attestation == Valid, NeedsAttestation)
  {
    assert Failing(r, policy, 1) == Unless([], r.signatureValid, SignatureInvalid);
    assert Failing(r, policy, 2) == Unless(Failing(r, policy, 1), r.ok, AuditFailed);
  }

  /** Of a diff from `a` to `b`: what the policy withholds, by name. */
  lemma PromotesByName(r: AuditReport, policy: Policy, a: Card, b: Card)
    requires r.diff == Diff(a, b)
    ensures Promotes(r, policy) <==>
      r.signatureValid && r.ok && (policy.requireManifest ==> r.manifest == Valid) &&
      (policy.requireAttestation ==> r.attestation == Valid) && (!policy.allowBreaking ==> SameContract(a, b)) &&
      (!policy.allowKeyChange ==> a.publicKey == b.publicKey) &&
      (!policy.allowRiskEscalation ==> RiskRank(CostNamed(b, "riskTier")) <= RiskRank(CostNamed(a, "riskTier")))
  {
    PromotesExactly(r, policy);
    ApprovalRequiredByName(a, b);
    EscalationSeen(a, b);
    CostNames(a);
    CostNames(b);
  }

  /** The parked update is promoted by an audit. */
  predicate IsPromoted(cfg: Config, c: Suite, s: State, e: Entry, env: AuditEnv) {
    cfg.resilientUpdates && cfg.policy.Some? && !(e.toolName in s.pins && s.pins[e.toolName].revoked) &&
    PassesPolicy(cfg.policy.value, c, e, PinOf(s, e.toolName), env)
  }

  predicate PassesPolicy(policy: Policy, c: Suite, e: Entry, pin: Option<Pin>, env: AuditEnv) {
    var reply, attestation := env.manifests(e.toolName), FieldNamed(e.newCard, "attestation");
    VerifyGlyph(c, e.newCard) &&
    (if reply.NoManifest? then !policy.requireManifest
     else reply.Served? && DescribesUpdate(c, reply.manifest, e.toolName, pin, e.newCard.id)) &&
    (if attestation.None? || !IsTruthy(attestation.value) then !policy.requireAttestation else env.attested(e.newCard)) &&
    (e.diff.requiresApproval ==> policy.allowBreaking) && (e.diff.keyChanged ==> policy.allowKeyChange) &&
    (Escalates(e.diff) ==> policy.allowRiskEscalation)
  }

  lemma AuditPassesExactly(policy: Policy, c: Suite, s: State, e: Entry, env: AuditEnv)
    ensures Promotes(AuditEntry(c, s, e, env), policy) <==> PassesPolicy(policy, c, e, PinOf(s, e.toolName), env)
  {
    var r := AuditEntry(c, s, e, env);
    PromotesExactly(r, policy);
    ManifestJudgedExactly(c, s, e, env);
    ReportExactly(c, s, e, env);
  }

  // ----- All decisions of one pass -----

  /** The reports name different tools. */
  predicate OnePerTool(reports: seq<AuditReport>) {
    forall i, j :: 0 <= i < j < |reports| ==> reports[i].toolName != reports[j].toolName
  }

  lemma DecideElsewhere(cfg: Config, s: State, r: AuditReport, t: Text)
    requires Keyed(s.queue) && r.toolName != t
    ensures var s' := Decide(cfg, s, r).0;
      s'.cache == s.cache && PinOf(s', t) == PinOf(s, t) && Get(s'.queue, t) == Get(s.queue, t) && Keyed(s'.queue)
  {
    DequeueIs(s.queue, r.toolName);
    var s' := Decide(cfg, s, r).0;
    ParkedFinds(s.queue, t);
    ParkedFinds(s'.queue, t);
    if Get(s.queue, t).Some? {
      var e := Get(s.queue, t).value;
      assert Holds(s'.queue, e);
      SameToolSameEntry(s'.queue, Get(s'.queue, t).value, e);
    }
  }

  lemma {:induction false} DecisionsElsewhere(cfg: Config, s: State, reports: seq<AuditReport>, t: Text)
    requires Keyed(s.queue) && forall r | r in reports :: r.toolName != t
    ensures var s' := DecideAll(cfg, s, reports).0;
      s'.cache == s.cache && PinOf(s', t) == PinOf(s, t) && Get(s'.queue, t) == Get(s.queue, t)
    decreases |reports|
  {
    if reports != [] {
      assert reports == [reports[0]] + reports[1..];
      DecideElsewhere(cfg, s, reports[0], t);
      DecisionsElsewhere(cfg, Decide(cfg, s, reports[0]).0, reports[1..], t);
    }
  }

  /** Every decision is taken on the state at the start of the pass, as far as its own tool goes. */
  lemma {:induction false} DecidedAt(cfg: Config, s: State, reports: seq<AuditReport>, i: nat, t: Text)
    requires Keyed(s.queue) && OnePerTool(reports) && i < |reports| && reports[i].toolName == t
    ensures var s', one := DecideAll(cfg, s, reports).0, Decide(cfg, s, reports[i]).0;
      s'.cache == s.cache && PinOf(s', t) == PinOf(one, t) && Get(s'.queue, t) == Get(one.queue, t)
    decreases |reports|
  {
    var s1 := Decide(cfg, s, reports[0]).0;
    DequeueIs(s.queue, reports[0].toolName);
    if i == 0 {
      forall r | r in reports[1..] ensures r.toolName != t {
        var j :| 0 <= j < |reports| - 1 && reports[1..][j] == r;
        assert reports[j + 1] == r;
      }
      DecisionsElsewhere(cfg, s1, reports[1..], t);
    } else {
      DecideElsewhere(cfg, s, reports[0], t);
      DecidedAt(cfg, s1, reports[1..], i - 1, t);
      SameDecision(cfg, s, s1, reports[i]);
    }
  }

  lemma SameDecision(cfg: Config, s: State, s1: State, r: AuditReport)
    requires Keyed(s.queue) && Keyed(s1.queue)
    requires PinOf(s1, r.toolName) == PinOf(s, r.toolName) && Get(s1.queue, r.toolName) == Get(s.queue, r.toolName)
    ensures var a, b := Decide(cfg, s, r).0, Decide(cfg, s1, r).0;
      PinOf(a, r.toolName) == PinOf(b, r.toolName) && Get(a.queue, r.toolName) == Get(b.queue, r.toolName)
  {
    DecisionAt(cfg, s, r);
    DecisionAt(cfg, s1, r);
  }

  /** What one decision does to its own tool. */
  lemma DecisionAt(cfg: Config, s: State, r: AuditReport)
    requires Keyed(s.queue)
    ensures var s', parked := Decide(cfg, s, r).0, Get(s.queue, r.toolName);
      if cfg.policy.Some? && Promotes(r, cfg.policy.value) && parked.Some? && parked.value.newCard.id == r.newCardId &&
         !(r.toolName in s.pins && s.pins[r.toolName].revoked)
      then PinOf(s', r.toolName) == Some(Pin(r.toolName, parked.value.newCard, false)) && Get(s'.queue, r.toolName) == None
      else s' == s
  {
    DeleteIs(s.queue, r.toolName);
    GetIs(Delete(s.queue, r.toolName), r.toolName);
  }

  lemma {:induction false} ReportsOf(c: Suite, s: State, entries: JsMap<Text, Entry>, env: AuditEnv)
    ensures var reports := AuditAll(c, s, entries, env);
      |reports| == |entries| && forall i | 0 <= i < |entries| :: reports[i] == AuditEntry(c, s, entries[i].value, env)
  {
    if entries != [] {
      ReportsOf(c, s, entries[1..], env);
    }
  }

  lemma QueueOnePerTool(c: Suite, s: State, env: AuditEnv)
    requires Keyed(s.queue)
    ensures OnePerTool(AuditAll(c, s, s.queue, env))
  {
    var reports := AuditAll(c, s, s.queue, env);
    ReportsOf(c, s, s.queue, env);
    forall i, j | 0 <= i < j < |reports| ensures reports[i].toolName != reports[j].toolName {
      assert s.queue[i] in s.queue && s.queue[j] in s.queue && s.queue[i].key != s.queue[j].key;
    }
  }

  /**
   What a pass over all parked updates does to each tool: its parked update becomes its pin and is no
   longer parked exactly when it is promoted, judged by the state before the pass; all else stays.
   */
  lemma ProcessAuditsExactly(cfg: Config, c: Suite, s: State, env: AuditEnv, t: Text)
    requires Shape(c, s)
    ensures var s', parked := ProcessAudits(cfg, c, s, env).0, Get(s.queue, t);
      s'.cache == s.cache &&
      if parked.Some? && IsPromoted(cfg, c, s, parked.value, env)
      then PinOf(s', t) == Some(Pin(t, parked.value.newCard, false)) && Get(s'.queue, t) == None
      else PinOf(s', t) == PinOf(s, t) && Get(s'.queue, t) == parked
  {
    var reports := AuditAll(c, s, s.queue, env);
    ReportsOf(c, s, s.queue, env);
    ParkedFinds(s.queue, t);
    if cfg.resilientUpdates {
      if Get(s.queue, t).Some? {
        var e := Get(s.queue, t).value;
        var i :| 0 <= i < |s.queue| && s.queue[i] == Item(t, e);
        QueueOnePerTool(c, s, env);
        DecidedAt(cfg, s, reports, i, t);
        DecisionAt(cfg, s, reports[i]);
        if cfg.policy.Some? { AuditPassesExactly(cfg.policy.value, c, s, e, env); }
      } else {
        NoReport(c, s, env, t);
        DecisionsElsewhere(cfg, s, reports, t);
      }
    }
  }

  lemma {:induction false} AnsweredAt(cfg: Config, s: State, reports: seq<AuditReport>, i: nat)
    requires Keyed(s.queue) && OnePerTool(reports) && i < |reports|
    ensures |DecideAll(cfg, s, reports).1| == |reports| && DecideAll(cfg, s, reports).1[i] == Decide(cfg, s, reports[i]).1
    decreases |reports|
  {
    var s1, rest := Decide(cfg, s, reports[0]).0, reports[1..];
    DequeueIs(s.queue, reports[0].toolName);
    if i > 0 {
      DecideElsewhere(cfg, s, reports[0], reports[i].toolName);
      AnsweredAt(cfg, s1, rest, i - 1);
      SameAnswer(cfg, s, s1, reports[i]);
    } else if rest != [] {
      AnsweredAt(cfg, s1, rest, 0);
    }
  }

  lemma SameAnswer(cfg: Config, s: State, s1: State, r: AuditReport)
    requires PinOf(s1, r.toolName) == PinOf(s, r.toolName) && Get(s1.queue, r.toolName) == Get(s.queue, r.toolName)
    ensures Decide(cfg, s1, r).1 == Decide(cfg, s, r).1
  {
  }

  lemma PromotedAt(cfg: Config, c: Suite, s: State, i: nat, env: AuditEnv)
    requires Shape(c, s) && cfg.resilientUpdates && i < |s.queue|
    ensures Decide(cfg, s, AuditEntry(c, s, s.queue[i].value, env)).1 <==> IsPromoted(cfg, c, s, s.queue[i].value, env)
  {
    var x := s.queue[i];
    assert x in s.queue;
    GetIs(s.queue, x.key);
    assert Get(s.queue, x.key) == Some(x.value);
    if cfg.policy.Some? { AuditPassesExactly(cfg.policy.value, c, s, x.value, env); }
  }

  /** The pass answers for the parked updates in their order, each time whether it was promoted. */
  lemma DecisionsExactly(cfg: Config, c: Suite, s: State, env: AuditEnv, i: nat)
    requires Shape(c, s) && i < |s.queue|
    ensures var decisions := ProcessAudits(cfg, c, s, env).1;
      if cfg.resilientUpdates
      then |decisions| == |s.queue| && (decisions[i] <==> IsPromoted(cfg, c, s, s.queue[i].value, env))
      else decisions == []
  {
    var reports := AuditAll(c, s, s.queue, env);
    ReportsOf(c, s, s.queue, env);
    if cfg.resilientUpdates {
      QueueOnePerTool(c, s, env);
      AnsweredAt(cfg, s, reports, i);
      PromotedAt(cfg, c, s, i, env);
    }
  }

  lemma NoReport(c: Suite, s: State, env: AuditEnv, t: Text)
    requires Keyed(s.queue) && Get(s.queue, t).None?
    ensures forall r | r in AuditAll(c, s, s.queue, env) :: r.toolName != t
  {
    var reports := AuditAll(c, s, s.queue, env);
    ReportsOf(c, s, s.queue, env);
    GetIs(s.queue, t);
    forall r | r in reports ensures r.toolName != t {
      var i :| 0 <= i < |reports| && reports[i] == r;
      assert s.queue[i] in s.queue;
    }
  }

  /**
   After any history of an empty client: under a policy that requires a manifest, an audit moves a pin
   only to a card that a manifest names, as the successor of that pin and under its key.
   */
  lemma AuditMovesOnlyAsManifested(cfg: Config, c: Suite, steps: seq<Step>, env: AuditEnv, t: Text)
    requires cfg.policy.Some? && cfg.policy.value.requireManifest
    requires var s := Run(cfg, c, EMPTY, steps); t in s.pins && PinOf(Next(cfg, c, s, Audit(env)), t) != Some(s.pins[t])
    ensures var s := Run(cfg, c, EMPTY, steps);
      var s' := Next(cfg, c, s, Audit(env));
      t in s'.pins && VerifyGlyph(c, s'.pins[t].card) && env.manifests(t).Served? &&
      DescribesUpdate(c, env.manifests(t).manifest, t, Some(s.pins[t]), s'.pins[t].card.id)
  {
    var s := Run(cfg, c, EMPTY, steps);
    RunKeepsShape(cfg, c, EMPTY, steps);
    ProcessAuditsExactly(cfg, c, s, env, t);
    ParkedFinds(s.queue, t);
  }
}
