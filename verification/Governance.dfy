/**
 The client's pin gate and update governance, one atomic step per public method.

 What the server serves, what the trust registry answers and what attestation verifiers say are
 inputs of a step. The client is constructed with a pin store, and with the in-memory stores.
 */
module Governance {
  import opened Texts
  import opened Json
  import opened Canonical
  import opened Crypto
  import opened Cards
  import opened Receipts
  import opened Promotion
  import opened JsMaps

  // ----- State -----

  datatype Pin = Pin(toolName: Text, card: Card, revoked: bool)

  datatype Entry = Entry(toolName: Text, newCard: Card, diff: CardDiff)

  /** The session cache, the approved pins, and the updates parked for audit, keyed by tool name. */
  datatype State = State(cache: map<Text, Card>, pins: map<Text, Pin>, queue: JsMap<Text, Entry>)

  const EMPTY: State := State(map[], map[], [])

  datatype AttestationRule = NeverRequired | DangerOnly | AlwaysRequired

  datatype Config = Config(
    secureMode: bool,
    autoApproveReviewChanges: bool,
    verifyReceipts: bool,
    tofu: bool,
    resilientUpdates: bool,
    policy: Option<Policy>,
    trustEnabled: bool,
    trustAllowUnknown: bool,
    requireAttestation: AttestationRule)

  datatype Error =
    | FetchFailed | VerificationFailed | ToolRevoked | NotApproved | NothingToRevoke
    | TrustFailed | AttestationFailed | PostFailed

  // ----- Fetching and inspecting a card -----

  /** `getCard`: a signed card is cached once its signature verifies, and refused otherwise. */
  function GetCard(c: Suite, s: State, name: Text, served: Option<Card>): (State, Result<Card, Error>) {
    match served
    case None => (s, Err(FetchFailed))
    case Some(card) =>
      if Truthy(card.signature) && !VerifyGlyph(c, card) then (s, Err(VerificationFailed))
      else if Truthy(card.signature) && Truthy(card.publicKey) then (s.(cache := s.cache[name := card]), Ok(card))
      else (s, Ok(card))
  }

  function CachedCard(c: Suite, s: State, name: Text, served: Option<Card>): (State, Result<Card, Error>) {
    if name in s.cache then (s, Ok(s.cache[name])) else GetCard(c, s, name, served)
  }

  datatype Inspection = IsNew | IsUnchanged(pin: Pin) | IsChanged(pin: Pin, diff: CardDiff) | IsRevoked(pin: Pin)

  function InspectCard(s: State, card: Card): Inspection {
    if card.name !in s.pins then IsNew
    else
      var pin := s.pins[card.name];
      if pin.revoked then IsRevoked(pin)
      else if pin.card.id == card.id && pin.card.publicKey == card.publicKey then IsUnchanged(pin)
      else IsChanged(pin, Diff(pin.card, card))
  }

  // ----- The gates of call() -----

  function PinCard(s: State, pin: Pin): State {
    s.(pins := s.pins[pin.toolName := pin])
  }

  /** `ensureApproved`, once the card is at hand. */
  function Approve(cfg: Config, c: Suite, s: State, name: Text, card: Card): (State, Option<Error>) {
    if card.name != name then (s, Some(VerificationFailed))
    else match InspectCard(s, card)
      case IsUnchanged(_) => (s, None)
      case IsRevoked(_) => (s, Some(ToolRevoked))
      case IsNew =>
        if !cfg.tofu then (s, Some(NotApproved))
        else if !VerifyGlyph(c, card) then (s, Some(VerificationFailed))
        else (PinCard(s, Pin(name, card, false)), None)
      case IsChanged(pin, diff) =>
        if (!cfg.secureMode || cfg.autoApproveReviewChanges) && !diff.requiresApproval then
          (PinCard(s, pin.(card := card)), None)
        else if cfg.resilientUpdates then
          (s.(queue := Put(s.queue, name, Entry(name, card, diff))), None)
        else (s, Some(NotApproved))
  }

  function EnsureApproved(cfg: Config, c: Suite, s: State, name: Text, served: Option<Card>): (State, Option<Error>) {
    var (s1, fetched) := CachedCard(c, s, name, served);
    match fetched
    case Err(e) => (s1, Some(e))
    case Ok(card) => Approve(cfg, c, s1, name, card)
  }

  /** What a call finds outside the client. */
  datatype CallEnv = CallEnv(
    served: Option<Card>,                         // to ensureApproved, if the card is not cached
    servedToTrust: Option<Card>,                  // to enforceTrust, if still not cached
    servedToAttest: Option<Card>,                 // to ensureAttested, if still not cached
    trustedKeys: Option<Value> -> Option<seq<Text>>,  // the registry's answer for a provider
    attested: Card -> bool,                       // some verifier trusts the card's attestation
    callId: Text,
    response: Option<Envelope>)

  function EnforceTrust(cfg: Config, c: Suite, s: State, name: Text, env: CallEnv): (State, Option<Error>) {
    if !cfg.trustEnabled then (s, None)
    else
      var (s1, fetched) := CachedCard(c, s, name, env.servedToTrust);
      match fetched
      case Err(e) => (s1, Some(e))
      case Ok(card) =>
        match env.trustedKeys(FieldValue(card, Provider))
        case None => (s1, if cfg.trustAllowUnknown then None else Some(TrustFailed))
        case Some(keys) =>
          (s1, if Truthy(card.publicKey) && card.publicKey.value in keys then None else Some(TrustFailed))
  }

  function EnsureAttested(cfg: Config, c: Suite, s: State, name: Text, env: CallEnv): (State, Option<Error>) {
    if cfg.requireAttestation.NeverRequired? then (s, None)
    else
      var (s1, fetched) := CachedCard(c, s, name, env.servedToAttest);
      match fetched
      case Err(e) => (s1, Some(e))
      case Ok(card) =>
        var danger := CostValue(card, RiskTier) == Some(Leaf(Str(Ascii("danger"))));
        if card.name != name then (s1, Some(VerificationFailed))
        else if cfg.requireAttestation.DangerOnly? && !danger then (s1, None)
        else if Falsy(FieldValue(card, Attestation)) || !env.attested(card) then (s1, Some(AttestationFailed))
        else (s1, None)
  }

  /** How a call ended: stopped by a gate, or posted to the server and then accepted or rejected. */
  datatype Outcome = Blocked(error: Error) | Posted(result: Result<Envelope, Error>)

  function Answer(cfg: Config, c: Suite, s: State, name: Text, env: CallEnv): Result<Envelope, Error> {
    match env.response
    case None => Err(PostFailed)
    case Some(e) =>
      if cfg.secureMode && cfg.verifyReceipts && !(name in s.pins && Accepts(c, e, s.pins[name].card, env.callId))
      then Err(VerificationFailed) else Ok(e)
  }

  function Call(cfg: Config, c: Suite, s: State, name: Text, env: CallEnv): (State, Outcome) {
    var (s1, e1) := EnsureApproved(cfg, c, s, name, env.served);
    if e1.Some? then (s1, Blocked(e1.value))
    else
      var (s2, e2) := EnforceTrust(cfg, c, s1, name, env);
      if e2.Some? then (s2, Blocked(e2.value))
      else
        var (s3, e3) := EnsureAttested(cfg, c, s2, name, env);
        if e3.Some? then (s3, Blocked(e3.value)) else (s3, Posted(Answer(cfg, c, s3, name, env)))
  }

  // ----- Approval and revocation by a human -----

  function ApproveCard(c: Suite, s: State, card: Card, reinstate: bool): (State, Option<Error>) {
    if !VerifyGlyph(c, card) then (s, Some(VerificationFailed))
    else if card.name in s.pins && s.pins[card.name].revoked && !reinstate then (s, Some(ToolRevoked))
    else (PinCard(s, Pin(card.name, card, false)), None)
  }

  function RevokeTool(s: State, tool: Text): (State, Option<Error>) {
    if tool !in s.pins then (s, Some(NothingToRevoke))
    else if s.pins[tool].revoked then (s, None)
    else (PinCard(s, s.pins[tool].(revoked := true)), None)
  }

  // ----- Audits -----

  datatype ManifestReply = NoManifest | ManifestFailed | Served(manifest: Receipt)

  datatype AuditEnv = AuditEnv(manifests: Text -> ManifestReply, attested: Card -> bool)

  function ManifestField(m: Receipt, key: string): Option<Value> {
    Lookup(m.rest, Ascii(key))
  }

  /** `getManifest`: a manifest must describe the tool and verify, under the pinned key if there is a pin. */
  function GetManifest(c: Suite, s: State, tool: Text, reply: ManifestReply): Result<Option<Receipt>, Error> {
    match reply
    case NoManifest => Ok(None)
    case ManifestFailed => Err(FetchFailed)
    case Served(m) =>
      if ManifestField(m, "toolName") != TextValue(Some(tool)) || !CoreVerifyReceipt(c, m) then Err(VerificationFailed)
      else if tool in s.pins && TextValue(s.pins[tool].card.publicKey) != ReceiptField(m, ServerPublicKey) then Err(VerificationFailed)
      else Ok(Some(m))
  }

  function ManifestVerdict(c: Suite, s: State, e: Entry, reply: ManifestReply): Verdict {
    match GetManifest(c, s, e.toolName, reply)
    case Err(_) => Invalid
    case Ok(None) => Absent
    case Ok(Some(m)) =>
      if ManifestField(m, "newCardId") == TextValue(Some(e.newCard.id)) &&
         (e.toolName in s.pins ==> ManifestField(m, "previousCardId") == TextValue(Some(s.pins[e.toolName].card.id)))
      then Valid else Invalid
  }

  function AuditEntry(c: Suite, s: State, e: Entry, env: AuditEnv): AuditReport {
    var signatureValid := VerifyGlyph(c, e.newCard);
    var manifest := ManifestVerdict(c, s, e, env.manifests(e.toolName));
    var attestation :=
      if Falsy(FieldValue(e.newCard, Attestation)) then Absent
      else if env.attested(e.newCard) then Valid else Invalid;
    AuditReport(e.toolName, e.newCard.id, signatureValid, manifest, attestation, e.diff,
                signatureValid && manifest != Invalid && attestation != Invalid)
  }

  function AuditAll(c: Suite, s: State, entries: JsMap<Text, Entry>, env: AuditEnv): seq<AuditReport> {
    if entries == [] then [] else [AuditEntry(c, s, entries[0].value, env)] + AuditAll(c, s, entries[1..], env)
  }

  /** Promotes the audited card, if the policy allows it, the entry still holds it and the tool is not revoked. */
  function Decide(cfg: Config, s: State, report: AuditReport): (State, bool) {
    var parked := Get(s.queue, report.toolName);
    if cfg.policy.Some? && Promotes(report, cfg.policy.value) && parked.Some? &&
       parked.value.newCard.id == report.newCardId &&
       !(report.toolName in s.pins && s.pins[report.toolName].revoked)
    then
      (PinCard(s, Pin(report.toolName, parked.value.newCard, false)).(queue := Delete(s.queue, report.toolName)), true)
    else (s, false)
  }

  function DecideAll(cfg: Config, s: State, reports: seq<AuditReport>): (State, seq<bool>)
    decreases |reports|
  {
    if reports == [] then (s, [])
    else
      var (s1, promoted) := Decide(cfg, s, reports[0]);
      var (s2, rest) := DecideAll(cfg, s1, reports[1..]);
      (s2, [promoted] + rest)
  }

  function ProcessAudits(cfg: Config, c: Suite, s: State, env: AuditEnv): (State, seq<bool>) {
    if !cfg.resilientUpdates then (s, []) else DecideAll(cfg, s, AuditAll(c, s, s.queue, env))
  }
}
