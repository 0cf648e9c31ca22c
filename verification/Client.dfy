/** The client's objects: its two in-memory stores and `GlyphClient`, against the steps of `Governance`. */
module Client {
  import opened Texts
  import opened Json
  import opened Crypto
  import opened Cards
  import opened Receipts
  import opened Promotion
  import opened JsMaps
  import opened Governance

  class MemoryPinStore {
    var pins: map<Text, Pin>

    constructor ()
      ensures pins == map[]
    {
      pins := map[];
    }

    method Get(tool: Text) returns (pin: Option<Pin>)
      ensures pin == if tool in pins then Some(pins[tool]) else None
    {
      pin := if tool in pins then Some(pins[tool]) else None;
    }

    method Set(pin: Pin)
      modifies this
      ensures pins == old(pins)[pin.toolName := pin]
    {
      pins := pins[pin.toolName := pin];
    }
  }

  class MemoryPendingAuditQueue {
    var entries: JsMap<Text, Entry>

    constructor ()
      ensures entries == []
    {
      entries := [];
    }

    method Enqueue(e: Entry)
      modifies this
      ensures entries == Put(old(entries), e.toolName, e)
    {
      entries := Put(entries, e.toolName, e);
    }

    method Get(tool: Text) returns (e: Option<Entry>)
      ensures e == JsMaps.Get(entries, tool)
    {
      e := JsMaps.Get(entries, tool);
    }

    method Remove(tool: Text)
      modifies this
      ensures entries == Delete(old(entries), tool)
    {
      entries := Delete(entries, tool);
    }
  }

  class GlyphClient {
    const cfg: Config
    const suite: Suite
    var cardCache: map<Text, Card>
    const pinStore: MemoryPinStore
    const auditQueue: MemoryPendingAuditQueue

    ghost function Abs(): State
      reads this, pinStore, auditQueue
    {
      State(cardCache, pinStore.pins, auditQueue.entries)
    }

    constructor (cfg: Config, suite: Suite)
      ensures Abs() == EMPTY && fresh(pinStore) && fresh(auditQueue)
    {
      this.cfg, this.suite := cfg, suite;
      cardCache := map[];
      pinStore := new MemoryPinStore();
      auditQueue := new MemoryPendingAuditQueue();
    }

    method GetCard(name: Text, served: Option<Card>) returns (r: Result<Card, Error>)
      modifies this
      ensures (Abs(), r) == Governance.GetCard(suite, old(Abs()), name, served)
    {
      if served.None? {
        return Err(FetchFailed);
      }
      var card := served.value;
      if Truthy(card.signature) && !VerifyGlyph(suite, card) {
        return Err(VerificationFailed);
      }
      if Truthy(card.signature) && Truthy(card.publicKey) {
        cardCache := cardCache[name := card];
      }
      return Ok(card);
    }

    method CachedCard(name: Text, served: Option<Card>) returns (r: Result<Card, Error>)
      modifies this
      ensures (Abs(), r) == Governance.CachedCard(suite, old(Abs()), name, served)
    {
      if name in cardCache {
        r := Ok(cardCache[name]);
      } else {
        r := GetCard(name, served);
      }
    }

    method Inspect(card: Card) returns (i: Inspection)
      ensures i == InspectCard(Abs(), card)
    {
      var found := pinStore.Get(card.name);
      if found.None? {
        return IsNew;
      }
      var pin := found.value;
      if pin.revoked {
        return IsRevoked(pin);
      }
      if pin.card.id == card.id && pin.card.publicKey == card.publicKey {
        return IsUnchanged(pin);
      }
      var diff := DiffCards(pin.card, card);
      return IsChanged(pin, diff);
    }

    method EnsureApproved(name: Text, served: Option<Card>) returns (error: Option<Error>)
      modifies this, pinStore, auditQueue
      ensures (Abs(), error) == Governance.EnsureApproved(cfg, suite, old(Abs()), name, served)
    {
      var fetched := CachedCard(name, served);
      if fetched.Err? {
        return Some(fetched.error);
      }
      var card := fetched.value;
      if card.name != name {
        return Some(VerificationFailed);
      }
      var inspection := Inspect(card);
      if inspection.IsUnchanged? {
        return None;
      }
      if inspection.IsRevoked? {
        return Some(ToolRevoked);
      }
      if cfg.tofu && inspection.IsNew? {
        if !Truthy(card.signature) || !VerifyGlyph(suite, card) {
          return Some(VerificationFailed);
        }
        pinStore.Set(Pin(name, card, false));
        return None;
      }
      if cfg.secureMode && !cfg.autoApproveReviewChanges {
      } else if inspection.IsChanged? && !inspection.diff.requiresApproval {
        pinStore.Set(inspection.pin.(card := card));
        return None;
      }
      if cfg.resilientUpdates && inspection.IsChanged? {
        auditQueue.Enqueue(Entry(name, card, inspection.diff));
        return None;
      }
      return Some(NotApproved);
    }

    method EnforceTrust(name: Text, env: CallEnv) returns (error: Option<Error>)
      modifies this
      ensures (Abs(), error) == Governance.EnforceTrust(cfg, suite, old(Abs()), name, env)
    {
      if !cfg.trustEnabled {
        return None;
      }
      var fetched := CachedCard(name, env.servedToTrust);
      if fetched.Err? {
        return Some(fetched.error);
      }
      var card := fetched.value;
      var keys := env.trustedKeys(FieldValue(card, Provider));
      if keys.None? {
        return if cfg.trustAllowUnknown then None else Some(TrustFailed);
      }
      if !Truthy(card.publicKey) || card.publicKey.value !in keys.value {
        return Some(TrustFailed);
      }
      return None;
    }

    method EnsureAttested(name: Text, env: CallEnv) returns (error: Option<Error>)
      modifies this
      ensures (Abs(), error) == Governance.EnsureAttested(cfg, suite, old(Abs()), name, env)
    {
      if cfg.requireAttestation.NeverRequired? {
        return None;
      }
      var fetched := CachedCard(name, env.servedToAttest);
      if fetched.Err? {
        return Some(fetched.error);
      }
      var card := fetched.value;
      if card.name != name {
        return Some(VerificationFailed);
      }
      var required := cfg.requireAttestation.AlwaysRequired? ||
                      (cfg.requireAttestation.DangerOnly? && CostValue(card, RiskTier) == Some(Leaf(Str(Ascii("danger")))));
      if !required {
        return None;
      }
      if Falsy(FieldValue(card, Attestation)) || !env.attested(card) {
        return Some(AttestationFailed);
      }
      return None;
    }

    method Call(name: Text, env: CallEnv) returns (outcome: Outcome)
      modifies this, pinStore, auditQueue
      ensures (Abs(), outcome) == Governance.Call(cfg, suite, old(Abs()), name, env)
    {
      var e1 := EnsureApproved(name, env.served);
      if e1.Some? {
        return Blocked(e1.value);
      }
      var e2 := EnforceTrust(name, env);
      if e2.Some? {
        return Blocked(e2.value);
      }
      var e3 := EnsureAttested(name, env);
      if e3.Some? {
        return Blocked(e3.value);
      }
      if env.response.None? {
        return Posted(Err(PostFailed));
      }
      if cfg.secureMode && cfg.verifyReceipts {
        var pin := pinStore.Get(name);
        if pin.None? || !Accepts(suite, env.response.value, pin.value.card, env.callId) {
          return Posted(Err(VerificationFailed));
        }
      }
      return Posted(Ok(env.response.value));
    }

    method ApproveCard(card: Card, reinstate: bool) returns (error: Option<Error>)
      modifies pinStore
      ensures (Abs(), error) == Governance.ApproveCard(suite, old(Abs()), card, reinstate)
    {
      if !Truthy(card.signature) || !VerifyGlyph(suite, card) {
        return Some(VerificationFailed);
      }
      var existing := pinStore.Get(card.name);
      if existing.Some? && existing.value.revoked && !reinstate {
        return Some(ToolRevoked);
      }
      pinStore.Set(Pin(card.name, card, false));
      return None;
    }

    method RevokeTool(tool: Text) returns (error: Option<Error>)
      modifies pinStore
      ensures (Abs(), error) == Governance.RevokeTool(old(Abs()), tool)
    {
      var pin := pinStore.Get(tool);
      if pin.None? {
        return Some(NothingToRevoke);
      }
      if pin.value.revoked {
        return None;
      }
      pinStore.Set(pin.value.(revoked := true));
      return None;
    }

    method ProcessAudits(env: AuditEnv) returns (decisions: seq<bool>)
      modifies pinStore, auditQueue
      ensures (Abs(), decisions) == Governance.ProcessAudits(cfg, suite, old(Abs()), env)
    {
      if !cfg.resilientUpdates {
        return [];
      }
      ghost var s0 := Abs();
      var reports := AuditPending(env);
      decisions := [];
      assert reports[0..] == reports;
      for i := 0 to |reports|
        invariant DecideAll(cfg, Abs(), reports[i..]).0 == DecideAll(cfg, s0, reports).0
        invariant decisions + DecideAll(cfg, Abs(), reports[i..]).1 == DecideAll(cfg, s0, reports).1
        invariant cardCache == old(cardCache)
      {
        assert reports[i..] == [reports[i]] + reports[i + 1..];
        var promoted := DecideOne(reports[i]);
        decisions := decisions + [promoted];
      }
      assert reports[|reports|..] == [] && decisions + [] == decisions;
    }

    method DecideOne(report: AuditReport) returns (promoted: bool)
      modifies pinStore, auditQueue
      ensures (Abs(), promoted) == Governance.Decide(cfg, old(Abs()), report)
    {
      var promote := false;
      if cfg.policy.Some? {
        var reasons;
        promote, reasons := EvaluatePromotion(report, cfg.policy.value);
      }
      if promote {
        var entry := auditQueue.Get(report.toolName);
        var pin := pinStore.Get(report.toolName);
        // The parked card may have been replaced, or the tool revoked, since the audit.
        if entry.Some? && entry.value.newCard.id == report.newCardId && !(pin.Some? && pin.value.revoked) {
          pinStore.Set(Pin(report.toolName, entry.value.newCard, false));
          auditQueue.Remove(report.toolName);
          return true;
        }
      }
      return false;
    }

    method AuditPending(env: AuditEnv) returns (reports: seq<AuditReport>)
      ensures reports == AuditAll(suite, Abs(), auditQueue.entries, env)
    {
      reports := [];
      var entries := auditQueue.entries;
      for i := 0 to |entries|
        invariant reports + AuditAll(suite, Abs(), entries[i..], env) == AuditAll(suite, Abs(), entries, env)
      {
        assert entries[i..] == [entries[i]] + entries[i + 1..];
        var report := Audit(entries[i].value, env);
        reports := reports + [report];
      }
      assert entries[|entries|..] == [];
    }

    method Audit(e: Entry, env: AuditEnv) returns (report: AuditReport)
      ensures report == AuditEntry(suite, Abs(), e, env)
    {
      var signatureValid := Truthy(e.newCard.signature) && VerifyGlyph(suite, e.newCard);
      var manifest := Absent;
      ghost var s := Abs();
      var pin := pinStore.Get(e.toolName);
      match env.manifests(e.toolName) {
        case NoManifest =>
        case ManifestFailed => manifest := Invalid;
        case Served(m) =>
          if ManifestField(m, "toolName") != TextValue(Some(e.toolName)) || !CoreVerifyReceipt(suite, m) {
            manifest := Invalid;
          } else if pin.Some? && TextValue(pin.value.card.publicKey) != ReceiptField(m, ServerPublicKey) {
            manifest := Invalid;
          } else {
            var describesUpdate :=
              ManifestField(m, "newCardId") == TextValue(Some(e.newCard.id)) &&
              (pin.None? || ManifestField(m, "previousCardId") == TextValue(Some(pin.value.card.id)));
            manifest := if describesUpdate then Valid else Invalid;
          }
      }
      var attestation := Absent;
      if !Falsy(FieldValue(e.newCard, Attestation)) {
        attestation := if env.attested(e.newCard) then Valid else Invalid;
      }
      report := AuditReport(e.toolName, e.newCard.id, signatureValid, manifest, attestation, e.diff,
                            signatureValid && manifest != Invalid && attestation != Invalid);
    }
  }
}
